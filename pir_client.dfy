/**
 * The Piano PIR client and the client-server pair (pianopir/pir.go, lines
 * 90-533), as objects whose fields the operations update.
 *
 * The client holds primaryHintNum primary hints (tag, parity, program
 * point), and for every chunk maxQueryPerChunk backup hints (tag, parity)
 * and replacement entries (index, value), a per-chunk query histogram, a
 * query counter and a cache of answered indices. Go keeps the parities and
 * replacement values in flat uint64 slices of dbEntrySize words per entry;
 * here they are sequences of entries.
 *
 * The client's invariant against a server is Consistent: every primary
 * hint's parity is the XOR of the entries it names, every unconsumed backup
 * hint and replacement is as preprocessing left it, and the cache holds
 * database entries. Preprocessing establishes it and a query keeps it, and a
 * query of a consistent client returns the requested entry.
 */
module PianoClient {

  import Common
  import Bytes
  import PianoUtil
  import opened PianoPir
  import opened PianoHints

  /** One of UpdatePreprocessing's loops: every parity xored with the chunk entry its tag selects. */
  method XorHintsWithChunk(cfg: Config, prf: Prf, parities: seq<Entry>, tags: seq<Word>, chunkId: nat, chunk: seq<Word>)
    returns (r: seq<Entry>)
    requires ValidConfig(cfg) && chunkId < cfg.setSize && |chunk| >= cfg.chunkSize * cfg.dbEntrySize
    requires |tags| == |parities| && Sized(parities, cfg.dbEntrySize)
    ensures r == XorChunk(cfg, prf, parities, tags, chunkId, chunk)
  {
    r := parities;
    for h := 0 to |parities|
      invariant |r| == |parities|
      invariant forall k | 0 <= k < |parities| ::
        r[k] == (if k < h then XorChunk(cfg, prf, parities, tags, chunkId, chunk)[k] else parities[k])
    {
      var offset := Mask(cfg, prf(tags[h], chunkId));
      r := r[h := EntryXor(r[h], ChunkSlot(cfg, chunk, offset))];
    }
  }

  /**
   * Chunk i as Preprocessing hands it over: the slice of the raw database
   * when the chunk lies inside it, otherwise a copy padded with zeros.
   */
  method ChunkAt(cfg: Config, rawDB: seq<Word>, i: nat) returns (chunk: seq<Word>)
    ensures chunk == ChunkOf(cfg, rawDB, i)
  {
    var e := cfg.dbEntrySize;
    var start, end := i * cfg.chunkSize, (i + 1) * cfg.chunkSize;
    Distribute(i, 1, cfg.chunkSize);
    Distribute(start, cfg.chunkSize, e);
    if end * e > |rawDB| {
      var tmp := new Word[cfg.chunkSize * e];
      var j := start * e;
      while j < end * e
        invariant start * e <= j <= end * e
        invariant forall t | 0 <= t < j - start * e :: tmp[t] == ChunkOf(cfg, rawDB, i)[t]
      {
        if j >= |rawDB| {
          tmp[j - start * e] := 0;
        } else {
          tmp[j - start * e] := rawDB[j];
        }
        j := j + 1;
      }
      chunk := tmp[..];
    } else {
      chunk := rawDB[start * e..end * e];
    }
  }

  /** UpdatePreprocessing's second loop: the backup parities of every chunk but chunkId. */
  method XorBackupsWithChunk(cfg: Config, prf: Prf, parities: seq<seq<Entry>>, tags: seq<seq<Word>>, chunkId: nat, chunk: seq<Word>)
    returns (rows: seq<seq<Entry>>)
    requires ValidConfig(cfg) && chunkId < cfg.setSize && |chunk| >= cfg.chunkSize * cfg.dbEntrySize
    requires |tags| == |parities| && SizedTable(parities, cfg.dbEntrySize)
    requires forall c | 0 <= c < |tags| :: |tags[c]| == |parities[c]|
    ensures rows == BackupsWithChunk(cfg, prf, parities, tags, chunkId, chunk)
  {
    ghost var target := BackupsWithChunk(cfg, prf, parities, tags, chunkId, chunk);
    rows := parities;
    for i := 0 to |parities|
      invariant |rows| == |parities|
      invariant forall c | 0 <= c < |parities| :: rows[c] == (if c < i then target[c] else parities[c])
    {
      if i == chunkId {
        continue;
      }
      var row := XorHintsWithChunk(cfg, prf, rows[i], tags[i], chunkId, chunk);
      rows := rows[i := row];
    }
  }

  /** UpdatePreprocessing's last loop: chunk chunkId's replacement indices and entries at the drawn offsets. */
  method DrawReplacements(cfg: Config, chunkId: nat, chunk: seq<Word>, draws: seq<Word>, q: nat)
    returns (idxRow: seq<Word>, valRow: seq<Entry>)
    requires ValidConfig(cfg) && Addressable(cfg) && chunkId < cfg.setSize
    requires |chunk| >= cfg.chunkSize * cfg.dbEntrySize && |draws| >= q
    ensures idxRow == ReplacementRow(cfg, chunkId, draws, q)
    ensures valRow == ReplacementVals(cfg, chunk, draws, q)
  {
    idxRow, valRow := [], [];
    for j := 0 to q
      invariant |idxRow| == j && |valRow| == j
      invariant forall k | 0 <= k < j :: idxRow[k] == ReplacementRow(cfg, chunkId, draws, q)[k]
      invariant forall k | 0 <= k < j :: valRow[k] == ReplacementVals(cfg, chunk, draws, q)[k]
    {
      var offset := Mask(cfg, draws[j]);
      idxRow := idxRow + [ReplacementIndex(cfg, chunkId, draws[j])];
      valRow := valRow + [ChunkSlot(cfg, chunk, offset)];
    }
  }

  /** The zero query count of each of n chunks. */
  method ZeroHistogram(n: nat) returns (histogram: seq<nat>)
    ensures histogram == Filled(n, 0)
  {
    histogram := [];
    for i := 0 to n
      invariant histogram == Filled(i, 0)
    {
      histogram := histogram + [0];
    }
  }

  /** Initialization's first loop: tags 0 .. p - 1, zero parities, nothing programmed. */
  method InitialPrimary(p: nat, e: nat) returns (tags: seq<Word>, parities: seq<Entry>, progs: seq<Word>)
    requires p <= DefaultProgramPoint
    ensures tags == FirstTags(p)
    ensures parities == Filled(p, Zeros(e))
    ensures progs == Filled(p, DefaultProgramPoint)
  {
    tags, parities, progs := [], [], [];
    var count: nat := 0;
    for i := 0 to p
      invariant count == i
      invariant tags == FirstTags(i)
      invariant parities == Filled(i, Zeros(e))
      invariant progs == Filled(i, DefaultProgramPoint)
    {
      tags := tags + [count];
      parities := parities + [Zeros(e)];
      progs := progs + [DefaultProgramPoint];
      count := count + 1;
    }
  }

  /** Initialization's inner loop for one chunk: q backup hints with tags from count on, unset replacements. */
  method InitialBackupRow(count: nat, q: nat, e: nat)
    returns (rowIdx: seq<Word>, rowVal: seq<Entry>, rowTag: seq<Word>, rowPar: seq<Entry>)
    requires count + q <= Word64
    ensures rowIdx == Filled(q, DefaultProgramPoint) && rowVal == Filled(q, Zeros(e))
    ensures rowTag == seq(q, j => count + j) && rowPar == Filled(q, Zeros(e))
  {
    rowIdx, rowVal, rowTag, rowPar := [], [], [], [];
    for j := 0 to q
      invariant rowIdx == Filled(j, DefaultProgramPoint) && rowVal == Filled(j, Zeros(e))
      invariant rowTag == seq(j, j' => count + j') && rowPar == Filled(j, Zeros(e))
    {
      rowIdx := rowIdx + [DefaultProgramPoint];
      rowVal := rowVal + [Zeros(e)];
      rowTag := rowTag + [count + j];
      rowPar := rowPar + [Zeros(e)];
    }
  }

  /** Initialization's outer loop: the backup hints and replacements of n chunks, tags continuing from p. */
  method InitialBackups(p: nat, q: nat, n: nat, e: nat)
    returns (rIdx: seq<seq<Word>>, rVal: seq<seq<Entry>>, bTag: seq<seq<Word>>, bPar: seq<seq<Entry>>)
    requires p + n * q <= Word64
    ensures InitialBackupTables(n, q, p, e, rIdx, rVal, bTag, bPar)
  {
    rIdx, rVal, bTag, bPar := [], [], [], [];
    var count: nat := p;
    for c := 0 to n
      invariant count == p + c * q
      invariant rIdx == Filled(c, Filled(q, DefaultProgramPoint))
      invariant rVal == Filled(c, Filled(q, Zeros(e)))
      invariant bTag == BackupTags(p, q, n)[..c]
      invariant bPar == Filled(c, Filled(q, Zeros(e)))
    {
      PianoUtil.MulLe(c + 1, n, q);
      Distribute(c, 1, q);
      var rowIdx, rowVal, rowTag, rowPar := InitialBackupRow(count, q, e);
      assert rowTag == BackupTags(p, q, n)[c];
      assert BackupTags(p, q, n)[..c + 1] == BackupTags(p, q, n)[..c] + [rowTag];
      rIdx := rIdx + [rowIdx];
      rVal := rVal + [rowVal];
      bTag := bTag + [rowTag];
      bPar := bPar + [rowPar];
      count := count + q;
    }
  }

  /** The index tag selects in every chunk: i * chunkSize + the offset of chunk i. */
  method HintIndices(cfg: Config, prf: Prf, tag: Word) returns (indices: seq<Word>)
    requires ValidConfig(cfg) && Addressable(cfg)
    ensures |indices| == cfg.setSize
    ensures forall k | 0 <= k < cfg.setSize :: indices[k] == k * cfg.chunkSize + HintOffset(cfg, prf, tag, k)
  {
    indices := [];
    for i := 0 to cfg.setSize
      invariant |indices| == i
      invariant forall k | 0 <= k < i :: indices[k] == k * cfg.chunkSize + HintOffset(cfg, prf, tag, k)
    {
      var hintOffset := HintOffset(cfg, prf, tag, i);
      var index := i * cfg.chunkSize + hintOffset;
      IndexIsWord(cfg, i, hintOffset);
      indices := indices + [index];
    }
  }

  class PianoPirClient {
    const config: Config
    const maxQueryNum: nat
    const maxQueryPerChunk: nat
    const primaryHintNum: nat

    /** Set by DummyPreprocessing: preprocessing stops after Initialization. */
    var skipPrep: bool
    /** PRFEvalWithLongKeyAndTag under the current long key. */
    var prf: Prf
    var finishedQueryNum: nat
    var queryHistogram: seq<nat>

    var primaryShortTag: seq<Word>
    var primaryParity: seq<Entry>
    var primaryProgramPoint: seq<Word>

    var replacementIdx: seq<seq<Word>>
    var replacementVal: seq<seq<Entry>>

    var backupShortTag: seq<seq<Word>>
    var backupParity: seq<seq<Entry>>

    var localCache: map<Word, Entry>

    /**
     * The sizes the client relies on: a valid configuration whose indices
     * are uint64s, hint numbers below the DefaultProgramPoint marker that
     * also marks "no hit", and every tag Initialization hands out a uint64.
     */
    predicate Bounded() {
      && ValidConfig(config) && Addressable(config)
      && primaryHintNum <= DefaultProgramPoint
      && primaryHintNum + config.setSize * maxQueryPerChunk <= Word64
    }

    /** The tables have the sizes Initialization gives them, and every program point names a chunk. */
    predicate Shaped()
      reads this
    {
      && Bounded()
      && TablesShaped(config, primaryHintNum, maxQueryPerChunk, queryHistogram,
                      primaryShortTag, primaryParity, primaryProgramPoint,
                      replacementIdx, replacementVal, backupShortTag, backupParity, localCache)
    }

    /** The client's hints, replacements and cache agree with server s's database. */
    ghost predicate Consistent(s: Server)
      reads this
    {
      && Bounded()
      && ClientOk(s, config, primaryHintNum, maxQueryPerChunk, prf, queryHistogram,
                  primaryShortTag, primaryParity, primaryProgramPoint,
                  replacementIdx, replacementVal, backupShortTag, backupParity, localCache)
    }

    /** The state Initialization leaves: fresh consecutive tags, zero parities, nothing programmed, consumed or cached. */
    ghost predicate Initialized(p: Prf)
      reads this
    {
      && prf == p && finishedQueryNum == 0 && localCache == map[]
      && InitialPrimaryTables(config.setSize, primaryHintNum, config.dbEntrySize,
                              queryHistogram, primaryShortTag, primaryParity, primaryProgramPoint)
      && InitialBackupTables(config.setSize, maxQueryPerChunk, primaryHintNum, config.dbEntrySize,
                             replacementIdx, replacementVal, backupShortTag, backupParity)
    }

    /**
     * NewPianoPIRClient: zeroed primary tables, one empty row per chunk, an
     * empty cache. The query budget and hint numbers come from floating-point
     * formulas and are given; the PRF under a fresh random key is given.
     */
    constructor (config: Config, maxQueryNum: nat, primaryHintNum: nat, maxQueryPerChunk: nat, prf: Prf)
      requires ValidConfig(config) && Addressable(config)
      requires primaryHintNum <= DefaultProgramPoint
      requires primaryHintNum + config.setSize * maxQueryPerChunk <= Word64
      ensures Bounded()
      ensures this.config == config && this.maxQueryNum == maxQueryNum
      ensures this.primaryHintNum == primaryHintNum && this.maxQueryPerChunk == maxQueryPerChunk
      ensures this.prf == prf && !skipPrep && finishedQueryNum == 0
      ensures queryHistogram == Filled(config.setSize, 0)
      ensures primaryShortTag == Filled(primaryHintNum, 0) && primaryProgramPoint == Filled(primaryHintNum, 0)
      ensures primaryParity == Filled(primaryHintNum, Zeros(config.dbEntrySize))
      ensures replacementIdx == Filled(config.setSize, []) && replacementVal == Filled(config.setSize, [])
      ensures backupShortTag == Filled(config.setSize, []) && backupParity == Filled(config.setSize, [])
      ensures localCache == map[]
    {
      this.config := config;
      this.maxQueryNum := maxQueryNum;
      this.primaryHintNum := primaryHintNum;
      this.maxQueryPerChunk := maxQueryPerChunk;
      this.prf := prf;
      skipPrep := false;
      finishedQueryNum := 0;
      queryHistogram := Filled(config.setSize, 0);
      primaryShortTag := Filled(primaryHintNum, 0);
      primaryParity := Filled(primaryHintNum, Zeros(config.dbEntrySize));
      primaryProgramPoint := Filled(primaryHintNum, 0);
      replacementIdx := Filled(config.setSize, []);
      replacementVal := Filled(config.setSize, []);
      backupShortTag := Filled(config.setSize, []);
      backupParity := Filled(config.setSize, []);
      localCache := map[];
    }

    /**
     * Initialization: a new key, a zero histogram and counter, primary tags
     * 0 .. primaryHintNum - 1 and backup tags continuing from there, zero
     * parities, every program point and replacement index at
     * DefaultProgramPoint, an empty cache.
     */
    method Initialization(newPrf: Prf)
      requires Bounded()
      modifies this`prf, this`finishedQueryNum, this`localCache, this`queryHistogram
      modifies this`primaryShortTag, this`primaryParity, this`primaryProgramPoint
      modifies this`replacementIdx, this`replacementVal, this`backupShortTag, this`backupParity
      ensures Initialized(newPrf)
    {
      finishedQueryNum, prf, localCache := 0, newPrf, map[];
      InitializePrimary();
      InitializeBackups();
    }

    /** Initialization's first loop and the zero histogram. */
    method InitializePrimary()
      requires primaryHintNum <= DefaultProgramPoint
      modifies this`queryHistogram, this`primaryShortTag, this`primaryParity, this`primaryProgramPoint
      ensures InitialPrimaryTables(config.setSize, primaryHintNum, config.dbEntrySize,
                                   queryHistogram, primaryShortTag, primaryParity, primaryProgramPoint)
    {
      queryHistogram := ZeroHistogram(config.setSize);
      primaryShortTag, primaryParity, primaryProgramPoint := InitialPrimary(primaryHintNum, config.dbEntrySize);
    }

    /** Initialization's second loop: the backup hints and replacements of every chunk. */
    method InitializeBackups()
      requires primaryHintNum + config.setSize * maxQueryPerChunk <= Word64
      modifies this`replacementIdx, this`replacementVal, this`backupShortTag, this`backupParity
      ensures InitialBackupTables(config.setSize, maxQueryPerChunk, primaryHintNum, config.dbEntrySize,
                                  replacementIdx, replacementVal, backupShortTag, backupParity)
    {
      replacementIdx, replacementVal, backupShortTag, backupParity :=
        InitialBackups(primaryHintNum, maxQueryPerChunk, config.setSize, config.dbEntrySize);
    }

    /** The initial tables have the shapes the client relies on. */
    lemma InitializedShaped(p: Prf)
      requires Bounded() && Initialized(p)
      ensures Shaped()
    {
    }

    /**
     * UpdatePreprocessing: chunk chunkId xored into every primary parity and
     * into every backup parity of the other chunks, at the offset each tag
     * selects, and chunk chunkId's replacements drawn at the offsets the
     * random draws select.
     */
    method UpdatePreprocessing(chunkId: nat, chunk: seq<Word>, draws: seq<Word>)
      requires Shaped() && chunkId < config.setSize
      requires |chunk| >= config.chunkSize * config.dbEntrySize && |draws| >= maxQueryPerChunk
      modifies this`primaryParity, this`backupParity, this`replacementIdx, this`replacementVal
      ensures Shaped()
      ensures primaryParity == XorChunk(config, prf, old(primaryParity), primaryShortTag, chunkId, chunk)
      ensures backupParity == BackupsWithChunk(config, prf, old(backupParity), backupShortTag, chunkId, chunk)
      ensures replacementIdx == old(replacementIdx)[chunkId := ReplacementRow(config, chunkId, draws, maxQueryPerChunk)]
      ensures replacementVal == old(replacementVal)[chunkId := ReplacementVals(config, chunk, draws, maxQueryPerChunk)]
    {
      var primary := XorHintsWithChunk(config, prf, primaryParity, primaryShortTag, chunkId, chunk);
      var rows := XorBackupsWithChunk(config, prf, backupParity, backupShortTag, chunkId, chunk);
      var idxRow, valRow := DrawReplacements(config, chunkId, chunk, draws, maxQueryPerChunk);
      primaryParity := primary;
      backupParity := rows;
      replacementIdx := replacementIdx[chunkId := idxRow];
      replacementVal := replacementVal[chunkId := valRow];
    }

    /**
     * Preprocessing: Initialization under a new key, then, unless skipPrep
     * is set, every chunk of the database in turn. Against the server
     * holding that database, the client is then consistent.
     */
    method Preprocessing(rawDB: seq<Word>, newPrf: Prf, draw: (nat, nat) -> Word)
      requires Bounded()
      modifies this
      ensures Shaped() && skipPrep == old(skipPrep) && prf == newPrf
      ensures finishedQueryNum == 0 && queryHistogram == Filled(config.setSize, 0) && localCache == map[]
      ensures skipPrep ==> Initialized(newPrf)
      ensures !skipPrep && |rawDB| == config.dbSize * config.dbEntrySize ==> Consistent(Server(config, rawDB))
    {
      Initialization(newPrf);
      InitializedShaped(newPrf);
      if skipPrep {
        return;
      }
      ghost var s := Server(config, rawDB);
      ghost var ready := s.Ready();
      if ready {
        PrepStart(s, prf, maxQueryPerChunk, primaryShortTag, backupShortTag, replacementIdx, replacementVal);
      }
      PrepareChunks(rawDB, draw, s, ready);
      if ready {
        PrepDone(s, prf, maxQueryPerChunk, primaryShortTag, primaryParity, backupShortTag, backupParity,
                 replacementIdx, replacementVal);
      }
    }

    /** Preprocessing's loop: every chunk of the database, in order, folded into the hints. */
    method PrepareChunks(rawDB: seq<Word>, draw: (nat, nat) -> Word, ghost s: Server, ghost ready: bool)
      requires Shaped() && (ready ==> s.Ready() && s.config == config && s.rawDB == rawDB)
      requires ready ==> PrepPartial(s, prf, maxQueryPerChunk, primaryShortTag, primaryParity, backupShortTag,
                                     backupParity, replacementIdx, replacementVal, 0)
      modifies this`primaryParity, this`backupParity, this`replacementIdx, this`replacementVal
      ensures Shaped()
      ensures ready ==> PrepPartial(s, prf, maxQueryPerChunk, primaryShortTag, primaryParity, backupShortTag,
                                    backupParity, replacementIdx, replacementVal, config.setSize)
    {
      var n, q := config.setSize, maxQueryPerChunk;
      for i := 0 to n
        invariant Shaped()
        invariant ready ==> PrepPartial(s, prf, q, primaryShortTag, primaryParity, backupShortTag, backupParity,
                                        replacementIdx, replacementVal, i)
      {
        var chunk := ChunkAt(config, rawDB, i);
        var draws := seq(q, j requires 0 <= j => draw(i, j));
        if ready {
          PrepNext(s, prf, q, primaryShortTag, primaryParity, backupShortTag, backupParity,
                   replacementIdx, replacementVal, i, draws);
        }
        UpdatePreprocessing(i, chunk, draws);
      }
    }

    /** The primary hint a query for chunk * chunkSize + offset uses; DefaultProgramPoint when none can serve it. */
    function HitOf(chunk: nat, offset: nat): nat
      reads this
      requires Shaped() && chunk < config.setSize
    {
      var f := FirstHit(config, prf, primaryShortTag, primaryProgramPoint, chunk, offset, 0);
      if f < primaryHintNum then f else DefaultProgramPoint
    }

    /** Query's search of the primary table: the first hint whose tag selects offset in the chunk and that is not programmed there. */
    method FindHit(chunkId: nat, offset: nat) returns (hitId: nat)
      requires Shaped() && chunkId < config.setSize
      ensures hitId == HitOf(chunkId, offset)
      ensures hitId < primaryHintNum ==> Hits(config, prf, primaryShortTag[hitId], primaryProgramPoint[hitId], chunkId, offset)
      ensures hitId == DefaultProgramPoint ==>
        forall h | 0 <= h < primaryHintNum :: !Hits(config, prf, primaryShortTag[h], primaryProgramPoint[h], chunkId, offset)
    {
      hitId := DefaultProgramPoint;
      var i := 0;
      while i < primaryHintNum
        invariant i <= primaryHintNum && hitId == DefaultProgramPoint
        invariant forall k | 0 <= k < i :: !Hits(config, prf, primaryShortTag[k], primaryProgramPoint[k], chunkId, offset)
      {
        var hintOffset := Mask(config, prf(primaryShortTag[i], chunkId));
        if hintOffset == offset {
          if primaryProgramPoint[i] == DefaultProgramPoint || primaryProgramPoint[i] / config.chunkSize != chunkId {
            hitId := i;
            break;
          }
        }
        i := i + 1;
      }
    }

    /** The hint's set expanded chunk by chunk, its program point enforced, and chunk chunkId replaced. */
    method BuildQuerySet(hitId: nat, chunkId: nat, replIdx: Word) returns (querySet: seq<Word>)
      requires Shaped() && hitId < primaryHintNum && chunkId < config.setSize
      ensures querySet == Members(config, prf, primaryShortTag[hitId], primaryProgramPoint[hitId])[chunkId := replIdx]
    {
      var tag, prog := primaryShortTag[hitId], primaryProgramPoint[hitId];
      querySet := HintIndices(config, prf, tag);
      if prog != DefaultProgramPoint {
        var c := prog / config.chunkSize;
        ProgrammedMembers(config, prf, tag, prog, c, querySet);
        querySet := querySet[c := prog];
      } else {
        ProgrammedMembers(config, prf, tag, prog, 0, querySet);
      }
      querySet := querySet[chunkId := replIdx];
    }

    /** The offsets sent to the server: uint32(q & (chunkSize - 1)) of every index q of the set. */
    method QueryOffsets(querySet: seq<Word>) returns (offsets: seq<Bits32>)
      requires Bounded() && |querySet| == config.setSize
      ensures |offsets| == config.setSize
      ensures forall i | 0 <= i < config.setSize :: offsets[i] == querySet[i] % config.chunkSize
    {
      var cfg := config;
      offsets := [];
      for i := 0 to cfg.setSize
        invariant |offsets| == i
        invariant forall k | 0 <= k < i :: offsets[k] == querySet[k] % cfg.chunkSize
      {
        var masked := Mask(cfg, querySet[i]);
        OffsetFits(cfg, querySet[i]);
        offsets := offsets + [masked % 0x1_0000_0000];
      }
    }

    /**
     * Whether a real query for an index that is not cached is answered:
     * budget left, the chunk's replacements not used up, and a hint that can
     * serve the index.
     */
    function Serves(idx: nat): bool
      reads this
      requires Shaped()
    {
      var c := idx / config.chunkSize;
      && finishedQueryNum < maxQueryNum
      && c < config.setSize && queryHistogram[c] < maxQueryPerChunk
      && HitOf(c, idx % config.chunkSize) < primaryHintNum
    }

    /**
     * The answer through primary hint hitId: query the hint's set with idx's
     * chunk swapped for the next replacement, then cancel the replacement and
     * the hint's parity. A consistent client gets the database entry.
     */
    method HintAnswer(idx: Word, c: nat, s: Server, hitId: nat) returns (response: Entry)
      requires Shaped() && s.Ready() && s.config == config
      requires idx < config.dbSize && c == idx / config.chunkSize && c < config.setSize
      requires hitId < primaryHintNum && queryHistogram[c] < maxQueryPerChunk
      requires Hits(config, prf, primaryShortTag[hitId], primaryProgramPoint[hitId], c, idx % config.chunkSize)
      ensures |response| == config.dbEntrySize
      ensures Consistent(s) ==> response == s.Entry(idx)
    {
      var inGroupIdx := queryHistogram[c];
      var replIdx := replacementIdx[c][inGroupIdx];
      var replVal := replacementVal[c][inGroupIdx];
      var querySet := BuildQuerySet(hitId, c, replIdx);
      var offsets := QueryOffsets(querySet);
      var answer := PrivateQuery(s, offsets);
      response := EntryXor(EntryXor(answer.value, replVal), primaryParity[hitId]);
      if Consistent(s) {
        var tag, prog := primaryShortTag[hitId], primaryProgramPoint[hitId];
        assert ReplacementOk(s, c, replIdx, replVal);
        assert PrimaryOk(s, prf, tag, prog, primaryParity[hitId]);
        HintAnswerOk(s, prf, tag, prog, primaryParity[hitId], idx, c, replIdx, replVal, querySet, offsets);
      }
    }

    /**
     * The refresh after an answer: hint hitId takes the next backup hint of
     * idx's chunk, its parity xored with the answer, and idx as its program
     * point; the chunk's count, the query counter and the cache advance.
     */
    method RefreshHint(idx: Word, c: nat, hitId: nat, response: Entry)
      requires Shaped() && c == idx / config.chunkSize && c < config.setSize
      requires hitId < primaryHintNum && queryHistogram[c] < maxQueryPerChunk
      requires |response| == config.dbEntrySize
      modifies this`primaryShortTag, this`primaryParity, this`primaryProgramPoint
      modifies this`finishedQueryNum, this`queryHistogram, this`localCache
      ensures Shaped()
      ensures Refreshed(c, hitId, idx, response, backupShortTag, backupParity,
                        old(queryHistogram), old(primaryShortTag), old(primaryParity), old(primaryProgramPoint),
                        old(finishedQueryNum), old(localCache),
                        queryHistogram, primaryShortTag, primaryParity, primaryProgramPoint, finishedQueryNum, localCache)
    {
      var inGroupIdx := queryHistogram[c];
      primaryShortTag := primaryShortTag[hitId := backupShortTag[c][inGroupIdx]];
      primaryParity := primaryParity[hitId := EntryXor(backupParity[c][inGroupIdx], response)];
      primaryProgramPoint := primaryProgramPoint[hitId := idx];
      finishedQueryNum := finishedQueryNum + 1;
      queryHistogram := queryHistogram[c := inGroupIdx + 1];
      localCache := localCache[idx := response];
    }

    /**
     * The part of Query after the hit: the answer through the hint, then its
     * refresh. A consistent client stays consistent and gets the entry.
     */
    method QueryWithHint(idx: Word, c: nat, s: Server, hitId: nat) returns (r: Reply)
      requires Shaped() && s.Ready() && s.config == config
      requires idx < config.dbSize && c == idx / config.chunkSize && c < config.setSize
      requires hitId < primaryHintNum && queryHistogram[c] < maxQueryPerChunk
      requires Hits(config, prf, primaryShortTag[hitId], primaryProgramPoint[hitId], c, idx % config.chunkSize)
      modifies this`primaryShortTag, this`primaryParity, this`primaryProgramPoint
      modifies this`finishedQueryNum, this`queryHistogram, this`localCache
      ensures Shaped() && r.error.None? && |r.value| == config.dbEntrySize
      ensures Refreshed(c, hitId, idx, r.value, backupShortTag, backupParity,
                        old(queryHistogram), old(primaryShortTag), old(primaryParity), old(primaryProgramPoint),
                        old(finishedQueryNum), old(localCache),
                        queryHistogram, primaryShortTag, primaryParity, primaryProgramPoint, finishedQueryNum, localCache)
      ensures old(Consistent(s)) ==> Consistent(s) && r.value == s.Entry(idx)
    {
      var response := HintAnswer(idx, c, s, hitId);
      RefreshHint(idx, c, hitId, response);
      if old(Consistent(s)) {
        ServedQueryOk(s, config, primaryHintNum, maxQueryPerChunk, prf,
                      replacementIdx, replacementVal, backupShortTag, backupParity, idx, c, hitId,
                      old(queryHistogram), old(primaryShortTag), old(primaryParity), old(primaryProgramPoint),
                      old(finishedQueryNum), old(localCache),
                      queryHistogram, primaryShortTag, primaryParity, primaryProgramPoint, finishedQueryNum, localCache);
      }
      r := Reply(response, Common.None);
    }

    /**
     * Query: a dummy query sends random offsets and returns zeros; a real
     * one is answered from the cache, or else as FetchEntry answers it. The
     * dummy offsets are the random draws given.
     */
    method Query(idx: Word, s: Server, realQuery: bool, dummyDraws: seq<Word>) returns (r: Reply)
      requires Shaped() && s.Ready() && s.config == config
      requires realQuery ==> idx < config.dbSize
      requires !realQuery ==> |dummyDraws| >= config.setSize
      modifies this`primaryShortTag, this`primaryParity, this`primaryProgramPoint
      modifies this`finishedQueryNum, this`queryHistogram, this`localCache
      ensures Shaped() && |r.value| == config.dbEntrySize
      ensures !realQuery ==> r == Reply(Zeros(config.dbEntrySize), Common.None) && unchanged(this)
      ensures realQuery && idx in old(localCache) ==> r == Reply(old(localCache)[idx], Common.None) && unchanged(this)
      ensures realQuery && idx !in old(localCache) ==> (r.error.None? <==> old(Serves(idx)))
      ensures r.error.Some? ==> r.value == Zeros(config.dbEntrySize) && unchanged(this)
      ensures old(Consistent(s)) ==> Consistent(s) && (realQuery && r.error.None? ==> r.value == s.Entry(idx))
    {
      if !realQuery {
        r := DummyQuery(s, dummyDraws);
      } else if idx in localCache {
        r := Reply(localCache[idx], Common.None);
      } else {
        r := FetchEntry(idx, idx / config.chunkSize, s);
      }
    }

    /** A dummy query: offsets from the random draws, the server's answer thrown away, zeros returned. */
    method DummyQuery(s: Server, dummyDraws: seq<Word>) returns (r: Reply)
      requires Bounded() && s.Ready() && s.config == config && |dummyDraws| >= config.setSize
      ensures r == Reply(Zeros(config.dbEntrySize), Common.None)
    {
      var offsets := QueryOffsets(dummyDraws[..config.setSize]);
      var answer := PrivateQuery(s, offsets);
      r := Reply(Zeros(config.dbEntrySize), answer.error);
    }

    /**
     * A real query for an index that is not cached: refused, with nothing
     * changed, when the budget is spent, the chunk's replacements are used
     * up or no primary hint can serve the index; otherwise answered through
     * the first hint that can, which is then refreshed.
     */
    method FetchEntry(idx: Word, c: nat, s: Server) returns (r: Reply)
      requires Shaped() && s.Ready() && s.config == config && idx < config.dbSize && c == idx / config.chunkSize
      modifies this`primaryShortTag, this`primaryParity, this`primaryProgramPoint
      modifies this`finishedQueryNum, this`queryHistogram, this`localCache
      ensures Shaped() && |r.value| == config.dbEntrySize
      ensures r.error.None? <==> old(Serves(idx))
      ensures r.error.Some? ==> r.value == Zeros(config.dbEntrySize) && unchanged(this)
      ensures old(Serves(idx)) ==> Refreshed(c, old(HitOf(c, idx % config.chunkSize)), idx, r.value, backupShortTag, backupParity,
                        old(queryHistogram), old(primaryShortTag), old(primaryParity), old(primaryProgramPoint),
                        old(finishedQueryNum), old(localCache),
                        queryHistogram, primaryShortTag, primaryParity, primaryProgramPoint, finishedQueryNum, localCache)
      ensures old(Consistent(s)) ==> Consistent(s) && (r.error.None? ==> r.value == s.Entry(idx))
    {
      var ret := Zeros(config.dbEntrySize);
      if finishedQueryNum >= maxQueryNum {
        return Reply(ret, Common.Some("exceed the maximum number of queries"));
      }
      ChunkOfIndex(config, idx);
      var chunkId, offset := c, idx % config.chunkSize;
      if queryHistogram[chunkId] >= maxQueryPerChunk {
        return Reply(ret, Common.Some("too many queries in chunk"));
      }
      var hitId := FindHit(chunkId, offset);
      if hitId == DefaultProgramPoint {
        return Reply(ret, Common.Some("no hit hint in the primary hint table"));
      }
      r := QueryWithHint(idx, chunkId, s, hitId);
    }
  }

  /**
   * PianoPIR: a configuration, a client and a server sharing it. The
   * configuration is derived from the database size by the sizing rule.
   */
  class PianoPirSystem {
    const config: Config
    const client: PianoPirClient
    const server: Server

    predicate Valid() {
      && client.config == config && server.config == config
      && server.Ready() && client.Bounded()
    }

    /**
     * NewPianoPIR. The raw database must hold dbSize entries of
     * entryBytes / 8 words each. The chunk and set sizes follow the same rule
     * as GenParams; the query budget and hint numbers are given. The size is
     * kept at or below the DefaultProgramPoint marker, which NewPianoPIR
     * itself does not check (see PianoHints.MarkerCollides).
     */
    constructor (dbSize: Word, entryBytes: nat, rawDB: seq<Word>,
                 maxQueryNum: nat, primaryHintNum: nat, maxQueryPerChunk: nat, prf: Prf)
      requires |rawDB| == dbSize * (entryBytes / 8)
      requires dbSize <= DefaultProgramPoint
      requires primaryHintNum <= DefaultProgramPoint && maxQueryPerChunk <= DefaultProgramPoint
      ensures Valid() && fresh(client)
      ensures server.rawDB == rawDB && config.dbSize == dbSize && config.dbEntrySize == entryBytes / 8
      ensures PianoUtil.SizingRule(dbSize, config.chunkSize, config.setSize)
      ensures client.maxQueryNum == maxQueryNum && client.primaryHintNum == primaryHintNum
      ensures client.maxQueryPerChunk == maxQueryPerChunk && client.finishedQueryNum == 0
    {
      var cfg := SystemConfig(dbSize, entryBytes, primaryHintNum, maxQueryPerChunk);
      var c := new PianoPirClient(cfg, maxQueryNum, primaryHintNum, maxQueryPerChunk, prf);
      config := cfg;
      client := c;
      server := Server(cfg, rawDB);
    }

    /** Preprocessing: the client preprocesses the server's database under a new key. */
    method Preprocessing(newPrf: Prf, draw: (nat, nat) -> Word)
      requires Valid()
      modifies client
      ensures client.Shaped() && client.skipPrep == old(client.skipPrep) && client.finishedQueryNum == 0
      ensures !client.skipPrep ==> client.Consistent(server)
    {
      client.Preprocessing(server.rawDB, newPrf, draw);
    }

    /** DummyPreprocessing: Initialization only, and every later preprocessing stops there too. */
    method DummyPreprocessing(newPrf: Prf)
      requires Valid()
      modifies client
      ensures client.Initialized(newPrf) && client.skipPrep
    {
      client.Initialization(newPrf);
      client.skipPrep := true;
    }

    /**
     * Query: once the budget is exactly used up, preprocess again under a
     * new key; then the client's query. A consistent client, or one that
     * preprocessed here, answers a real query with the database entry.
     */
    method Query(idx: Word, realQuery: bool, newPrf: Prf, draw: (nat, nat) -> Word, dummyDraws: seq<Word>)
      returns (r: Reply)
      requires Valid() && client.Shaped()
      requires realQuery ==> idx < config.dbSize
      requires !realQuery ==> |dummyDraws| >= config.setSize
      modifies client
      ensures client.Shaped() && client.skipPrep == old(client.skipPrep)
      ensures old(client.finishedQueryNum == client.maxQueryNum) ==> client.prf == newPrf
      ensures old(client.finishedQueryNum != client.maxQueryNum) ==> client.prf == old(client.prf)
      ensures !client.skipPrep && (old(client.Consistent(server)) || old(client.finishedQueryNum == client.maxQueryNum)) ==>
        client.Consistent(server) && (realQuery && r.error.None? ==> r.value == server.Entry(idx))
    {
      if client.finishedQueryNum == client.maxQueryNum {
        client.Preprocessing(server.rawDB, newPrf, draw);
      }
      r := client.Query(idx, server, realQuery, dummyDraws);
    }
  }

  /**
   * NewPianoPIR's configuration: GenParams' sizes for dbSize entries of
   * entryBytes / 8 words. With the marker bound on the database size and the
   * hint numbers (a bound of this model, not a check NewPianoPIR makes),
   * every padded index and every tag is a uint64.
   */
  method SystemConfig(dbSize: Word, entryBytes: nat, primaryHintNum: nat, maxQueryPerChunk: nat) returns (cfg: Config)
    requires dbSize <= DefaultProgramPoint
    requires primaryHintNum <= DefaultProgramPoint && maxQueryPerChunk <= DefaultProgramPoint
    ensures ValidConfig(cfg) && Addressable(cfg)
    ensures primaryHintNum + cfg.setSize * maxQueryPerChunk <= Word64
    ensures cfg.dbSize == dbSize && cfg.dbEntrySize == entryBytes / 8
    ensures PianoUtil.SizingRule(dbSize, cfg.chunkSize, cfg.setSize)
  {
    var chunkSize, setSize := PianoUtil.GenParams(dbSize);
    cfg := Config(entryBytes / 8, dbSize, chunkSize, setSize);
    Below32(chunkSize, setSize);
    HintRoom(primaryHintNum, setSize, maxQueryPerChunk);
  }

  lemma Below32(a: nat, b: nat)
    requires a < 0x1_0000_0000 && b < 0x1_0000_0000
    ensures a * b < 0x1_0000_0000_0000_0000
  {
    PianoUtil.MulLe(a, 0x1_0000_0000, b);
  }

  /** The primary hints and every chunk's backup hints fit below 2^64. */
  lemma HintRoom(primaryHintNum: nat, setSize: nat, maxQueryPerChunk: nat)
    requires primaryHintNum <= DefaultProgramPoint && maxQueryPerChunk <= DefaultProgramPoint
    requires setSize < 0x1_0000_0000
    ensures primaryHintNum + setSize * maxQueryPerChunk <= Word64
  {
    PianoUtil.MulLe(setSize, 0x1_0000_0000, maxQueryPerChunk);
  }
}

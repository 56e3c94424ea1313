/**
 * The values behind the Piano PIR client (pianopir/pir.go, lines 90-471):
 * what a primary hint, a backup hint and a replacement entry must hold,
 * the effect of one preprocessing step on them, and the algebra that
 * makes a query answer the requested entry.
 *
 * A hint names one database index per chunk: in chunk i the index
 * i * chunkSize + (PRF(tag, i) & (chunkSize - 1)), except that a hint
 * programmed at point p names p in p's chunk. Its parity is the XOR of the
 * entries it names. A query for idx finds a primary hint naming idx, sends
 * its set with idx's chunk swapped for a fresh replacement index, and
 * cancels the replacement and the parity from the answer.
 *
 * The PRF under the client's long key, PRFEvalWithLongKeyAndTag(longKey,
 * tag, x), is the field `prf`; re-keying installs a new one.
 */
module PianoHints {

  import Common
  import Bytes
  import PianoUtil
  import opened PianoPir

  /** PRFEvalWithLongKeyAndTag under one long key. */
  type Prf = (Word, Word) -> Word

  const Word64: nat := 0x1_0000_0000_0000_0000

  // ---------------------------------------------------------------------
  // Offsets and the sets a hint names
  // ---------------------------------------------------------------------

  function Log2(c: nat): (j: nat)
    requires Common.IsPow2(c)
    ensures Bytes.Pow2(j) == c
    decreases c
  {
    if c == 1 then 0 else 1 + Log2(c / 2)
  }

  /** v & (chunkSize - 1) is v modulo the power-of-two chunk size. */
  lemma MaskIsMod(cfg: Config, v: Word)
    requires Geometry(cfg)
    ensures cfg.chunkSize - 1 < Word64
    ensures Bytes.And(v, cfg.chunkSize - 1) == v % cfg.chunkSize
  {
    var j := Log2(cfg.chunkSize);
    Bytes.WidthFacts();
    if j > 64 {
      Bytes.Pow2Mono(65, j);
      assert false;
    }
    Bytes.AndMask(v, j);
  }

  /** A word masked to an offset inside a chunk: v & (chunkSize - 1). */
  function Mask(cfg: Config, v: Word): (off: nat)
    requires Geometry(cfg)
    ensures off == v % cfg.chunkSize && off < cfg.chunkSize
  {
    MaskIsMod(cfg, v);
    Bytes.And(v, cfg.chunkSize - 1)
  }

  /** A masked offset survives the truncation to uint32. */
  lemma OffsetFits(cfg: Config, v: Word)
    requires Geometry(cfg)
    ensures Mask(cfg, v) % 0x1_0000_0000 == v % cfg.chunkSize
  {
  }

  /** The offset a tag selects in a chunk. */
  function HintOffset(cfg: Config, prf: Prf, tag: Word, chunk: nat): (off: nat)
    requires Geometry(cfg) && chunk < cfg.setSize
    ensures off < cfg.chunkSize
  {
    Mask(cfg, prf(tag, chunk))
  }

  /** The index a hint names in chunk i. */
  function Member(cfg: Config, prf: Prf, tag: Word, prog: nat, i: nat): nat
    requires Geometry(cfg) && i < cfg.setSize
  {
    if prog != DefaultProgramPoint && prog / cfg.chunkSize == i then prog
    else i * cfg.chunkSize + HintOffset(cfg, prf, tag, i)
  }

  /** The indices a hint names, one per chunk: the query set before replacement. */
  function Members(cfg: Config, prf: Prf, tag: Word, prog: nat): (m: seq<nat>)
    requires Geometry(cfg)
    ensures |m| == cfg.setSize
  {
    seq(cfg.setSize, i requires 0 <= i < cfg.setSize => Member(cfg, prf, tag, prog, i))
  }

  /** The entry a tag selects in chunk i, or zero when i is the skipped chunk. */
  function PrfEntry(s: Server, prf: Prf, tag: Word, skip: int, i: nat): (r: Entry)
    requires s.Ready() && i < s.config.setSize
    ensures |r| == s.config.dbEntrySize
  {
    if i == skip then Zeros(s.config.dbEntrySize)
    else s.Entry(i * s.config.chunkSize + HintOffset(s.config, prf, tag, i))
  }

  /** The entries a tag selects in each chunk, with the skipped chunk read as zero. */
  function PrfRow(s: Server, prf: Prf, tag: Word, skip: int): (row: seq<Entry>)
    requires s.Ready()
    ensures |row| == s.config.setSize && Sized(row, s.config.dbEntrySize)
  {
    seq(s.config.setSize, i requires 0 <= i < s.config.setSize => PrfEntry(s, prf, tag, skip, i))
  }

  /** A primary hint's parity is the XOR of the entries it names. */
  ghost predicate PrimaryOk(s: Server, prf: Prf, tag: Word, prog: Word, parity: Entry)
    requires s.Ready()
  {
    parity == Answer(s, Members(s.config, prf, tag, prog))
  }

  /** A backup hint of chunk c: the XOR over every other chunk of the entry its tag selects. */
  ghost predicate BackupOk(s: Server, prf: Prf, tag: Word, c: nat, parity: Entry)
    requires s.Ready()
  {
    parity == XorAll(PrfRow(s, prf, tag, c), s.config.dbEntrySize)
  }

  /** A replacement of chunk c: an index in chunk c and the entry stored there. */
  ghost predicate ReplacementOk(s: Server, c: nat, idx: nat, val: Entry)
    requires s.Ready()
  {
    idx / s.config.chunkSize == c && idx < s.config.chunkSize * s.config.setSize && val == s.Entry(idx)
  }

  /** Whether primary hint (tag, prog) can serve index chunk * chunkSize + offset. */
  predicate Hits(cfg: Config, prf: Prf, tag: Word, prog: Word, chunk: nat, offset: nat)
    requires Geometry(cfg) && chunk < cfg.setSize
  {
    HintOffset(cfg, prf, tag, chunk) == offset
    && (prog == DefaultProgramPoint || prog / cfg.chunkSize != chunk)
  }

  /** The first hint at or after from that can serve the index; |tags| when none can. */
  function FirstHit(cfg: Config, prf: Prf, tags: seq<Word>, progs: seq<Word>, chunk: nat, offset: nat, from: nat): (r: nat)
    requires ValidConfig(cfg) && chunk < cfg.setSize
    requires |tags| == |progs| && from <= |tags|
    ensures from <= r <= |tags|
    ensures r < |tags| ==> Hits(cfg, prf, tags[r], progs[r], chunk, offset)
    ensures forall i | from <= i < r :: !Hits(cfg, prf, tags[i], progs[i], chunk, offset)
    decreases |tags| - from
  {
    if from == |tags| then from
    else if Hits(cfg, prf, tags[from], progs[from], chunk, offset) then from
    else FirstHit(cfg, prf, tags, progs, chunk, offset, from + 1)
  }

  /** A hint that can serve idx names idx in idx's chunk. */
  lemma HitNamesIndex(cfg: Config, prf: Prf, tag: Word, prog: Word, idx: nat)
    requires ValidConfig(cfg) && idx / cfg.chunkSize < cfg.setSize
    requires Hits(cfg, prf, tag, prog, idx / cfg.chunkSize, idx % cfg.chunkSize)
    ensures Member(cfg, prf, tag, prog, idx / cfg.chunkSize) == idx
  {
    DivMod(idx, cfg.chunkSize);
  }

  lemma DivMod(x: nat, d: nat)
    requires d > 0
    ensures x == x / d * d + x % d
  {
  }

  // ---------------------------------------------------------------------
  // The algebra of a query and a refresh
  // ---------------------------------------------------------------------

  /**
   * The server's answer to a hint's set with one chunk swapped for a
   * replacement, xored with the replacement entry and the hint's parity,
   * is the entry the hint named in that chunk.
   */
  lemma AnswerCancels(s: Server, members: seq<nat>, c: nat, repl: nat)
    requires s.Ready() && c < |members|
    ensures EntryXor(EntryXor(Answer(s, members[c := repl]), s.Entry(repl)), Answer(s, members))
         == s.Entry(members[c])
  {
    var e := s.config.dbEntrySize;
    var es := Entries(s, members);
    assert Entries(s, members[c := repl]) == es[c := s.Entry(repl)];
    XorAllUpdate(es, e, c, s.Entry(repl));
    var p, x, r := XorAll(es, e), es[c], s.Entry(repl);
    // ((p ^ x ^ r) ^ r) ^ p == (p ^ x) ^ p == x
    EntryXorCancel(EntryXor(p, x), r, p);
    EntryXorLaws(p, x, p);
    EntryXorLaws(x, p, p);
    EntryXorLaws(p, p, p);
    EntryXorLaws(x, x, x);
  }

  /**
   * A backup hint of chunk c programmed at idx (in chunk c), with the entry
   * at idx xored into its parity, is a primary hint.
   */
  lemma RefreshKeeps(s: Server, prf: Prf, tag: Word, c: nat, idx: Word, backup: Entry)
    requires s.Ready() && idx < s.config.dbSize && idx / s.config.chunkSize == c
    requires BackupOk(s, prf, tag, c, backup)
    ensures c < s.config.setSize
    ensures PrimaryOk(s, prf, tag, idx, EntryXor(backup, s.Entry(idx)))
  {
    var cfg, e := s.config, s.config.dbEntrySize;
    ChunkOfIndex(cfg, idx);
    var row := PrfRow(s, prf, tag, c);
    var named := Entries(s, Members(cfg, prf, tag, idx));
    forall i | 0 <= i < cfg.setSize
      ensures named[i] == row[c := s.Entry(idx)][i]
    {
      ProgrammedMember(s, prf, tag, c, idx, i);
    }
    assert named == row[c := s.Entry(idx)];
    XorAllUpdate(row, e, c, s.Entry(idx));
    EntryXorLaws(backup, Zeros(e), Zeros(e));
  }

  lemma ProgrammedMember(s: Server, prf: Prf, tag: Word, c: nat, idx: Word, i: nat)
    requires s.Ready() && idx < s.config.dbSize && idx / s.config.chunkSize == c && i < s.config.setSize
    ensures Entries(s, Members(s.config, prf, tag, idx))[i]
         == (if i == c then s.Entry(idx) else PrfRow(s, prf, tag, c)[i])
  {
    ChunkOfIndex(s.config, idx);
  }

  lemma ChunkOfIndex(cfg: Config, idx: nat)
    requires ValidConfig(cfg) && idx < cfg.dbSize
    ensures idx / cfg.chunkSize < cfg.setSize
    ensures idx != DefaultProgramPoint
  {
    if idx / cfg.chunkSize >= cfg.setSize {
      PianoUtil.MulLe(cfg.setSize, idx / cfg.chunkSize, cfg.chunkSize);
      assert false;
    }
    assert idx < cfg.dbSize <= DefaultProgramPoint;
  }

  /**
   * NewPianoPIR as written accepts a database of 2^31 entries (chunks of
   * 2^17 entries, 2^14 chunks). Index 0x7fffffff is then a real index, and a
   * query for it programs its hint with the marker value itself: the hint
   * reads as unprogrammed, so it still counts as a hit in that index's own
   * chunk and names the PRF's index there instead of the programmed one.
   */
  lemma MarkerCollides()
    ensures var cfg := Config(1, 0x8000_0000, 0x2_0000, 0x4000);
            var prf: Prf := (t, x) => 0;
            var idx: Word := DefaultProgramPoint;
            && Geometry(cfg) && idx < cfg.dbSize && idx / cfg.chunkSize < cfg.setSize
            && Hits(cfg, prf, 0, idx, idx / cfg.chunkSize, 0)
            && Member(cfg, prf, 0, idx, idx / cfg.chunkSize) != idx
  {
    var cfg := Config(1, 0x8000_0000, 0x2_0000, 0x4000);
    var prf: Prf := (t, x) => 0;
    Pow2IsPow2(17);
    Bytes.Pow2Bytes(2);
    assert Bytes.Pow2(17) == 2 * Bytes.Pow256(2) == 0x2_0000;
    MaskIsMod(cfg, 0);
  }

  /** 2^j is a power of two in the sense of the chunk-size rule. */
  lemma {:induction false} Pow2IsPow2(j: nat)
    ensures Common.IsPow2(Bytes.Pow2(j))
  {
    if j > 0 {
      Pow2IsPow2(j - 1);
      PianoUtil.Doubled(Bytes.Pow2(j - 1));
    }
  }

  /**
   * With every index below the marker, a hint programmed at an index names
   * that index in its chunk and never counts as a hit in that chunk again.
   */
  lemma ProgramPointKept(cfg: Config, prf: Prf, tag: Word, idx: Word, c: nat, offset: nat)
    requires ValidConfig(cfg) && idx < cfg.dbSize
    requires c == idx / cfg.chunkSize && c < cfg.setSize  // the chunk of idx (ChunkOfIndex)
    ensures Member(cfg, prf, tag, idx, c) == idx
    ensures !Hits(cfg, prf, tag, idx, c, offset)
  {
    ChunkOfIndex(cfg, idx);
  }

  // ---------------------------------------------------------------------
  // The hint tables as values
  // ---------------------------------------------------------------------

  /** n rows of q cells each. */
  predicate Table<T>(rows: seq<seq<T>>, n: nat, q: nat) {
    |rows| == n && forall c | 0 <= c < n :: |rows[c]| == q
  }

  predicate SizedTable(rows: seq<seq<Entry>>, e: nat) {
    forall c | 0 <= c < |rows| :: Sized(rows[c], e)
  }

  /**
   * The sizes of a client's tables: a count per chunk, p primary hints whose
   * program points name chunks, q backup hints and replacements per chunk,
   * and entries of the configured size in the parities and the cache.
   */
  predicate TablesShaped(cfg: Config, p: nat, q: nat, hist: seq<nat>,
                         tags: seq<Word>, parities: seq<Entry>, progs: seq<Word>,
                         ridx: seq<seq<Word>>, rval: seq<seq<Entry>>, btags: seq<seq<Word>>, bpar: seq<seq<Entry>>,
                         cache: map<Word, Entry>)
    requires ValidConfig(cfg)
  {
    && |hist| == cfg.setSize
    && |tags| == p && |parities| == p && |progs| == p
    && Sized(parities, cfg.dbEntrySize)
    && (forall h | 0 <= h < p :: progs[h] == DefaultProgramPoint || progs[h] / cfg.chunkSize < cfg.setSize)
    && Table(ridx, cfg.setSize, q) && Table(rval, cfg.setSize, q)
    && Table(btags, cfg.setSize, q) && Table(bpar, cfg.setSize, q)
    && SizedTable(rval, cfg.dbEntrySize) && SizedTable(bpar, cfg.dbEntrySize)
    && (forall k | k in cache :: |cache[k]| == cfg.dbEntrySize)
  }

  /** Every primary hint's parity is the XOR of the entries it names. */
  ghost predicate HintsOk(s: Server, prf: Prf, tags: seq<Word>, progs: seq<Word>, parities: seq<Entry>)
    requires s.Ready()
  {
    |tags| == |progs| == |parities|
    && forall h | 0 <= h < |tags| :: PrimaryOk(s, prf, tags[h], progs[h], parities[h])
  }

  /** Every unconsumed backup hint and replacement of every chunk is as prepared. */
  ghost predicate GroupsOk(s: Server, prf: Prf, used: seq<nat>, q: nat,
                           tags: seq<seq<Word>>, parities: seq<seq<Entry>>, idxs: seq<seq<Word>>, vals: seq<seq<Entry>>)
    requires s.Ready()
    requires |used| == |tags| == |parities| == |idxs| == |vals|
    requires Table(tags, |used|, q) && Table(parities, |used|, q) && Table(idxs, |used|, q) && Table(vals, |used|, q)
  {
    forall c, j | 0 <= c < |used| && used[c] <= j < q ::
      BackupOk(s, prf, tags[c][j], c, parities[c][j]) && ReplacementOk(s, c, idxs[c][j], vals[c][j])
  }

  /** Every cached entry is the database entry at its index. */
  ghost predicate CacheOk(s: Server, cache: map<Word, Entry>)
    requires s.Ready()
  {
    forall k | k in cache :: k < s.config.dbSize && cache[k] == s.Entry(k)
  }

  /** The tag Initialization hands to backup hint j of chunk c, after the p primary tags. */
  function BackupTag(p: nat, q: nat, c: nat, j: nat): nat {
    p + c * q + j
  }

  /** Initialization hands out distinct tags: every backup tag differs from every other tag. */
  lemma InitialTagsDistinct(p: nat, q: nat, c1: nat, j1: nat, c2: nat, j2: nat)
    requires j1 < q && j2 < q && (c1 != c2 || j1 != j2)
    ensures BackupTag(p, q, c1, j1) != BackupTag(p, q, c2, j2)
    ensures BackupTag(p, q, c1, j1) >= p
  {
    if BackupTag(p, q, c1, j1) == BackupTag(p, q, c2, j2) {
      Common.DivModUnique(c1 * q + j1, q, c1, j1);
      Common.DivModUnique(c1 * q + j1, q, c2, j2);
    }
  }

  lemma TagBelow(c: nat, j: nat, n: nat, q: nat)
    requires c < n && j < q
    ensures c * q + j < n * q
  {
    PianoUtil.MulLe(c + 1, n, q);
  }

  // ---------------------------------------------------------------------
  // Preprocessing as values
  // ---------------------------------------------------------------------

  /** Chunk i of the raw database, zero-padded to chunkSize entries. */
  function ChunkOf(cfg: Config, db: seq<Word>, i: nat): (chunk: seq<Word>)
    ensures |chunk| == cfg.chunkSize * cfg.dbEntrySize
  {
    var start := i * cfg.chunkSize * cfg.dbEntrySize;
    seq(cfg.chunkSize * cfg.dbEntrySize, j requires 0 <= j => if start + j < |db| then db[start + j] else 0)
  }

  /** The entry at offset off of a chunk. */
  function ChunkSlot(cfg: Config, chunk: seq<Word>, off: nat): (r: Entry)
    requires off < cfg.chunkSize && |chunk| >= cfg.chunkSize * cfg.dbEntrySize
    ensures |r| == cfg.dbEntrySize
  {
    EntryInDb(off, cfg.chunkSize, cfg.dbEntrySize);
    chunk[off * cfg.dbEntrySize..(off + 1) * cfg.dbEntrySize]
  }

  /** The entry at offset off of chunk i is database entry i * chunkSize + off. */
  lemma ChunkSlotEntry(s: Server, i: nat, off: nat)
    requires s.Ready() && off < s.config.chunkSize
    ensures ChunkSlot(s.config, ChunkOf(s.config, s.rawDB, i), off) == s.Entry(i * s.config.chunkSize + off)
  {
    forall t | 0 <= t < s.config.dbEntrySize
      ensures ChunkSlot(s.config, ChunkOf(s.config, s.rawDB, i), off)[t] == s.Entry(i * s.config.chunkSize + off)[t]
    {
      SlotWord(s, i, off, t);
    }
  }

  lemma SlotWord(s: Server, i: nat, off: nat, t: nat)
    requires s.Ready() && off < s.config.chunkSize && t < s.config.dbEntrySize
    ensures ChunkSlot(s.config, ChunkOf(s.config, s.rawDB, i), off)[t] == s.Entry(i * s.config.chunkSize + off)[t]
  {
    var cfg, e, n := s.config, s.config.dbEntrySize, s.config.dbSize;
    var k := i * cfg.chunkSize + off;
    var start := i * cfg.chunkSize * e;
    EntryInDb(off, cfg.chunkSize, e);
    Distribute(i * cfg.chunkSize, off, e);
    assert ChunkSlot(cfg, ChunkOf(cfg, s.rawDB, i), off)[t] == ChunkOf(cfg, s.rawDB, i)[off * e + t];
    if k < n {
      EntryInDb(k, n, e);
      assert s.Entry(k)[t] == s.rawDB[k * e + t];
    } else {
      PianoUtil.MulLe(n, k, e);
    }
  }

  lemma Distribute(a: nat, b: nat, e: nat)
    ensures (a + b) * e == a * e + b * e
  {
  }

  /** Every parity xored with the chunk entry its tag selects in chunk chunkId. */
  function XorChunk(cfg: Config, prf: Prf, parities: seq<Entry>, tags: seq<Word>, chunkId: nat, chunk: seq<Word>): (r: seq<Entry>)
    requires ValidConfig(cfg) && chunkId < cfg.setSize && |chunk| >= cfg.chunkSize * cfg.dbEntrySize
    requires |tags| == |parities| && Sized(parities, cfg.dbEntrySize)
    ensures |r| == |parities| && Sized(r, cfg.dbEntrySize)
  {
    seq(|parities|, h requires 0 <= h < |parities| =>
      EntryXor(parities[h], ChunkSlot(cfg, chunk, HintOffset(cfg, prf, tags[h], chunkId))))
  }

  /** Parities that hold the XOR over chunks below k of the entries their tags select. */
  ghost predicate GroupPartial(s: Server, prf: Prf, tags: seq<Word>, parities: seq<Entry>, skip: int, k: nat)
    requires s.Ready() && k <= s.config.setSize
  {
    |tags| == |parities|
    && forall h | 0 <= h < |tags| :: parities[h] == XorAll(PrfRow(s, prf, tags[h], skip)[..k], s.config.dbEntrySize)
  }

  /** Processing chunk k extends the XOR to chunk k, or skips it for the hints of chunk k. */
  lemma GroupPartialNext(s: Server, prf: Prf, tags: seq<Word>, parities: seq<Entry>, skip: int, k: nat)
    requires s.Ready() && k < s.config.setSize && Sized(parities, s.config.dbEntrySize)
    requires GroupPartial(s, prf, tags, parities, skip, k)
    ensures k != skip ==> GroupPartial(s, prf, tags, XorChunk(s.config, prf, parities, tags, k, ChunkOf(s.config, s.rawDB, k)), skip, k + 1)
    ensures k == skip ==> GroupPartial(s, prf, tags, parities, skip, k + 1)
  {
    forall h | 0 <= h < |tags|
      ensures k != skip ==> XorChunk(s.config, prf, parities, tags, k, ChunkOf(s.config, s.rawDB, k))[h]
                            == XorAll(PrfRow(s, prf, tags[h], skip)[..k + 1], s.config.dbEntrySize)
      ensures k == skip ==> parities[h] == XorAll(PrfRow(s, prf, tags[h], skip)[..k + 1], s.config.dbEntrySize)
    {
      HintNext(s, prf, tags[h], parities[h], skip, k);
    }
  }

  lemma HintNext(s: Server, prf: Prf, tag: Word, parity: Entry, skip: int, k: nat)
    requires s.Ready() && k < s.config.setSize
    requires parity == XorAll(PrfRow(s, prf, tag, skip)[..k], s.config.dbEntrySize)
    ensures k != skip ==> EntryXor(parity, ChunkSlot(s.config, ChunkOf(s.config, s.rawDB, k), HintOffset(s.config, prf, tag, k)))
                          == XorAll(PrfRow(s, prf, tag, skip)[..k + 1], s.config.dbEntrySize)
    ensures k == skip ==> parity == XorAll(PrfRow(s, prf, tag, skip)[..k + 1], s.config.dbEntrySize)
  {
    var row := PrfRow(s, prf, tag, skip);
    XorAllNext(row, s.config.dbEntrySize, k);
    assert row[k] == PrfEntry(s, prf, tag, skip, k);
    if k == skip {
      EntryXorLaws(parity, parity, parity);
    } else {
      var off := HintOffset(s.config, prf, tag, k);
      var j := k * s.config.chunkSize + off;
      assert PrfEntry(s, prf, tag, skip, k) == s.Entry(j);
      ChunkSlotEntry(s, k, off);
    }
  }

  /** An unprogrammed hint names the entries its tag selects. */
  lemma UnprogrammedRow(s: Server, prf: Prf, tag: Word)
    requires s.Ready()
    ensures Entries(s, Members(s.config, prf, tag, DefaultProgramPoint)) == PrfRow(s, prf, tag, -1)
  {
  }

  /** After every chunk, the partial XORs are the hints' parities. */
  lemma GroupPartialDone(s: Server, prf: Prf, tags: seq<Word>, parities: seq<Entry>, skip: int)
    requires s.Ready() && GroupPartial(s, prf, tags, parities, skip, s.config.setSize)
    ensures skip == -1 ==> HintsOk(s, prf, tags, seq(|tags|, _ => DefaultProgramPoint), parities)
    ensures forall h | 0 <= h < |tags| :: parities[h] == XorAll(PrfRow(s, prf, tags[h], skip), s.config.dbEntrySize)
  {
    forall h | 0 <= h < |tags|
      ensures parities[h] == XorAll(PrfRow(s, prf, tags[h], skip), s.config.dbEntrySize)
    {
      var row := PrfRow(s, prf, tags[h], skip);
      assert row[..s.config.setSize] == row;
    }
    if skip == -1 {
      forall h | 0 <= h < |tags|
        ensures PrimaryOk(s, prf, tags[h], DefaultProgramPoint, parities[h])
      {
        UnprogrammedRow(s, prf, tags[h]);
      }
    }
  }

  // ---------------------------------------------------------------------
  // One preprocessing step on the whole client, as values
  // ---------------------------------------------------------------------

  /** Every backup row except chunk chunkId's, xored with the chunk entries its tags select. */
  function BackupsWithChunk(cfg: Config, prf: Prf, parities: seq<seq<Entry>>, tags: seq<seq<Word>>, chunkId: nat, chunk: seq<Word>): (r: seq<seq<Entry>>)
    requires ValidConfig(cfg) && chunkId < cfg.setSize && |chunk| >= cfg.chunkSize * cfg.dbEntrySize
    requires |tags| == |parities| && SizedTable(parities, cfg.dbEntrySize)
    requires forall c | 0 <= c < |tags| :: |tags[c]| == |parities[c]|
    ensures |r| == |parities| && SizedTable(r, cfg.dbEntrySize)
    ensures forall c | 0 <= c < |r| :: |r[c]| == |parities[c]|
  {
    seq(|parities|, c requires 0 <= c < |parities| =>
      if c == chunkId then parities[c] else XorChunk(cfg, prf, parities[c], tags[c], chunkId, chunk))
  }

  /** Every index of every chunk, padding included, is a uint64. */
  predicate Addressable(cfg: Config) {
    cfg.chunkSize * cfg.setSize <= Word64
  }

  /** Offset off of chunk i is a uint64 index when every padded index is. */
  lemma IndexIsWord(cfg: Config, i: nat, off: nat)
    requires Addressable(cfg) && i < cfg.setSize && off < cfg.chunkSize
    ensures i * cfg.chunkSize + off < Word64
  {
    TagBelow(i, off, cfg.setSize, cfg.chunkSize);
  }

  /** A random draw turned into a replacement index of chunk chunkId: (v & (chunkSize - 1)) + chunkId * chunkSize. */
  function ReplacementIndex(cfg: Config, chunkId: nat, v: Word): (idx: Word)
    requires ValidConfig(cfg) && Addressable(cfg) && chunkId < cfg.setSize
    ensures idx / cfg.chunkSize == chunkId && idx % cfg.chunkSize == v % cfg.chunkSize
    ensures idx < cfg.chunkSize * cfg.setSize
  {
    var off := Mask(cfg, v);
    TagBelow(chunkId, off, cfg.setSize, cfg.chunkSize);
    Common.DivModUnique(chunkId * cfg.chunkSize + off, cfg.chunkSize, chunkId, off);
    off + chunkId * cfg.chunkSize
  }

  /** The replacement indices drawn for chunk chunkId. */
  function ReplacementRow(cfg: Config, chunkId: nat, draws: seq<Word>, q: nat): (r: seq<Word>)
    requires ValidConfig(cfg) && Addressable(cfg) && chunkId < cfg.setSize && |draws| >= q
    ensures |r| == q
  {
    seq(q, j requires 0 <= j < q => ReplacementIndex(cfg, chunkId, draws[j]))
  }

  /** The chunk entries at the drawn offsets. */
  function ReplacementVals(cfg: Config, chunk: seq<Word>, draws: seq<Word>, q: nat): (r: seq<Entry>)
    requires ValidConfig(cfg) && |chunk| >= cfg.chunkSize * cfg.dbEntrySize && |draws| >= q
    ensures |r| == q && Sized(r, cfg.dbEntrySize)
  {
    seq(q, j requires 0 <= j < q => ChunkSlot(cfg, chunk, Mask(cfg, draws[j])))
  }

  /**
   * The client after the chunks below k: primary parities (skipping no
   * chunk) and the backup parities of every chunk c (skipping chunk c)
   * hold their XOR over those chunks, and the replacements of those chunks
   * are drawn.
   */
  ghost predicate PrepPartial(s: Server, prf: Prf, q: nat, ptags: seq<Word>, ppar: seq<Entry>,
                              btags: seq<seq<Word>>, bpar: seq<seq<Entry>>, ridx: seq<seq<Word>>, rval: seq<seq<Entry>>, k: nat)
    requires s.Ready() && k <= s.config.setSize
  {
    && GroupPartial(s, prf, ptags, ppar, -1, k)
    && Table(btags, s.config.setSize, q) && Table(bpar, s.config.setSize, q)
    && Table(ridx, s.config.setSize, q) && Table(rval, s.config.setSize, q)
    && (forall c | 0 <= c < s.config.setSize :: GroupPartial(s, prf, btags[c], bpar[c], c, k))
    && (forall c, j | 0 <= c < k && 0 <= j < q :: ReplacementOk(s, c, ridx[c][j], rval[c][j]))
  }

  /** Freshly zeroed parities hold the XOR over no chunk. */
  lemma PrepStart(s: Server, prf: Prf, q: nat, ptags: seq<Word>, btags: seq<seq<Word>>, ridx: seq<seq<Word>>, rval: seq<seq<Entry>>)
    requires s.Ready() && Table(btags, s.config.setSize, q) && Table(ridx, s.config.setSize, q) && Table(rval, s.config.setSize, q)
    ensures PrepPartial(s, prf, q, ptags, seq(|ptags|, _ => Zeros(s.config.dbEntrySize)), btags,
                        seq(s.config.setSize, _ => seq(q, _ => Zeros(s.config.dbEntrySize))), ridx, rval, 0)
  {
    var e := s.config.dbEntrySize;
    forall h | 0 <= h < |ptags|
      ensures Zeros(e) == XorAll(PrfRow(s, prf, ptags[h], -1)[..0], e)
    {
    }
    forall c | 0 <= c < s.config.setSize
      ensures GroupPartial(s, prf, btags[c], seq(q, _ => Zeros(e)), c, 0)
    {
      forall j | 0 <= j < q
        ensures Zeros(e) == XorAll(PrfRow(s, prf, btags[c][j], c)[..0], e)
      {
      }
    }
  }

  /** UpdatePreprocessing on chunk k extends the invariant from the chunks below k to those up to k. */
  lemma PrepNext(s: Server, prf: Prf, q: nat, ptags: seq<Word>, ppar: seq<Entry>,
                 btags: seq<seq<Word>>, bpar: seq<seq<Entry>>, ridx: seq<seq<Word>>, rval: seq<seq<Entry>>,
                 k: nat, draws: seq<Word>)
    requires s.Ready() && Addressable(s.config) && k < s.config.setSize && |draws| >= q
    requires Sized(ppar, s.config.dbEntrySize) && SizedTable(bpar, s.config.dbEntrySize)
    requires PrepPartial(s, prf, q, ptags, ppar, btags, bpar, ridx, rval, k)
    ensures PrepPartial(s, prf, q, ptags,
                        XorChunk(s.config, prf, ppar, ptags, k, ChunkOf(s.config, s.rawDB, k)), btags,
                        BackupsWithChunk(s.config, prf, bpar, btags, k, ChunkOf(s.config, s.rawDB, k)),
                        ridx[k := ReplacementRow(s.config, k, draws, q)],
                        rval[k := ReplacementVals(s.config, ChunkOf(s.config, s.rawDB, k), draws, q)], k + 1)
  {
    var cfg := s.config;
    var chunk := ChunkOf(cfg, s.rawDB, k);
    GroupPartialNext(s, prf, ptags, ppar, -1, k);
    var bpar' := BackupsWithChunk(cfg, prf, bpar, btags, k, chunk);
    forall c | 0 <= c < cfg.setSize
      ensures GroupPartial(s, prf, btags[c], bpar'[c], c, k + 1)
    {
      GroupPartialNext(s, prf, btags[c], bpar[c], c, k);
    }
    var ridx', rval' := ridx[k := ReplacementRow(cfg, k, draws, q)], rval[k := ReplacementVals(cfg, chunk, draws, q)];
    forall c, j | 0 <= c < k + 1 && 0 <= j < q
      ensures ReplacementOk(s, c, ridx'[c][j], rval'[c][j])
    {
      if c == k {
        ReplacementDrawn(s, k, draws[j]);
      }
    }
  }

  /** A drawn replacement of chunk k names an index of chunk k and holds its entry. */
  lemma ReplacementDrawn(s: Server, k: nat, v: Word)
    requires s.Ready() && Addressable(s.config) && k < s.config.setSize
    ensures ReplacementOk(s, k, ReplacementIndex(s.config, k, v),
                          ChunkSlot(s.config, ChunkOf(s.config, s.rawDB, k), Mask(s.config, v)))
  {
    var off := Mask(s.config, v);
    ChunkSlotEntry(s, k, off);
    assert ReplacementIndex(s.config, k, v) == k * s.config.chunkSize + off;
  }

  /** After the last chunk the invariant is the client's: correct hints, nothing consumed. */
  lemma PrepDone(s: Server, prf: Prf, q: nat, ptags: seq<Word>, ppar: seq<Entry>,
                 btags: seq<seq<Word>>, bpar: seq<seq<Entry>>, ridx: seq<seq<Word>>, rval: seq<seq<Entry>>)
    requires s.Ready() && PrepPartial(s, prf, q, ptags, ppar, btags, bpar, ridx, rval, s.config.setSize)
    ensures HintsOk(s, prf, ptags, seq(|ptags|, _ => DefaultProgramPoint), ppar)
    ensures GroupsOk(s, prf, seq(s.config.setSize, _ => 0), q, btags, bpar, ridx, rval)
  {
    GroupPartialDone(s, prf, ptags, ppar, -1);
    forall c | 0 <= c < s.config.setSize
      ensures forall j | 0 <= j < q :: BackupOk(s, prf, btags[c][j], c, bpar[c][j])
    {
      GroupPartialDone(s, prf, btags[c], bpar[c], c);
    }
  }

  // ---------------------------------------------------------------------
  // A query, as values
  // ---------------------------------------------------------------------

  /** A hint's set with chunk c swapped for an index of chunk c has its i-th index in chunk i. */
  lemma MembersInChunks(cfg: Config, prf: Prf, tag: Word, prog: Word, c: nat, repl: nat, members: seq<nat>)
    requires ValidConfig(cfg) && c < cfg.setSize && repl / cfg.chunkSize == c
    requires members == Members(cfg, prf, tag, prog)[c := repl]
    ensures forall i | 0 <= i < cfg.setSize :: members[i] / cfg.chunkSize == i
  {
    forall i | 0 <= i < cfg.setSize
      ensures members[i] / cfg.chunkSize == i
    {
      if i != c && !(prog != DefaultProgramPoint && prog / cfg.chunkSize == i) {
        var off := HintOffset(cfg, prf, tag, i);
        Common.DivModUnique(i * cfg.chunkSize + off, cfg.chunkSize, i, off);
      }
    }
  }

  /**
   * A hint's set: the index its tag selects in every chunk, with the program
   * point, when there is one, in place of the index of its own chunk.
   */
  lemma ProgrammedMembers(cfg: Config, prf: Prf, tag: Word, prog: Word, c: nat, base: seq<nat>)
    requires ValidConfig(cfg) && |base| == cfg.setSize
    requires prog != DefaultProgramPoint ==> c == prog / cfg.chunkSize && c < cfg.setSize
    requires forall k | 0 <= k < cfg.setSize :: base[k] == k * cfg.chunkSize + HintOffset(cfg, prf, tag, k)
    ensures prog != DefaultProgramPoint ==> base[c := prog] == Members(cfg, prf, tag, prog)
    ensures prog == DefaultProgramPoint ==> base == Members(cfg, prf, tag, prog)
  {
    var m := Members(cfg, prf, tag, prog);
    var q := if prog != DefaultProgramPoint then base[c := prog] else base;
    forall k | 0 <= k < cfg.setSize
      ensures q[k] == m[k]
    {
      assert m[k] == Member(cfg, prf, tag, prog, k);
    }
    assert q == m;
  }

  /** Replacing hint h by a correct primary hint keeps the table correct. */
  lemma HintsOkAfterRefresh(s: Server, prf: Prf, tags: seq<Word>, progs: seq<Word>, parities: seq<Entry>,
                            h: nat, tag: Word, prog: Word, parity: Entry)
    requires s.Ready() && HintsOk(s, prf, tags, progs, parities) && h < |tags|
    requires PrimaryOk(s, prf, tag, prog, parity)
    ensures HintsOk(s, prf, tags[h := tag], progs[h := prog], parities[h := parity])
  {
  }

  /**
   * Consuming the next backup hint and replacement of chunk c: they were
   * correct, and the rest stay correct.
   */
  lemma GroupsOkAfterUse(s: Server, prf: Prf, used: seq<nat>, q: nat, tags: seq<seq<Word>>, parities: seq<seq<Entry>>,
                         idxs: seq<seq<Word>>, vals: seq<seq<Entry>>, c: nat)
    requires s.Ready() && |used| == |tags| == |parities| == |idxs| == |vals|
    requires Table(tags, |used|, q) && Table(parities, |used|, q) && Table(idxs, |used|, q) && Table(vals, |used|, q)
    requires GroupsOk(s, prf, used, q, tags, parities, idxs, vals)
    requires c < |used| && used[c] < q
    ensures BackupOk(s, prf, tags[c][used[c]], c, parities[c][used[c]])
    ensures ReplacementOk(s, c, idxs[c][used[c]], vals[c][used[c]])
    ensures GroupsOk(s, prf, used[c := used[c] + 1], q, tags, parities, idxs, vals)
  {
  }

  /**
   * Refreshing primary hint h from a backup hint of idx's chunk (its tag,
   * its parity xored with entry idx, idx as the program point) keeps the
   * primary table correct.
   */
  lemma RefreshedHintsOk(s: Server, prf: Prf, tags: seq<Word>, progs: seq<Word>, parities: seq<Entry>,
                         h: nat, btag: Word, bparity: Entry, idx: Word, c: nat)
    requires s.Ready() && idx < s.config.dbSize && c == idx / s.config.chunkSize
    requires h < |tags| && |bparity| == s.config.dbEntrySize
    requires HintsOk(s, prf, tags, progs, parities) && BackupOk(s, prf, btag, c, bparity)
    ensures HintsOk(s, prf, tags[h := btag], progs[h := idx], parities[h := EntryXor(bparity, s.Entry(idx))])
  {
    RefreshKeeps(s, prf, btag, c, idx, bparity);
    HintsOkAfterRefresh(s, prf, tags, progs, parities, h, btag, idx, EntryXor(bparity, s.Entry(idx)));
  }

  /**
   * The answer through a hint that can serve idx: the server's XOR over the
   * hint's set with idx's chunk swapped for a replacement, xored with the
   * replacement's entry and the hint's parity, is entry idx.
   */
  lemma HintAnswerOk(s: Server, prf: Prf, tag: Word, prog: Word, parity: Entry, idx: Word, c: nat,
                     replIdx: Word, replVal: Entry, querySet: seq<Word>, offsets: seq<Bits32>)
    requires s.Ready() && c == idx / s.config.chunkSize && c < s.config.setSize
    requires Hits(s.config, prf, tag, prog, c, idx % s.config.chunkSize)
    requires PrimaryOk(s, prf, tag, prog, parity) && ReplacementOk(s, c, replIdx, replVal)
    requires querySet == Members(s.config, prf, tag, prog)[c := replIdx]
    requires |offsets| == s.config.setSize
    requires forall i | 0 <= i < s.config.setSize :: offsets[i] == querySet[i] % s.config.chunkSize
    ensures |replVal| == |parity| == s.config.dbEntrySize
    ensures EntryXor(EntryXor(Answer(s, QueryMembers(s.config, offsets)), replVal), parity) == s.Entry(idx)
  {
    var cfg := s.config;
    var members := Members(cfg, prf, tag, prog);
    MembersInChunks(cfg, prf, tag, prog, c, replIdx, querySet);
    OffsetsRecoverMembers(cfg, querySet, offsets);
    HitNamesIndex(cfg, prf, tag, prog, idx);
    AnswerCancels(s, members, c, replIdx);
  }

  /**
   * A client state agrees with server s: the tables have their shapes, every
   * primary hint and every unconsumed backup hint and replacement is
   * correct, and every cached entry is the database's.
   */
  ghost predicate ClientOk(s: Server, cfg: Config, p: nat, q: nat, prf: Prf, hist: seq<nat>,
                           tags: seq<Word>, parities: seq<Entry>, progs: seq<Word>,
                           ridx: seq<seq<Word>>, rval: seq<seq<Entry>>, btags: seq<seq<Word>>, bpar: seq<seq<Entry>>,
                           cache: map<Word, Entry>)
  {
    && s.Ready() && s.config == cfg
    && TablesShaped(cfg, p, q, hist, tags, parities, progs, ridx, rval, btags, bpar, cache)
    && HintsOk(s, prf, tags, progs, parities)
    && GroupsOk(s, prf, hist, q, btags, bpar, ridx, rval)
    && CacheOk(s, cache)
  }

  /**
   * The refresh after primary hint h answered a query for idx in chunk c
   * with response: h takes the chunk's next backup hint (the one the count
   * hist0[c] points at), its parity xored with the response, and idx as its
   * program point; the chunk's count and the query counter advance, and the
   * response is cached under idx. Unprimed tables are the state after.
   */
  predicate Refreshed(c: nat, h: nat, idx: Word, response: Entry, btags: seq<seq<Word>>, bpar: seq<seq<Entry>>,
                      hist0: seq<nat>, tags0: seq<Word>, par0: seq<Entry>, progs0: seq<Word>, n0: nat, cache0: map<Word, Entry>,
                      hist: seq<nat>, tags: seq<Word>, par: seq<Entry>, progs: seq<Word>, n: nat, cache: map<Word, Entry>)
  {
    && c < |hist0| && c < |btags| && c < |bpar| && hist0[c] < |btags[c]| && hist0[c] < |bpar[c]|
    && h < |tags0| && h < |par0| && h < |progs0| && |bpar[c][hist0[c]]| == |response|
    && hist == hist0[c := hist0[c] + 1]
    && tags == tags0[h := btags[c][hist0[c]]]
    && par == par0[h := EntryXor(bpar[c][hist0[c]], response)]
    && progs == progs0[h := idx]
    && n == n0 + 1
    && cache == cache0[idx := response]
  }

  /**
   * A query for idx served through primary hint h keeps the client in
   * agreement with the server, when the answer was entry idx and the hint
   * is then refreshed.
   */
  lemma ServedQueryOk(s: Server, cfg: Config, p: nat, q: nat, prf: Prf,
                      ridx: seq<seq<Word>>, rval: seq<seq<Entry>>, btags: seq<seq<Word>>, bpar: seq<seq<Entry>>,
                      idx: Word, c: nat, h: nat,
                      hist0: seq<nat>, tags0: seq<Word>, par0: seq<Entry>, progs0: seq<Word>, n0: nat, cache0: map<Word, Entry>,
                      hist: seq<nat>, tags: seq<Word>, par: seq<Entry>, progs: seq<Word>, n: nat, cache: map<Word, Entry>)
    requires ClientOk(s, cfg, p, q, prf, hist0, tags0, par0, progs0, ridx, rval, btags, bpar, cache0)
    requires Refreshed(c, h, idx, s.Entry(idx), btags, bpar, hist0, tags0, par0, progs0, n0, cache0,
                       hist, tags, par, progs, n, cache)
    requires idx < cfg.dbSize && c == idx / cfg.chunkSize && hist0[c] < q
    ensures ClientOk(s, cfg, p, q, prf, hist, tags, par, progs, ridx, rval, btags, bpar, cache)
  {
    var u := hist0[c];
    GroupsOkAfterUse(s, prf, hist0, q, btags, bpar, ridx, rval, c);
    RefreshedHintsOk(s, prf, tags0, progs0, par0, h, btags[c][u], bpar[c][u], idx, c);
  }

  // ---------------------------------------------------------------------
  // The tables Initialization builds
  // ---------------------------------------------------------------------

  /** n copies of x. */
  function Filled<T>(n: nat, x: T): (r: seq<T>)
    ensures |r| == n && forall i | 0 <= i < n :: r[i] == x
  {
    seq(n, _ => x)
  }

  /** The tags 0 .. p - 1. */
  function FirstTags(p: nat): (r: seq<nat>)
    ensures |r| == p && forall h | 0 <= h < p :: r[h] == h
  {
    seq(p, h requires 0 <= h => h)
  }

  /** The tags Initialization hands to the backup hints: BackupTag(p, q, c, j) for hint j of chunk c. */
  function BackupTags(p: nat, q: nat, n: nat): (tags: seq<seq<nat>>)
    ensures |tags| == n
  {
    seq(n, c requires 0 <= c < n => seq(q, j requires 0 <= j < q => BackupTag(p, q, c, j)))
  }

  /**
   * The primary tables Initialization builds for n chunks and p primary
   * hints over entries of e words: zero query counts, tags 0 .. p - 1, zero
   * parities, nothing programmed.
   */
  predicate InitialPrimaryTables(n: nat, p: nat, e: nat,
                                 hist: seq<nat>, tags: seq<Word>, parities: seq<Entry>, progs: seq<Word>)
  {
    && hist == Filled(n, 0)
    && tags == FirstTags(p) && parities == Filled(p, Zeros(e)) && progs == Filled(p, DefaultProgramPoint)
  }

  /**
   * The backup tables Initialization builds for n chunks of q backup hints:
   * tags continuing from p, zero parities, no replacement drawn.
   */
  predicate InitialBackupTables(n: nat, q: nat, p: nat, e: nat,
                                rIdx: seq<seq<Word>>, rVal: seq<seq<Entry>>, bTag: seq<seq<Word>>, bPar: seq<seq<Entry>>)
  {
    && rIdx == Filled(n, Filled(q, DefaultProgramPoint)) && rVal == Filled(n, Filled(q, Zeros(e)))
    && bTag == BackupTags(p, q, n) && bPar == Filled(n, Filled(q, Zeros(e)))
  }
}

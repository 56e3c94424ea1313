/**
 * The simple batch PIR (pianopir/batch-pir.go). The database is cut into
 * partitionNum = batchSize / 2 ranges of partitionSize = ceil(dbSize /
 * partitionNum) entries, each served by a Piano PIR of its own. A batch of
 * indices is routed first come first served: every partition makes exactly
 * len / partitionNum sub-queries, its first arrivals and then dummies, and
 * the answers come back in the batch's order, zeros for the indices that
 * were not served.
 *
 * A partition's Piano PIR is represented by the database slice it is built
 * on; what partition i's PIR answers to its j-th sub-query of a batch is a
 * parameter of the query.
 */
module PianoBatch {

  import Common
  import Bytes
  import PianoUtil
  import PianoPir

  type Word = Bytes.Word
  type Entry = PianoPir.Entry

  const RealQueryPerPartition: nat := 2
  const QueryPerPartition: nat := 2
  /** The index of a dummy sub-query; a real index equal to it is taken for a dummy. */
  const DefaultValue: nat := 0xdeadbeef

  /** SimpleBatchPianoPIRConfig without the thread count and failure bound, which no step here reads. */
  datatype BatchConfig = BatchConfig(dbEntrySize: nat, dbSize: nat, batchSize: nat, partitionNum: nat, partitionSize: nat)

  /**
   * Half as many partitions as queries per batch, at least one, and
   * partitionSize the least size with which the partitions cover the
   * database (zero only for an empty database).
   */
  predicate ValidBatch(cfg: BatchConfig) {
    && cfg.batchSize >= RealQueryPerPartition && cfg.partitionNum == cfg.batchSize / RealQueryPerPartition
    && cfg.partitionNum > 0
    && (cfg.dbSize > 0 ==> cfg.partitionSize > 0)
    && cfg.partitionSize * cfg.partitionNum >= cfg.dbSize
    && (cfg.partitionSize == 0 || (cfg.partitionSize - 1) * cfg.partitionNum < cfg.dbSize)
  }

  /**
   * NewSimpleBatchPianoPIR's configuration: batchSize / 2 partitions of
   * (dbSize + partitionNum - 1) / partitionNum entries. Fewer than two
   * queries per batch would leave no partition (and Go divides by zero).
   */
  function MakeConfig(dbSize: nat, entryBytes: nat, batchSize: nat): (cfg: BatchConfig)
    requires batchSize >= RealQueryPerPartition
    ensures ValidBatch(cfg)
    ensures cfg.dbSize == dbSize && cfg.dbEntrySize == entryBytes / 8 && cfg.batchSize == batchSize
  {
    var pn := batchSize / RealQueryPerPartition;
    var ps := (dbSize + pn - 1) / pn;
    CeilCovers(dbSize, pn, ps);
    BatchConfig(entryBytes / 8, dbSize, batchSize, pn, ps)
  }

  /** (d + n - 1) / n is the least s with s * n >= d. */
  lemma CeilCovers(d: nat, n: nat, s: nat)
    requires n > 0 && s == (d + n - 1) / n
    ensures s * n >= d && (s == 0 || (s - 1) * n < d)
  {
    var r := (d + n - 1) % n;
    assert d + n - 1 == s * n + r;
    if s > 0 {
      assert (s - 1) * n == s * n - n;
    }
  }

  // ---------------------------------------------------------------------
  // Partition ranges
  // ---------------------------------------------------------------------

  /** The entries of partition i: [start, end), both clipped to the database. */
  function Range(cfg: BatchConfig, i: nat): (r: (nat, nat))
    ensures r.0 <= r.1 <= cfg.dbSize
  {
    (Common.Min(i * cfg.partitionSize, cfg.dbSize), Common.Min((i + 1) * cfg.partitionSize, cfg.dbSize))
  }

  /** The ranges tile the database: the first starts at 0, each ends where the next starts, the last ends at dbSize. */
  lemma RangesTile(cfg: BatchConfig)
    requires ValidBatch(cfg)
    ensures Range(cfg, 0).0 == 0 && Range(cfg, cfg.partitionNum - 1).1 == cfg.dbSize
    ensures forall i: nat :: Range(cfg, i).1 == Range(cfg, i + 1).0
  {
    assert (cfg.partitionNum - 1 + 1) * cfg.partitionSize == cfg.partitionSize * cfg.partitionNum;
  }

  /**
   * Index x lies in the range of partition x / partitionSize, which starts
   * at that multiple of partitionSize.
   */
  lemma PartitionOf(cfg: BatchConfig, x: nat)
    requires ValidBatch(cfg) && x < cfg.dbSize
    ensures cfg.partitionSize > 0 && x / cfg.partitionSize < cfg.partitionNum
    ensures Range(cfg, x / cfg.partitionSize).0 == x / cfg.partitionSize * cfg.partitionSize <= x
    ensures x < Range(cfg, x / cfg.partitionSize).1
  {
    var ps, pn := cfg.partitionSize, cfg.partitionNum;
    var i := x / ps;
    assert x == i * ps + x % ps;
    if i >= pn {
      PianoUtil.MulLe(pn, i, ps);
      assert false;
    }
    assert (i + 1) * ps == i * ps + ps;
  }

  /**
   * The range NewSimpleBatchPianoPIR computes for partition i: the end is
   * clipped to the database but the start is not.
   */
  function RangeAsWritten(cfg: BatchConfig, i: nat): (r: (nat, nat))
    ensures r.1 == Range(cfg, i).1
  {
    (i * cfg.partitionSize, Common.Min((i + 1) * cfg.partitionSize, cfg.dbSize))
  }

  /**
   * The unclipped range is well formed (start at most end, so that Go's
   * slice rawDB[start*E:end*E] and the size end - start make sense) exactly
   * when the partition starts inside the database or at its end, and then it
   * is the clipped range.
   */
  lemma RangeAsWrittenValid(cfg: BatchConfig, i: nat)
    ensures RangeAsWritten(cfg, i).0 <= RangeAsWritten(cfg, i).1 <==> i * cfg.partitionSize <= cfg.dbSize
    ensures i * cfg.partitionSize <= cfg.dbSize ==> RangeAsWritten(cfg, i) == Range(cfg, i)
  {
    assert (i + 1) * cfg.partitionSize == i * cfg.partitionSize + cfg.partitionSize;
  }

  /**
   * Five entries in batches of eight: four partitions of two entries, and
   * the last one starts at 6 but ends at 5.
   */
  lemma TrailingRangeInverted()
    ensures MakeConfig(5, 8, 8).partitionNum == 4 && MakeConfig(5, 8, 8).partitionSize == 2
    ensures RangeAsWritten(MakeConfig(5, 8, 8), 3) == (6, 5)
    ensures Range(MakeConfig(5, 8, 8), 3) == (5, 5)
  {
  }

  /** The database slice partition i's Piano PIR is built on. */
  function SubDb(cfg: BatchConfig, rawDB: seq<Word>, i: nat): (db: seq<Word>)
    requires |rawDB| == cfg.dbSize * cfg.dbEntrySize
    ensures |db| == (Range(cfg, i).1 - Range(cfg, i).0) * cfg.dbEntrySize
  {
    var (start, end) := Range(cfg, i);
    PianoUtil.MulLe(start, end, cfg.dbEntrySize);
    PianoUtil.MulLe(end, cfg.dbSize, cfg.dbEntrySize);
    assert (end - start) * cfg.dbEntrySize == end * cfg.dbEntrySize - start * cfg.dbEntrySize;
    rawDB[start * cfg.dbEntrySize..end * cfg.dbEntrySize]
  }

  /** Entry j of partition i's slice is entry start + j of the database. */
  lemma SubDbEntry(cfg: BatchConfig, rawDB: seq<Word>, i: nat, j: nat)
    requires |rawDB| == cfg.dbSize * cfg.dbEntrySize && j < Range(cfg, i).1 - Range(cfg, i).0
    ensures PianoPir.DbEntry(SubDb(cfg, rawDB, i), cfg.dbEntrySize, Range(cfg, i).1 - Range(cfg, i).0, j)
         == PianoPir.DbEntry(rawDB, cfg.dbEntrySize, cfg.dbSize, Range(cfg, i).0 + j)
  {
    var (start, end) := Range(cfg, i);
    SliceEntry(rawDB, cfg.dbEntrySize, cfg.dbSize, start, end - start, j);
  }

  /** Entry j of the slice of m entries from entry start on is entry start + j. */
  lemma SliceEntry(db: seq<Word>, e: nat, n: nat, start: nat, m: nat, j: nat)
    requires |db| == n * e && start + m <= n && j < m
    ensures (start + m) * e <= |db|
    ensures PianoPir.DbEntry(db[start * e..(start + m) * e], e, m, j) == PianoPir.DbEntry(db, e, n, start + j)
  {
    var a, b, lo, hi := start * e, (start + m) * e, j * e, (j + 1) * e;
    SliceOffsets(start, m, j, e);
    PianoUtil.MulLe(start + m, n, e);
    PianoPir.EntryInDb(j, m, e);
    PianoPir.EntryInDb(start + j, n, e);
    SliceOfSlice(db, a, b, lo, hi);
    assert PianoPir.DbEntry(db[a..b], e, m, j) == db[a..b][lo..hi];
    assert PianoPir.DbEntry(db, e, n, start + j) == db[a + lo..a + hi];
  }

  lemma SliceOffsets(start: nat, m: nat, j: nat, e: nat)
    ensures (start + j) * e == start * e + j * e
    ensures (start + j + 1) * e == start * e + (j + 1) * e
    ensures (start + m) * e == start * e + m * e
  {
  }

  lemma SliceOfSlice(s: seq<Word>, a: nat, b: nat, lo: nat, hi: nat)
    requires a <= b <= |s| && lo <= hi <= b - a
    ensures s[a..b][lo..hi] == s[a + lo..a + hi]
  {
    assert forall k | 0 <= k < hi - lo :: s[a..b][lo..hi][k] == s[a + lo + k];
  }

  /** NewSimpleBatchPianoPIR's loop: the slice of every partition, with the ranges clipped. */
  method PartitionDbs(cfg: BatchConfig, rawDB: seq<Word>) returns (dbs: seq<seq<Word>>)
    requires |rawDB| == cfg.dbSize * cfg.dbEntrySize
    ensures |dbs| == cfg.partitionNum
    ensures forall i | 0 <= i < cfg.partitionNum :: dbs[i] == SubDb(cfg, rawDB, i)
  {
    dbs := [];
    for i := 0 to cfg.partitionNum
      invariant |dbs| == i
      invariant forall k | 0 <= k < i :: dbs[k] == SubDb(cfg, rawDB, k)
    {
      dbs := dbs + [SubDb(cfg, rawDB, i)];
    }
  }

  // ---------------------------------------------------------------------
  // Routing a batch
  // ---------------------------------------------------------------------

  /** The indices of the batch routed to partition i (index / partitionSize == i), in arrival order. */
  function Arrivals(cfg: BatchConfig, idx: seq<Word>, i: nat): seq<Word>
    requires cfg.partitionSize > 0 || idx == []
  {
    if idx == [] then []
    else
      var last := idx[|idx| - 1];
      Arrivals(cfg, idx[..|idx| - 1], i) + (if last / cfg.partitionSize == i then [last] else [])
  }

  /** A partition receives exactly the batch's indices that fall in its range. */
  lemma {:induction false} ArrivalsMember(cfg: BatchConfig, idx: seq<Word>, i: nat, x: Word)
    requires cfg.partitionSize > 0
    ensures x in Arrivals(cfg, idx, i) <==> x in idx && x / cfg.partitionSize == i
  {
    if idx != [] {
      var init := idx[..|idx| - 1];
      ArrivalsMember(cfg, init, i, x);
      assert idx == init + [idx[|idx| - 1]];
    }
  }

  /**
   * Arrival order is kept: the k-th index of the batch sits in its
   * partition's list behind exactly the earlier indices of that partition.
   */
  lemma {:induction false} ArrivalPosition(cfg: BatchConfig, idx: seq<Word>, k: nat)
    requires cfg.partitionSize > 0 && k < |idx|
    ensures var i := idx[k] / cfg.partitionSize;
      && |Arrivals(cfg, idx[..k], i)| < |Arrivals(cfg, idx, i)|
      && Arrivals(cfg, idx, i)[|Arrivals(cfg, idx[..k], i)|] == idx[k]
  {
    var i := idx[k] / cfg.partitionSize;
    var n := |idx|;
    assert idx[..n - 1][..k] == idx[..k];
    if k < n - 1 {
      ArrivalPosition(cfg, idx[..n - 1], k);
    } else {
      assert idx[..n - 1] == idx[..k];
    }
  }

  /** Every partition's share: len(idx) / partitionNum sub-queries. */
  function Quota(cfg: BatchConfig, n: nat): nat
    requires cfg.partitionNum > 0
  {
    n / cfg.partitionNum
  }

  /** The whole batches in n queries, which the batch counter advances by. */
  function Batches(cfg: BatchConfig, n: nat): nat
    requires cfg.batchSize > 0
  {
    n / cfg.batchSize
  }

  /** A list padded with DefaultValue up to length q; a longer one unchanged. */
  function Padded(a: seq<Word>, q: nat): (p: seq<Word>)
    ensures |p| == if |a| >= q then |a| else q
    ensures forall j | 0 <= j < |p| :: p[j] == if j < |a| then a[j] else DefaultValue
  {
    if |a| >= q then a else a + seq(q - |a|, _ => DefaultValue as Word)
  }

  /** The sub-queries partition i makes: its first arrivals, then dummies, Quota of them. */
  function Issued(cfg: BatchConfig, idx: seq<Word>, i: nat): (s: seq<Word>)
    requires cfg.partitionNum > 0 && (cfg.partitionSize > 0 || idx == [])
    ensures |s| == Quota(cfg, |idx|)
  {
    Padded(Arrivals(cfg, idx, i), Quota(cfg, |idx|))[..Quota(cfg, |idx|)]
  }

  /** An index is served when it is a real index among the first Quota arrivals of its partition. */
  predicate Served(cfg: BatchConfig, idx: seq<Word>, x: Word)
    requires cfg.partitionSize > 0 && cfg.partitionNum > 0
  {
    var a := Arrivals(cfg, idx, x / cfg.partitionSize);
    x != DefaultValue && x in a[..Common.Min(Quota(cfg, |idx|), |a|)]
  }

  /** A partition's real sub-queries are exactly its served arrivals. */
  lemma IssuedServed(cfg: BatchConfig, idx: seq<Word>, i: nat, x: Word)
    requires cfg.partitionSize > 0 && cfg.partitionNum > 0
    ensures x != DefaultValue && x in Issued(cfg, idx, i) <==> x / cfg.partitionSize == i && Served(cfg, idx, x)
  {
    var a := Arrivals(cfg, idx, i);
    var q := Quota(cfg, |idx|);
    var s := Issued(cfg, idx, i);
    var m := Common.Min(q, |a|);
    if x != DefaultValue && x in s {
      var j :| 0 <= j < |s| && s[j] == x;
      assert j < |a|;
      assert a[..m][j] == x;
      ArrivalsMember(cfg, idx, i, x);
    }
    if x / cfg.partitionSize == i && Served(cfg, idx, x) {
      var j :| 0 <= j < m && a[..m][j] == x;
      assert s[j] == x;
    }
  }

  /**
   * A batch whose distinct real indices all fall in one partition: only the
   * first Quota of them are served. For a full batch of an even size the
   * quota is QueryPerPartition.
   */
  lemma SinglePartitionBatch(cfg: BatchConfig, idx: seq<Word>, i: nat, k: nat)
    requires cfg.partitionSize > 0 && cfg.partitionNum > 0 && k < |idx|
    requires forall m | 0 <= m < |idx| :: idx[m] / cfg.partitionSize == i && idx[m] != DefaultValue
    requires forall m, n | 0 <= m < n < |idx| :: idx[m] != idx[n]
    ensures Served(cfg, idx, idx[k]) <==> k < Quota(cfg, |idx|)
  {
    AllArrive(cfg, idx, i);
    var q := Common.Min(Quota(cfg, |idx|), |idx|);
    if idx[k] in idx[..q] {
      var m :| 0 <= m < q && idx[..q][m] == idx[k];
      assert m == k;
    }
    if k < Quota(cfg, |idx|) {
      assert idx[..q][k] == idx[k];
    }
  }

  /** A full batch of an even size gives every partition QueryPerPartition sub-queries. */
  lemma FullBatchQuota(cfg: BatchConfig, n: nat)
    requires ValidBatch(cfg) && n == cfg.batchSize && n % 2 == 0
    ensures Quota(cfg, n) == QueryPerPartition
  {
    Common.DivModUnique(n, cfg.partitionNum, 2, 0);
  }

  /** When every index of the batch falls in partition i, partition i receives the whole batch. */
  lemma {:induction false} AllArrive(cfg: BatchConfig, idx: seq<Word>, i: nat)
    requires cfg.partitionSize > 0
    requires forall m | 0 <= m < |idx| :: idx[m] / cfg.partitionSize == i
    ensures Arrivals(cfg, idx, i) == idx
  {
    if idx != [] {
      AllArrive(cfg, idx[..|idx| - 1], i);
    }
  }

  // ---------------------------------------------------------------------
  // Answers
  // ---------------------------------------------------------------------

  /**
   * The responses map after sub-queries 0 .. j - 1 of partition i: the
   * answer of every real one under its index, a later answer for the same
   * index replacing an earlier one.
   */
  function Record(m: map<Word, Entry>, issued: seq<Word>, answer: (nat, nat) -> Entry, i: nat, j: nat): map<Word, Entry>
    requires j <= |issued|
  {
    if j == 0 then m
    else
      var r := Record(m, issued, answer, i, j - 1);
      if issued[j - 1] == DefaultValue then r else r[issued[j - 1] := answer(i, j - 1)]
  }

  /** The responses map after partitions 0 .. i - 1 made their sub-queries. */
  function Responses(cfg: BatchConfig, idx: seq<Word>, answer: (nat, nat) -> Entry, i: nat): map<Word, Entry>
    requires cfg.partitionNum > 0 && (cfg.partitionSize > 0 || idx == [])
  {
    if i == 0 then map[]
    else Record(Responses(cfg, idx, answer, i - 1), Issued(cfg, idx, i - 1), answer, i - 1, Quota(cfg, |idx|))
  }

  /** The batch's answers in its order: the recorded response, or a zero entry. */
  function Output(cfg: BatchConfig, responses: map<Word, Entry>, idx: seq<Word>): (ret: seq<Entry>)
    ensures |ret| == |idx|
    ensures forall k | 0 <= k < |idx| && idx[k] !in responses :: ret[k] == PianoPir.Zeros(cfg.dbEntrySize)
    ensures forall k | 0 <= k < |idx| && idx[k] in responses :: ret[k] == responses[idx[k]]
  {
    seq(|idx|, k requires 0 <= k < |idx| =>
      if idx[k] in responses then responses[idx[k]] else PianoPir.Zeros(cfg.dbEntrySize))
  }

  /** Recording keeps what was there and adds exactly the real sub-queries made. */
  lemma {:induction false} RecordKeys(m: map<Word, Entry>, issued: seq<Word>, answer: (nat, nat) -> Entry, i: nat, j: nat, x: Word)
    requires j <= |issued|
    ensures x in Record(m, issued, answer, i, j) <==> x in m || (x != DefaultValue && x in issued[..j])
  {
    if j > 0 {
      RecordKeys(m, issued, answer, i, j - 1, x);
      assert issued[..j] == issued[..j - 1] + [issued[j - 1]];
    }
  }

  /** The indices with a response after partitions 0 .. n - 1: the served indices of those partitions. */
  lemma {:induction false} ResponsesKeys(cfg: BatchConfig, idx: seq<Word>, answer: (nat, nat) -> Entry, n: nat, x: Word)
    requires cfg.partitionSize > 0 && cfg.partitionNum > 0
    ensures x in Responses(cfg, idx, answer, n) <==> x / cfg.partitionSize < n && Served(cfg, idx, x)
  {
    if n > 0 {
      var s := Issued(cfg, idx, n - 1);
      ResponsesKeys(cfg, idx, answer, n - 1, x);
      RecordKeys(Responses(cfg, idx, answer, n - 1), s, answer, n - 1, |s|, x);
      assert s[..|s|] == s;
      IssuedServed(cfg, idx, n - 1, x);
    }
  }

  /**
   * Partition i's PIR answers every real sub-query with the entry of its
   * own database at the index's offset in the partition.
   */
  ghost predicate AnswersCorrect(cfg: BatchConfig, dbs: seq<seq<Word>>, idx: seq<Word>, answer: (nat, nat) -> Entry)
    requires cfg.partitionNum > 0 && (cfg.partitionSize > 0 || idx == []) && |dbs| == cfg.partitionNum
  {
    forall i, j | 0 <= i < cfg.partitionNum && 0 <= j < Quota(cfg, |idx|) ::
      var x, start, end := Issued(cfg, idx, i)[j], Range(cfg, i).0, Range(cfg, i).1;
      x != DefaultValue && start <= x < end ==>
        && |dbs[i]| == (end - start) * cfg.dbEntrySize
        && answer(i, j) == PianoPir.DbEntry(dbs[i], cfg.dbEntrySize, end - start, x - start)
  }

  /** With correct partition answers, every recorded response is the database entry of its index. */
  lemma {:induction false} ResponsesCorrect(cfg: BatchConfig, rawDB: seq<Word>, idx: seq<Word>, answer: (nat, nat) -> Entry, n: nat)
    requires ValidBatch(cfg) && cfg.partitionSize > 0 && |rawDB| == cfg.dbSize * cfg.dbEntrySize && n <= cfg.partitionNum
    requires forall k | 0 <= k < |idx| :: idx[k] < cfg.dbSize
    requires AnswersCorrect(cfg, Dbs(cfg, rawDB), idx, answer)
    ensures forall x | x in Responses(cfg, idx, answer, n) ::
      Responses(cfg, idx, answer, n)[x] == PianoPir.DbEntry(rawDB, cfg.dbEntrySize, cfg.dbSize, x)
  {
    if n > 0 {
      var prev, issued := Responses(cfg, idx, answer, n - 1), Issued(cfg, idx, n - 1);
      ResponsesCorrect(cfg, rawDB, idx, answer, n - 1);
      PartitionCorrect(cfg, rawDB, idx, answer, n - 1);
      RecordCorrect(prev, issued, answer, n - 1, |issued|, rawDB, cfg.dbEntrySize, cfg.dbSize);
      assert Responses(cfg, idx, answer, n) == Record(prev, issued, answer, n - 1, |issued|);
    }
  }

  /** Every partition's slice, as a sequence. */
  function Dbs(cfg: BatchConfig, rawDB: seq<Word>): (dbs: seq<seq<Word>>)
    requires |rawDB| == cfg.dbSize * cfg.dbEntrySize
    ensures |dbs| == cfg.partitionNum
    ensures forall i | 0 <= i < cfg.partitionNum :: dbs[i] == SubDb(cfg, rawDB, i)
  {
    seq(cfg.partitionNum, i requires 0 <= i => SubDb(cfg, rawDB, i))
  }

  /** Recording answers that are database entries into a map of database entries keeps it one. */
  lemma {:induction false} RecordCorrect(m: map<Word, Entry>, issued: seq<Word>, answer: (nat, nat) -> Entry, i: nat, j: nat,
                                         rawDB: seq<Word>, e: nat, n: nat)
    requires j <= |issued| && |rawDB| == n * e
    requires forall x | x in m :: m[x] == PianoPir.DbEntry(rawDB, e, n, x)
    requires forall k | 0 <= k < j && issued[k] != DefaultValue :: answer(i, k) == PianoPir.DbEntry(rawDB, e, n, issued[k])
    ensures forall x | x in Record(m, issued, answer, i, j) ::
      Record(m, issued, answer, i, j)[x] == PianoPir.DbEntry(rawDB, e, n, x)
  {
    if j > 0 {
      RecordCorrect(m, issued, answer, i, j - 1, rawDB, e, n);
    }
  }

  /** Partition i's correct answers, read against the whole database. */
  lemma PartitionCorrect(cfg: BatchConfig, rawDB: seq<Word>, idx: seq<Word>, answer: (nat, nat) -> Entry, i: nat)
    requires ValidBatch(cfg) && cfg.partitionSize > 0 && |rawDB| == cfg.dbSize * cfg.dbEntrySize && i < cfg.partitionNum
    requires forall k | 0 <= k < |idx| :: idx[k] < cfg.dbSize
    requires AnswersCorrect(cfg, Dbs(cfg, rawDB), idx, answer)
    ensures var issued := Issued(cfg, idx, i);
      forall k | 0 <= k < |issued| && issued[k] != DefaultValue ::
        answer(i, k) == PianoPir.DbEntry(rawDB, cfg.dbEntrySize, cfg.dbSize, issued[k])
  {
    forall k | 0 <= k < Quota(cfg, |idx|) && Issued(cfg, idx, i)[k] != DefaultValue
      ensures answer(i, k) == PianoPir.DbEntry(rawDB, cfg.dbEntrySize, cfg.dbSize, Issued(cfg, idx, i)[k])
    {
      SubQueryCorrect(cfg, rawDB, idx, answer, i, k);
    }
  }

  lemma SubQueryCorrect(cfg: BatchConfig, rawDB: seq<Word>, idx: seq<Word>, answer: (nat, nat) -> Entry, i: nat, k: nat)
    requires ValidBatch(cfg) && cfg.partitionSize > 0 && |rawDB| == cfg.dbSize * cfg.dbEntrySize && i < cfg.partitionNum
    requires forall m | 0 <= m < |idx| :: idx[m] < cfg.dbSize
    requires AnswersCorrect(cfg, Dbs(cfg, rawDB), idx, answer)
    requires k < Quota(cfg, |idx|) && Issued(cfg, idx, i)[k] != DefaultValue
    ensures answer(i, k) == PianoPir.DbEntry(rawDB, cfg.dbEntrySize, cfg.dbSize, Issued(cfg, idx, i)[k])
  {
    var x := Issued(cfg, idx, i)[k];
    IssuedInRange(cfg, idx, i, x);
    var (start, end) := Range(cfg, i);
    assert answer(i, k) == PianoPir.DbEntry(Dbs(cfg, rawDB)[i], cfg.dbEntrySize, end - start, x - start);
    SubDbEntry(cfg, rawDB, i, x - start);
  }

  /** A real sub-query of partition i names an index of the batch inside partition i's range. */
  lemma IssuedInRange(cfg: BatchConfig, idx: seq<Word>, i: nat, x: Word)
    requires ValidBatch(cfg) && cfg.partitionSize > 0 && forall k | 0 <= k < |idx| :: idx[k] < cfg.dbSize
    requires x != DefaultValue && x in Issued(cfg, idx, i)
    ensures Range(cfg, i).0 <= x < Range(cfg, i).1 && x < cfg.dbSize
  {
    IssuedServed(cfg, idx, i, x);
    ArrivalsMember(cfg, idx, i, x);
    PartitionOf(cfg, x);
  }

  /**
   * The batch's answers: one per index in the batch's order, the database
   * entry for a served index when the partitions answer correctly, and a
   * zero entry for an index that was not served.
   */
  lemma BatchOutput(cfg: BatchConfig, rawDB: seq<Word>, idx: seq<Word>, answer: (nat, nat) -> Entry, k: nat)
    requires ValidBatch(cfg) && cfg.partitionSize > 0 && |rawDB| == cfg.dbSize * cfg.dbEntrySize
    requires forall m | 0 <= m < |idx| :: idx[m] < cfg.dbSize
    requires k < |idx|
    ensures var ret := Output(cfg, Responses(cfg, idx, answer, cfg.partitionNum), idx);
      && (!Served(cfg, idx, idx[k]) ==> ret[k] == PianoPir.Zeros(cfg.dbEntrySize))
      && (Served(cfg, idx, idx[k]) && AnswersCorrect(cfg, Dbs(cfg, rawDB), idx, answer) ==>
            ret[k] == PianoPir.DbEntry(rawDB, cfg.dbEntrySize, cfg.dbSize, idx[k]))
  {
    PartitionOf(cfg, idx[k]);
    ResponsesKeys(cfg, idx, answer, cfg.partitionNum, idx[k]);
    if Served(cfg, idx, idx[k]) && AnswersCorrect(cfg, Dbs(cfg, rawDB), idx, answer) {
      ResponsesCorrect(cfg, rawDB, idx, answer, cfg.partitionNum);
    }
  }

  /** BatchOutput for every index of a non-empty batch. */
  lemma BatchOutputs(cfg: BatchConfig, rawDB: seq<Word>, idx: seq<Word>, answer: (nat, nat) -> Entry)
    requires ValidBatch(cfg) && cfg.partitionSize > 0 && |rawDB| == cfg.dbSize * cfg.dbEntrySize
    requires forall m | 0 <= m < |idx| :: idx[m] < cfg.dbSize
    ensures var ret := Output(cfg, Responses(cfg, idx, answer, cfg.partitionNum), idx);
      && (forall k | 0 <= k < |idx| && !Served(cfg, idx, idx[k]) :: ret[k] == PianoPir.Zeros(cfg.dbEntrySize))
      && (AnswersCorrect(cfg, Dbs(cfg, rawDB), idx, answer) ==>
            forall k | 0 <= k < |idx| && Served(cfg, idx, idx[k]) ::
              ret[k] == PianoPir.DbEntry(rawDB, cfg.dbEntrySize, cfg.dbSize, idx[k]))
  {
    forall k | 0 <= k < |idx|
      ensures var ret := Output(cfg, Responses(cfg, idx, answer, cfg.partitionNum), idx);
        && (!Served(cfg, idx, idx[k]) ==> ret[k] == PianoPir.Zeros(cfg.dbEntrySize))
        && (Served(cfg, idx, idx[k]) && AnswersCorrect(cfg, Dbs(cfg, rawDB), idx, answer) ==>
              ret[k] == PianoPir.DbEntry(rawDB, cfg.dbEntrySize, cfg.dbSize, idx[k]))
    {
      BatchOutput(cfg, rawDB, idx, answer, k);
    }
  }

  // ---------------------------------------------------------------------
  // The steps of a batch query
  // ---------------------------------------------------------------------

  /** Query's first loop: every index appended to the list of its partition. */
  method Route(cfg: BatchConfig, idx: seq<Word>) returns (pq: seq<seq<Word>>)
    requires ValidBatch(cfg) && (cfg.partitionSize > 0 || idx == [])
    requires forall k | 0 <= k < |idx| :: idx[k] < cfg.dbSize
    ensures |pq| == cfg.partitionNum
    ensures forall i | 0 <= i < cfg.partitionNum :: pq[i] == Arrivals(cfg, idx, i)
  {
    pq := seq(cfg.partitionNum, _ => []);
    for k := 0 to |idx|
      invariant |pq| == cfg.partitionNum
      invariant forall i | 0 <= i < cfg.partitionNum :: pq[i] == Arrivals(cfg, idx[..k], i)
    {
      assert idx[..k + 1][..k] == idx[..k];
      PartitionOf(cfg, idx[k]);
      var p := idx[k] / cfg.partitionSize;
      pq := pq[p := pq[p] + [idx[k]]];
    }
    assert idx[..|idx|] == idx;
  }

  /** Padding a short partition's list with dummy indices up to the quota. */
  method Pad(queries: seq<Word>, quota: nat) returns (padded: seq<Word>)
    ensures padded == Padded(queries, quota)
  {
    padded := queries;
    if |padded| < quota {
      for j := |queries| to quota
        invariant padded == queries + seq(j - |queries|, _ => DefaultValue as Word)
      {
        padded := padded + [DefaultValue];
      }
    }
  }

  /** Partition i's quota of sub-queries: a dummy for DefaultValue, otherwise the answer recorded under the index. */
  method QueryPartition(queries: seq<Word>, quota: nat, answer: (nat, nat) -> Entry, i: nat, responses: map<Word, Entry>)
    returns (r: map<Word, Entry>)
    requires quota <= |queries|
    ensures r == Record(responses, queries, answer, i, quota)
  {
    r := responses;
    for j := 0 to quota
      invariant r == Record(responses, queries, answer, i, j)
    {
      if queries[j] != DefaultValue {
        r := r[queries[j] := answer(i, j)];
      }
    }
  }

  /** Record reads only the sub-queries it records. */
  lemma {:induction false} RecordPrefix(m: map<Word, Entry>, issued: seq<Word>, answer: (nat, nat) -> Entry, i: nat, j: nat, n: nat)
    requires j <= n <= |issued|
    ensures Record(m, issued, answer, i, j) == Record(m, issued[..n], answer, i, j)
  {
    if j > 0 {
      RecordPrefix(m, issued, answer, i, j - 1, n);
    }
  }

  /** Query's second loop: every partition pads its list and makes its sub-queries in turn. */
  method Collect(cfg: BatchConfig, idx: seq<Word>, pq: seq<seq<Word>>, answer: (nat, nat) -> Entry)
    returns (responses: map<Word, Entry>)
    requires ValidBatch(cfg) && (cfg.partitionSize > 0 || idx == []) && |pq| == cfg.partitionNum
    requires forall i | 0 <= i < cfg.partitionNum :: pq[i] == Arrivals(cfg, idx, i)
    ensures responses == Responses(cfg, idx, answer, cfg.partitionNum)
  {
    var quota := |idx| / cfg.partitionNum;
    responses := map[];
    for i := 0 to cfg.partitionNum
      invariant responses == Responses(cfg, idx, answer, i)
    {
      var queries := Pad(pq[i], quota);
      RecordPrefix(responses, queries, answer, i, quota, quota);
      responses := QueryPartition(queries, quota, answer, i, responses);
    }
  }

  /** Query's last loop: the answers in the batch's order, zeros where there is no response. */
  method Gather(cfg: BatchConfig, idx: seq<Word>, responses: map<Word, Entry>) returns (ret: seq<Entry>)
    ensures ret == Output(cfg, responses, idx)
  {
    ret := [];
    for k := 0 to |idx|
      invariant |ret| == k
      invariant forall m | 0 <= m < k :: ret[m] == Output(cfg, responses, idx)[m]
    {
      if idx[k] in responses {
        ret := ret + [responses[idx[k]]];
      } else {
        ret := ret + [PianoPir.Zeros(cfg.dbEntrySize)];
      }
    }
  }

  /**
   * The answer half of Query: route, query every partition, gather. An
   * index that was not served reads as zeros, and a served one as its
   * database entry when the partitions answer correctly.
   */
  method BatchAnswers(cfg: BatchConfig, ghost rawDB: seq<Word>, idx: seq<Word>, answer: (nat, nat) -> Entry)
    returns (ret: seq<Entry>)
    requires ValidBatch(cfg) && |rawDB| == cfg.dbSize * cfg.dbEntrySize
    requires forall k | 0 <= k < |idx| :: idx[k] < cfg.dbSize
    requires cfg.partitionSize > 0 || idx == []
    ensures ret == Output(cfg, Responses(cfg, idx, answer, cfg.partitionNum), idx)
    ensures forall k | 0 <= k < |idx| && !Served(cfg, idx, idx[k]) :: ret[k] == PianoPir.Zeros(cfg.dbEntrySize)
    ensures AnswersCorrect(cfg, Dbs(cfg, rawDB), idx, answer) ==>
      forall k | 0 <= k < |idx| && Served(cfg, idx, idx[k]) ::
        ret[k] == PianoPir.DbEntry(rawDB, cfg.dbEntrySize, cfg.dbSize, idx[k])
  {
    var pq := Route(cfg, idx);
    var responses := Collect(cfg, idx, pq, answer);
    ret := Gather(cfg, idx, responses);
    if idx != [] {
      BatchOutputs(cfg, rawDB, idx, answer);
    }
  }

  /** MaxQueryNum - 2 in uint64 arithmetic: below two queries it wraps around. */
  function RedoThreshold(maxQueryNum: nat): nat {
    if maxQueryNum >= 2 then maxQueryNum - 2 else maxQueryNum + 0x1_0000_0000_0000_0000 - 2
  }

  /**
   * SimpleBatchPianoPIR: the configuration, the partitions' databases and
   * the batch counters.
   */
  class SimpleBatchPianoPir {
    const config: BatchConfig
    /** The database the partitions were cut from. */
    ghost const rawDB: seq<Word>
    /** The database each partition's Piano PIR holds. */
    const subDbs: seq<seq<Word>>
    /** MaxQueryNum of partition 0's client, which its floating-point sizing fixes. */
    const subMaxQueryNum: nat

    var finishedBatchNum: nat
    var queriesMadeInPartition: nat
    var supportBatchNum: nat

    /** The partitions hold the slices of the database they were cut from. */
    ghost predicate Valid()
      reads this
    {
      && ValidBatch(config) && |rawDB| == config.dbSize * config.dbEntrySize
      && subDbs == Dbs(config, rawDB)
    }

    /**
     * NewSimpleBatchPianoPIR: batchSize / 2 partitions, each given the slice
     * of its range. The raw database must hold dbSize entries of entryBytes /
     * 8 words. The ranges are clipped to the database.
     */
    constructor (dbSize: nat, entryBytes: nat, batchSize: nat, rawDB: seq<Word>, subMaxQueryNum: nat)
      requires |rawDB| == dbSize * (entryBytes / 8) && batchSize >= RealQueryPerPartition
      ensures Valid() && config == MakeConfig(dbSize, entryBytes, batchSize) && this.rawDB == rawDB
      ensures this.subMaxQueryNum == subMaxQueryNum
      ensures finishedBatchNum == 0 && queriesMadeInPartition == 0 && supportBatchNum == 0
    {
      var cfg := MakeConfig(dbSize, entryBytes, batchSize);
      var dbs := PartitionDbs(cfg, rawDB);
      config := cfg;
      this.rawDB := rawDB;
      subDbs := dbs;
      this.subMaxQueryNum := subMaxQueryNum;
      finishedBatchNum := 0;
      queriesMadeInPartition := 0;
      supportBatchNum := 0;
    }

    /** RecordStats without its floating-point figures: the number of batches the query budget supports. */
    method RecordStats()
      modifies this`supportBatchNum
      ensures supportBatchNum == subMaxQueryNum / QueryPerPartition
    {
      supportBatchNum := subMaxQueryNum / QueryPerPartition;
    }

    /** Preprocessing: the counters restart, then the statistics are recorded. */
    method Preprocessing()
      modifies this`finishedBatchNum, this`queriesMadeInPartition, this`supportBatchNum
      ensures finishedBatchNum == 0 && queriesMadeInPartition == 0
      ensures supportBatchNum == subMaxQueryNum / QueryPerPartition
    {
      finishedBatchNum := 0;
      queriesMadeInPartition := 0;
      RecordStats();
    }

    /** DummyPreprocessing: the statistics are recorded; the counters are left as they are. */
    method DummyPreprocessing()
      modifies this`supportBatchNum
      ensures supportBatchNum == subMaxQueryNum / QueryPerPartition
    {
      RecordStats();
    }

    /**
     * Query: route, make every partition's quota of sub-queries, and answer
     * in the batch's order. answer(i, j) is what partition i's PIR returns
     * to its j-th sub-query. Afterwards the counters advance by the batch,
     * or, once partition 0's budget is nearly spent, preprocessing restarts
     * them.
     */
    method Query(idx: seq<Word>, answer: (nat, nat) -> Entry) returns (ret: seq<Entry>)
      // Indices below PartitionNum * PartitionSize pass the routing; only those
      // below dbSize have a stored entry to compare the answer with.
      requires Valid() && forall k | 0 <= k < |idx| :: idx[k] < config.dbSize
      requires config.partitionSize > 0 || idx == []  // implied: only an empty database has empty partitions
      modifies this`finishedBatchNum, this`queriesMadeInPartition, this`supportBatchNum
      ensures ret == Output(config, Responses(config, idx, answer, config.partitionNum), idx)
      ensures forall k | 0 <= k < |idx| && !Served(config, idx, idx[k]) :: ret[k] == PianoPir.Zeros(config.dbEntrySize)
      ensures AnswersCorrect(config, subDbs, idx, answer) ==>
        forall k | 0 <= k < |idx| && Served(config, idx, idx[k]) ::
          ret[k] == PianoPir.DbEntry(rawDB, config.dbEntrySize, config.dbSize, idx[k])
      ensures old(queriesMadeInPartition) >= RedoThreshold(subMaxQueryNum) ==>
        finishedBatchNum == 0 && queriesMadeInPartition == 0 && supportBatchNum == subMaxQueryNum / QueryPerPartition
      ensures old(queriesMadeInPartition) < RedoThreshold(subMaxQueryNum) ==>
        && finishedBatchNum == old(finishedBatchNum) + Batches(config, |idx|)
        && queriesMadeInPartition == old(queriesMadeInPartition) + Quota(config, |idx|)
        && supportBatchNum == old(supportBatchNum)
    {
      ret := BatchAnswers(config, rawDB, idx, answer);
      if queriesMadeInPartition >= RedoThreshold(subMaxQueryNum) {
        Preprocessing();
      } else {
        finishedBatchNum := finishedBatchNum + Batches(config, |idx|);
        queriesMadeInPartition := queriesMadeInPartition + Quota(config, |idx|);
      }
    }
  }
}

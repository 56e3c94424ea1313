/**
 * The Piano PIR database and server (pianopir/pir.go, lines 13-88): a
 * database of dbSize entries of dbEntrySize uint64 words, split into
 * setSize chunks of chunkSize entries. The server answers a non-private
 * query with one entry, and a private query with the XOR of one entry per
 * chunk.
 *
 * An entry is a sequence of words; the XOR of entries is word by word.
 * Indices at or beyond dbSize (the padding of the last chunks) read as the
 * all-zero entry.
 */
module PianoPir {

  import Common
  import Bytes
  import PianoUtil

  type Word = Bytes.Word
  type Bits32 = Bytes.Bits32
  type Entry = seq<Word>

  /** The program point of a hint that is not programmed; also the "no hit" marker. */
  const DefaultProgramPoint: nat := 0x7fffffff

  // ---------------------------------------------------------------------
  // Entries and their XOR
  // ---------------------------------------------------------------------

  function Zeros(e: nat): (z: Entry)
    ensures |z| == e
    ensures forall i | 0 <= i < e :: z[i] == 0
  {
    seq(e, _ => 0)
  }

  /** EntryXor(a, b, len(a)): a with every word xored with b's, for any length (the multiple-of-4 rule is not modelled). */
  function EntryXor(a: Entry, b: Entry): (r: Entry)
    requires |a| == |b|
    ensures |r| == |a|
    ensures forall i | 0 <= i < |a| :: r[i] == Bytes.Xor(a[i], b[i])
  {
    PianoUtil.XorPrefix(a, b, |a|)
  }

  /** The XOR of entries: commutative, associative, zero is neutral, every entry its own inverse. */
  lemma EntryXorLaws(a: Entry, b: Entry, c: Entry)
    requires |a| == |b| == |c|
    ensures EntryXor(a, b) == EntryXor(b, a)
    ensures EntryXor(a, a) == Zeros(|a|)
    ensures EntryXor(a, Zeros(|a|)) == a
    ensures EntryXor(EntryXor(a, b), c) == EntryXor(a, EntryXor(b, c))
  {
    forall i | 0 <= i < |a| {
      Bytes.XorLaws(a[i], b[i], c[i]);
    }
  }

  /** Xoring y and then x into a, and b as well, in either order. */
  lemma EntryXorSwap(a: Entry, b: Entry, y: Entry, x: Entry)
    requires |a| == |b| == |y| == |x|
    ensures EntryXor(EntryXor(EntryXor(a, y), x), b) == EntryXor(EntryXor(EntryXor(a, b), y), x)
  {
    forall i | 0 <= i < |a|
      ensures Bytes.Xor(Bytes.Xor(Bytes.Xor(a[i], y[i]), x[i]), b[i])
           == Bytes.Xor(Bytes.Xor(Bytes.Xor(a[i], b[i]), y[i]), x[i])
    {
      WordSwap(a[i], b[i], y[i], x[i]);
    }
  }

  lemma WordSwap(a: Word, b: Word, y: Word, x: Word)
    ensures Bytes.Xor(Bytes.Xor(Bytes.Xor(a, y), x), b) == Bytes.Xor(Bytes.Xor(Bytes.Xor(a, b), y), x)
  {
    var ay := Bytes.Xor(a, y);
    Bytes.XorLaws(ay, x, b);
    Bytes.XorLaws(x, b, 0);
    Bytes.XorLaws(ay, b, x);
    Bytes.XorLaws(a, y, b);
    Bytes.XorLaws(y, b, 0);
    Bytes.XorLaws(a, b, y);
  }

  /** Xoring b in and out again, then c, leaves a xored with c. */
  lemma EntryXorCancel(a: Entry, b: Entry, c: Entry)
    requires |a| == |b| == |c|
    ensures EntryXor(EntryXor(EntryXor(a, b), b), c) == EntryXor(a, c)
  {
    EntryXorLaws(a, b, b);
    EntryXorLaws(b, b, b);
    EntryXorLaws(a, a, a);
  }

  predicate Sized(es: seq<Entry>, e: nat) {
    forall k | 0 <= k < |es| :: |es[k]| == e
  }

  /** The XOR of a list of entries of e words each; zero for the empty list. */
  function XorAll(es: seq<Entry>, e: nat): (r: Entry)
    requires Sized(es, e)
    ensures |r| == e
  {
    if |es| == 0 then Zeros(e) else EntryXor(XorAll(es[..|es| - 1], e), es[|es| - 1])
  }

  /** One more entry xored into a running XOR. */
  lemma XorAllNext(es: seq<Entry>, e: nat, k: nat)
    requires Sized(es, e) && k < |es|
    ensures XorAll(es[..k + 1], e) == EntryXor(XorAll(es[..k], e), es[k])
  {
    assert es[..k + 1][..k] == es[..k];
  }

  /** Replacing one entry of the list changes the XOR by the old entry and the new one. */
  lemma {:induction false} XorAllUpdate(es: seq<Entry>, e: nat, c: nat, x: Entry)
    requires Sized(es, e) && c < |es| && |x| == e
    ensures Sized(es[c := x], e)
    ensures XorAll(es[c := x], e) == EntryXor(EntryXor(XorAll(es, e), es[c]), x)
    decreases |es|
  {
    var n := |es|;
    var init, last := es[..n - 1], es[n - 1];
    var rest := XorAll(init, e);
    if c == n - 1 {
      assert es[c := x][..n - 1] == init;
      EntryXorCancel(rest, last, x);
    } else {
      assert es[c := x][..n - 1] == init[c := x];
      XorAllUpdate(init, e, c, x);
      EntryXorSwap(rest, last, es[c], x);
    }
  }

  // ---------------------------------------------------------------------
  // Configuration and database
  // ---------------------------------------------------------------------

  /** PianoPIRConfig without the thread count, failure bound and byte count, which no step here reads. */
  datatype Config = Config(dbEntrySize: nat, dbSize: nat, chunkSize: nat, setSize: nat)

  /**
   * What the parameter derivation guarantees: a power-of-two chunk size that
   * fits the uint32 offsets sent to the server, and chunks covering the
   * database.
   */
  predicate Geometry(cfg: Config) {
    && Common.IsPow2(cfg.chunkSize)
    && cfg.chunkSize <= 0x1_0000_0000
    && cfg.setSize < 0x1_0000_0000_0000_0000
    && cfg.dbSize <= cfg.chunkSize * cfg.setSize
  }

  /**
   * The configurations the model works with: the geometry, and every index
   * below the DefaultProgramPoint marker. NewPianoPIR accepts any uint64
   * size; the marker bound is what keeps a programmed index from reading as
   * "not programmed" (see PianoHints.MarkerCollides).
   */
  predicate ValidConfig(cfg: Config) {
    Geometry(cfg) && cfg.dbSize <= DefaultProgramPoint
  }

  /** Entry j of a raw database of n entries of e words; zero beyond the end. */
  function DbEntry(db: seq<Word>, e: nat, n: nat, j: nat): (r: Entry)
    requires |db| == n * e
    ensures |r| == e
  {
    if j < n then
      EntryInDb(j, n, e);
      db[j * e..(j + 1) * e]
    else Zeros(e)
  }

  lemma EntryInDb(j: nat, n: nat, e: nat)
    requires j < n
    ensures (j + 1) * e <= n * e
  {
    PianoUtil.MulLe(j + 1, n, e);
  }

  datatype Server = Server(config: Config, rawDB: seq<Word>)
  {
    predicate Ready() {
      ValidConfig(config) && |rawDB| == config.dbSize * config.dbEntrySize
    }

    function Entry(j: nat): (r: Entry)
      requires Ready()
      ensures |r| == config.dbEntrySize
    {
      DbEntry(rawDB, config.dbEntrySize, config.dbSize, j)
    }
  }

  /** A returned entry together with Go's error value. */
  datatype Reply = Reply(value: Entry, error: Common.Option<string>)

  /**
   * NonePrivateQuery: entry idx, zeros for an index in the padding of the
   * last chunk, and zeros with an error beyond chunkSize * setSize.
   */
  function NonePrivateQuery(s: Server, idx: nat): (r: Reply)
    requires s.Ready()
    ensures |r.value| == s.config.dbEntrySize
    ensures r.value == s.Entry(idx)
    ensures r.error.None? <==> idx < s.config.chunkSize * s.config.setSize
  {
    var e := s.config.dbEntrySize;
    if idx >= s.config.dbSize then
      if idx < s.config.chunkSize * s.config.setSize then Reply(Zeros(e), Common.None)
      else Reply(Zeros(e), Common.Some("idx is out of range"))
    else
      EntryInDb(idx, s.config.dbSize, e);
      Reply(s.rawDB[idx * e..(idx + 1) * e], Common.None)
  }

  /** The database index named by chunk i's offset: offsets[i] + i * chunkSize. */
  function QueryMembers(cfg: Config, offsets: seq<Bits32>): (m: seq<nat>)
    requires |offsets| >= cfg.setSize
    ensures |m| == cfg.setSize
  {
    seq(cfg.setSize, i requires 0 <= i < cfg.setSize => offsets[i] + i * cfg.chunkSize)
  }

  /** The entries at the given indices. */
  function Entries(s: Server, members: seq<nat>): (es: seq<Entry>)
    requires s.Ready()
    ensures |es| == |members| && Sized(es, s.config.dbEntrySize)
  {
    seq(|members|, i requires 0 <= i < |members| => s.Entry(members[i]))
  }

  /** The XOR of the entries at the given indices: what a private query answers. */
  function Answer(s: Server, members: seq<nat>): (r: Entry)
    requires s.Ready()
    ensures |r| == s.config.dbEntrySize
  {
    XorAll(Entries(s, members), s.config.dbEntrySize)
  }

  /**
   * PrivateQuery: the XOR over every chunk i of entry offsets[i] + i *
   * chunkSize, where indices beyond the database add nothing.
   */
  method PrivateQuery(s: Server, offsets: seq<Bits32>) returns (r: Reply)
    requires s.Ready() && |offsets| >= s.config.setSize
    ensures r.error.None?
    ensures r.value == Answer(s, QueryMembers(s.config, offsets))
  {
    var e := s.config.dbEntrySize;
    ghost var es := Entries(s, QueryMembers(s.config, offsets));
    var ret := new Word[e](_ => 0);
    assert ret[..] == Zeros(e);
    for i := 0 to s.config.setSize
      invariant ret[..] == XorAll(es[..i], e)
    {
      XorAllNext(es, e, i);
      XorMemberInto(s, offsets, ret, i);
    }
    assert es[..s.config.setSize] == es;
    r := Reply(ret[..], Common.None);
  }

  /** One round of PrivateQuery: XOR in the entry at offsets[i] of chunk i, nothing past the end. */
  method XorMemberInto(s: Server, offsets: seq<Bits32>, ret: array<Word>, i: nat)
    requires s.Ready() && |offsets| >= s.config.setSize && i < s.config.setSize
    requires ret.Length == s.config.dbEntrySize
    modifies ret
    ensures ret[..] == EntryXor(old(ret[..]), Entries(s, QueryMembers(s.config, offsets))[i])
  {
    var idx := offsets[i] + i * s.config.chunkSize;
    MemberEntry(s, offsets, i);
    if idx >= s.config.dbSize {
      EntryXorLaws(ret[..], ret[..], ret[..]);
      return;
    }
    XorEntryInto(s, ret, idx);
  }

  /** EntryXor(ret, rawDB[idx*E:(idx+1)*E], E) for an index inside the database. */
  method XorEntryInto(s: Server, ret: array<Word>, idx: nat)
    requires s.Ready() && ret.Length == s.config.dbEntrySize && idx < s.config.dbSize
    modifies ret
    ensures ret[..] == EntryXor(old(ret[..]), s.Entry(idx))
  {
    var e := s.config.dbEntrySize;
    EntryInDb(idx, s.config.dbSize, e);
    PianoUtil.XorSlices(ret, s.rawDB[idx * e..(idx + 1) * e], e);
  }

  lemma MemberEntry(s: Server, offsets: seq<Bits32>, i: nat)
    requires s.Ready() && |offsets| >= s.config.setSize && i < s.config.setSize
    ensures Entries(s, QueryMembers(s.config, offsets))[i] == s.Entry(offsets[i] + i * s.config.chunkSize)
  {
  }

  /**
   * A query set whose index in every chunk lies in that chunk is recovered
   * from the offsets the client sends, so the server XORs exactly its entries.
   */
  lemma OffsetsRecoverMembers(cfg: Config, members: seq<nat>, offsets: seq<Bits32>)
    requires |members| == cfg.setSize && |offsets| == cfg.setSize && cfg.chunkSize > 0
    requires forall i | 0 <= i < cfg.setSize :: members[i] / cfg.chunkSize == i
    requires forall i | 0 <= i < cfg.setSize :: offsets[i] == members[i] % cfg.chunkSize
    ensures QueryMembers(cfg, offsets) == members
  {
    forall i | 0 <= i < cfg.setSize
      ensures offsets[i] + i * cfg.chunkSize == members[i]
    {
      assert members[i] == members[i] / cfg.chunkSize * cfg.chunkSize + members[i] % cfg.chunkSize;
    }
  }
}

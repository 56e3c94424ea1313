/**
 * The database entry layout of private-search.go.
 *
 * An entry is a vertex's first Dim float32 bit patterns followed by its
 * first M neighbour ids as uint32, all little-endian, cut into
 * little-endian uint64 words; Entry2VectorAndNeighbors reads an entry
 * back.
 */
module EntryCodec {
  import opened Bytes

  /** A float32, held as its IEEE-754 bit pattern. */
  type Float32 = Bits32

  /** Go's uint32(x) for an int x: the value modulo 2^32. */
  function Uint32Of(x: int): Bits32 {
    x % 0x1_0000_0000
  }

  function Uint32s(xs: seq<int>): (r: seq<Bits32>)
    ensures |r| == |xs|
  {
    seq(|xs|, i requires 0 <= i < |xs| => Uint32Of(xs[i]))
  }

  /** The little-endian bytes of uint32 values, one after the other. */
  function Packed32(xs: seq<Bits32>): (r: seq<Byte>)
    ensures |r| == 4 * |xs|
  {
    if xs == [] then [] else Packed32(xs[..|xs| - 1]) + Le32(xs[|xs| - 1])
  }

  /** The c uint32 values read at byte offsets lo, lo + 4, ... */
  function Split32(bytes: seq<Byte>, lo: nat, c: nat): (r: seq<Bits32>)
    requires lo + 4 * c <= |bytes|
    ensures |r| == c
  {
    if c == 0 then [] else Split32(bytes, lo, c - 1) + [Uint32(bytes[lo + 4 * (c - 1)..])]
  }

  /** The c words read from consecutive 8-byte groups. */
  function Pack64(bytes: seq<Byte>, c: nat): (r: seq<Word>)
    requires 8 * c <= |bytes|
    ensures |r| == c
  {
    if c == 0 then [] else Pack64(bytes, c - 1) + [Uint64(bytes[8 * (c - 1)..])]
  }

  /** The little-endian bytes of words, one after the other. */
  function Unpack64(ws: seq<Word>): (r: seq<Byte>)
    ensures |r| == 8 * |ws|
  {
    if ws == [] then [] else Unpack64(ws[..|ws| - 1]) + Le64(ws[|ws| - 1])
  }

  /** DBEntryByteNum. */
  function EntryByteNum(dim: nat, m: nat): nat {
    4 * (dim + m)
  }

  /** entryBytes of Preprocess: the first dim float bit patterns, then the first m neighbour ids. */
  function EntryBytes(vector: seq<Float32>, neighbors: seq<int>, dim: nat, m: nat): (r: seq<Byte>)
    requires |vector| >= dim && |neighbors| >= m
    ensures |r| == EntryByteNum(dim, m)
  {
    Packed32(vector[..dim]) + Packed32(Uint32s(neighbors[..m]))
  }

  /** The words of one entry: DBEntryByteNum / 8 of them. */
  function EncodeEntry(vector: seq<Float32>, neighbors: seq<int>, dim: nat, m: nat): (r: seq<Word>)
    requires |vector| >= dim && |neighbors| >= m
    ensures |r| == EntryByteNum(dim, m) / 8
  {
    Pack64(EntryBytes(vector, neighbors, dim, m), EntryByteNum(dim, m) / 8)
  }

  /**
   * Entry2VectorAndNeighbors: dim float bit patterns from byte 0 on, then m
   * neighbour ids from byte 4 * dim on. The source slices the entry's
   * bytes at each of these offsets, so they must all exist.
   */
  function Entry2VectorAndNeighbors(dim: nat, m: nat, entry: seq<Word>): (r: (seq<Float32>, seq<int>))
    requires EntryByteNum(dim, m) <= 8 * |entry|
    ensures |r.0| == dim && |r.1| == m
    ensures forall i :: 0 <= i < m ==> 0 <= r.1[i] < 0x1_0000_0000
  {
    var bytes := Unpack64(entry);
    (Split32(bytes, 0, dim), Split32(bytes, 4 * dim, m))
  }

  lemma {:induction false} Packed32At(xs: seq<Bits32>, i: nat)
    requires i < |xs|
    ensures Packed32(xs)[4 * i..4 * i + 4] == Le32(xs[i])
  {
    var init := xs[..|xs| - 1];
    assert Packed32(xs) == Packed32(init) + Le32(xs[|xs| - 1]);
    if i < |xs| - 1 {
      Packed32At(init, i);
      assert init[i] == xs[i];
    }
  }

  lemma {:induction false} Split32At(bytes: seq<Byte>, lo: nat, c: nat, i: nat)
    requires lo + 4 * c <= |bytes| && i < c
    ensures Split32(bytes, lo, c)[i] == Uint32(bytes[lo + 4 * i..])
  {
    if i < c - 1 {
      Split32At(bytes, lo, c - 1, i);
    }
  }

  /** Reading back packed uint32 values, wherever they sit, gives the values. */
  lemma SplitPacked(bytes: seq<Byte>, lo: nat, xs: seq<Bits32>)
    requires lo + 4 * |xs| <= |bytes| && bytes[lo..lo + 4 * |xs|] == Packed32(xs)
    ensures Split32(bytes, lo, |xs|) == xs
  {
    forall i | 0 <= i < |xs| ensures Split32(bytes, lo, |xs|)[i] == xs[i] {
      Split32At(bytes, lo, |xs|, i);
      SplitPackedAt(bytes, lo, xs, i);
    }
  }

  lemma SplitPackedAt(bytes: seq<Byte>, lo: nat, xs: seq<Bits32>, i: nat)
    requires lo + 4 * |xs| <= |bytes| && bytes[lo..lo + 4 * |xs|] == Packed32(xs) && i < |xs|
    ensures Uint32(bytes[lo + 4 * i..]) == xs[i]
  {
    var at, window := lo + 4 * i, bytes[lo..lo + 4 * |xs|];
    forall j | 0 <= j < 4 ensures bytes[at + j] == Le32(xs[i])[j] {
      PackedByte(xs, i, j);
      assert window[4 * i + j] == bytes[at + j];
    }
    ReadLe32(bytes, at, xs[i]);
  }

  lemma {:induction false} PackedByte(xs: seq<Bits32>, i: nat, j: nat)
    requires i < |xs| && j < 4
    ensures Packed32(xs)[4 * i + j] == Le32(xs[i])[j]
  {
    var init := xs[..|xs| - 1];
    assert Packed32(xs) == Packed32(init) + Le32(xs[|xs| - 1]);
    if i < |xs| - 1 {
      PackedByte(init, i, j);
      assert init[i] == xs[i];
    }
  }

  /** A uint32 written at byte offset at is read back from there. */
  lemma ReadLe32(bytes: seq<Byte>, at: nat, x: Bits32)
    requires at + 4 <= |bytes| && forall j :: 0 <= j < 4 ==> bytes[at + j] == Le32(x)[j]
    ensures Uint32(bytes[at..]) == x
  {
    var le := Le32(x);
    assert bytes[at..][..4] == le;
    Uint32Prefix(bytes[at..], le);
  }

  /** Reading words back to bytes returns the bytes the words were read from. */
  lemma {:induction false} UnpackPack(bytes: seq<Byte>, c: nat)
    requires 8 * c <= |bytes|
    ensures Unpack64(Pack64(bytes, c)) == bytes[..8 * c]
  {
    if c > 0 {
      UnpackPack(bytes, c - 1);
      var ws := Pack64(bytes, c);
      assert ws[..c - 1] == Pack64(bytes, c - 1);
      var group := bytes[8 * (c - 1)..8 * c];
      assert bytes[8 * (c - 1)..][..8] == group[..8];
      Uint64Prefix(bytes[8 * (c - 1)..], group);
      Le64OfUint64(group);
      assert bytes[..8 * c] == bytes[..8 * (c - 1)] + group;
    }
  }

  lemma {:induction false} Pack64At(bytes: seq<Byte>, c: nat, w: nat)
    requires 8 * c <= |bytes| && w < c
    ensures Pack64(bytes, c)[w] == Uint64(bytes[8 * w..8 * w + 8])
  {
    assert bytes[8 * w..][..8] == bytes[8 * w..8 * w + 8][..8];
    if w < c - 1 {
      Pack64At(bytes, c - 1, w);
    }
  }

  /**
   * The layout of an entry: float j at bytes [4j, 4j+4), neighbour j at
   * bytes [4(dim+j), 4(dim+j)+4), and word w made of bytes [8w, 8w+8).
   */
  lemma EntryLayout(vector: seq<Float32>, neighbors: seq<int>, dim: nat, m: nat)
    requires |vector| >= dim && |neighbors| >= m
    ensures forall j :: 0 <= j < dim ==>
      EntryBytes(vector, neighbors, dim, m)[4 * j..4 * j + 4] == Le32(vector[j])
    ensures forall j :: 0 <= j < m ==>
      EntryBytes(vector, neighbors, dim, m)[4 * (dim + j)..4 * (dim + j) + 4] == Le32(Uint32Of(neighbors[j]))
    ensures forall w :: 0 <= w < EntryByteNum(dim, m) / 8 ==>
      EncodeEntry(vector, neighbors, dim, m)[w] == Uint64(EntryBytes(vector, neighbors, dim, m)[8 * w..8 * w + 8])
  {
    VectorLayout(vector, neighbors, dim, m);
    NeighborLayout(vector, neighbors, dim, m);
    var bytes := EntryBytes(vector, neighbors, dim, m);
    forall w | 0 <= w < EntryByteNum(dim, m) / 8
      ensures EncodeEntry(vector, neighbors, dim, m)[w] == Uint64(bytes[8 * w..8 * w + 8])
    {
      Pack64At(bytes, EntryByteNum(dim, m) / 8, w);
    }
  }

  /** The floats of an entry, four bytes each from the start. */
  lemma VectorLayout(vector: seq<Float32>, neighbors: seq<int>, dim: nat, m: nat)
    requires |vector| >= dim && |neighbors| >= m
    ensures forall j :: 0 <= j < dim ==>
      EntryBytes(vector, neighbors, dim, m)[4 * j..4 * j + 4] == Le32(vector[j])
  {
    var vb := Packed32(vector[..dim]);
    var bytes := EntryBytes(vector, neighbors, dim, m);
    forall j | 0 <= j < dim ensures bytes[4 * j..4 * j + 4] == Le32(vector[j]) {
      Packed32At(vector[..dim], j);
      assert bytes[4 * j..4 * j + 4] == vb[4 * j..4 * j + 4];
    }
  }

  /** The neighbour ids of an entry, four bytes each after the floats. */
  lemma NeighborLayout(vector: seq<Float32>, neighbors: seq<int>, dim: nat, m: nat)
    requires |vector| >= dim && |neighbors| >= m
    ensures forall j :: 0 <= j < m ==>
      EntryBytes(vector, neighbors, dim, m)[4 * (dim + j)..4 * (dim + j) + 4] == Le32(Uint32Of(neighbors[j]))
  {
    var nb := Packed32(Uint32s(neighbors[..m]));
    var bytes := EntryBytes(vector, neighbors, dim, m);
    forall j | 0 <= j < m ensures bytes[4 * (dim + j)..4 * (dim + j) + 4] == Le32(Uint32Of(neighbors[j])) {
      Packed32At(Uint32s(neighbors[..m]), j);
      assert bytes[4 * (dim + j)..4 * (dim + j) + 4] == nb[4 * j..4 * j + 4];
    }
  }

  /** Decoding words whose bytes are packed uint32 values gives those values back. */
  lemma DecodePacked(dim: nat, m: nat, entry: seq<Word>, xs: seq<Bits32>, ys: seq<Bits32>)
    requires |xs| == dim && |ys| == m
    requires Unpack64(entry) == Packed32(xs) + Packed32(ys)
    ensures EntryByteNum(dim, m) <= 8 * |entry|
    ensures Entry2VectorAndNeighbors(dim, m, entry) == (xs, ys)
  {
    var bytes := Unpack64(entry);
    assert bytes[..4 * dim] == Packed32(xs);
    assert bytes[4 * dim..4 * dim + 4 * m] == Packed32(ys);
    SplitPacked(bytes, 0, xs);
    SplitPacked(bytes, 4 * dim, ys);
  }

  /**
   * Decoding an encoded entry gives back the vector's bit patterns and the
   * neighbour ids, when dim + m is even (so no half word is cut off) and
   * the ids fit in a uint32.
   */
  lemma EntryRoundTrip(vector: seq<Float32>, neighbors: seq<int>, dim: nat, m: nat)
    requires |vector| >= dim && |neighbors| >= m
    requires (dim + m) % 2 == 0
    requires forall j :: 0 <= j < m ==> 0 <= neighbors[j] < 0x1_0000_0000
    ensures 8 * |EncodeEntry(vector, neighbors, dim, m)| == EntryByteNum(dim, m)
    ensures Entry2VectorAndNeighbors(dim, m, EncodeEntry(vector, neighbors, dim, m)) == (vector[..dim], neighbors[..m])
  {
    var xs, ys := vector[..dim], Uint32s(neighbors[..m]);
    var bytes := EntryBytes(vector, neighbors, dim, m);
    var c := EntryByteNum(dim, m) / 8;
    assert 8 * c == |bytes|;
    UnpackPack(bytes, c);
    assert bytes[..8 * c] == bytes;
    var entry := EncodeEntry(vector, neighbors, dim, m);
    assert Unpack64(entry) == Packed32(xs) + Packed32(ys);
    DecodePacked(dim, m, entry, xs, ys);
    Uint32sInRange(neighbors[..m]);
  }

  /** uint32 conversion leaves ids that already fit unchanged. */
  lemma Uint32sInRange(xs: seq<int>)
    requires forall i :: 0 <= i < |xs| ==> 0 <= xs[i] < 0x1_0000_0000
    ensures Uint32s(xs) == xs
  {
    forall i | 0 <= i < |xs| ensures Uint32s(xs)[i] == xs[i] {
    }
  }

  /**
   * When dim + m is odd the entry is cut to a whole number of words: its
   * last four bytes, the last neighbour id, are not stored, and the entry
   * is too short for Entry2VectorAndNeighbors.
   */
  lemma OddEntryLosesLastNeighbour(vector: seq<Float32>, neighbors: seq<int>, dim: nat, m: nat)
    requires |vector| >= dim && |neighbors| >= m
    requires (dim + m) % 2 == 1
    ensures 8 * |EncodeEntry(vector, neighbors, dim, m)| == EntryByteNum(dim, m) - 4
    ensures Unpack64(EncodeEntry(vector, neighbors, dim, m)) == EntryBytes(vector, neighbors, dim, m)[..EntryByteNum(dim, m) - 4]
    ensures !(EntryByteNum(dim, m) <= 8 * |EncodeEntry(vector, neighbors, dim, m)|)
  {
    var c := EntryByteNum(dim, m) / 8;
    assert 8 * c == EntryByteNum(dim, m) - 4;
    UnpackPack(EntryBytes(vector, neighbors, dim, m), c);
  }

  /** The per-entry part of Preprocess: the two byte buffers, then the words. */
  method EncodeRow(vector: seq<Float32>, neighbors: seq<int>, dim: nat, m: nat) returns (entry: seq<Word>)
    requires |vector| >= dim && |neighbors| >= m
    ensures entry == EncodeEntry(vector, neighbors, dim, m)
  {
    var vectorBytes: seq<Byte> := [];
    for j := 0 to dim
      invariant vectorBytes == Packed32(vector[..j])
    {
      assert vector[..j + 1][..j] == vector[..j];
      vectorBytes := vectorBytes + Le32(vector[j]);
    }
    var neighborsBytes: seq<Byte> := [];
    for j := 0 to m
      invariant neighborsBytes == Packed32(Uint32s(neighbors[..j]))
    {
      assert Uint32s(neighbors[..j + 1])[..j] == Uint32s(neighbors[..j]);
      neighborsBytes := neighborsBytes + Le32(Uint32Of(neighbors[j]));
    }
    var entryBytes := vectorBytes + neighborsBytes;
    var byteNum := 4 * (dim + m);
    entry := [];
    for j := 0 to byteNum / 8
      invariant entry == Pack64(entryBytes, j)
    {
      entry := entry + [Uint64(entryBytes[8 * j..])];
    }
  }

  /** copy(dst[off:], src) for a src that fits: src is written at off and nothing else changes. */
  method CopyAt(dst: array<Word>, off: nat, src: seq<Word>)
    requires off + |src| <= dst.Length
    modifies dst
    ensures dst[..off] == old(dst[..off])
    ensures dst[off..off + |src|] == src
    ensures dst[off + |src|..] == old(dst[off + |src|..])
  {
    for j := 0 to |src|
      invariant dst[..off] == old(dst[..off])
      invariant dst[off..off + j] == src[..j]
      invariant dst[off + |src|..] == old(dst[off + |src|..])
    {
      dst[off + j] := src[j];
      assert dst[off..off + j + 1] == dst[off..off + j] + [src[j]];
    }
  }
}

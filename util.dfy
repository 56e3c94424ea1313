/**
 * The Piano PIR utilities (pianopir/util.go): the chunk/set sizing rule,
 * the 64-bit FNV-1a hash behind DefaultHash, the insecure PRF built on it,
 * the 16-byte input block of the AES-MMO PRF, the two-draw key layout, and
 * the word-wise XOR of two slices.
 *
 * The AES-MMO permutation itself is a parameter (`mmo`): an arbitrary
 * function on 16-byte blocks.
 */
module PianoUtil {

  import Common
  import Bytes

  type Byte = Bytes.Byte
  type Word = Bytes.Word
  type Bits32 = Bytes.Bits32

  const TwoTo64: nat := 0x1_0000_0000_0000_0000

  // ---------------------------------------------------------------------
  // Chunk and set sizes
  // ---------------------------------------------------------------------

  /**
   * The target chunk size, uint32(2 * sqrt(dbSize)): the floor of 2 sqrt(n),
   * which is the floor of sqrt(4 n).
   */
  function TargetChunkSize(dbSize: nat): (t: nat)
    ensures t * t <= 4 * dbSize < (t + 1) * (t + 1)
  {
    Common.ISqrt(4 * dbSize)
  }

  /**
   * The sizing loop shared by GenParams and NewPianoPIR: double the chunk
   * size from 1 until it reaches the target, then take enough chunks to
   * cover the database, rounded up to a multiple of 4.
   */
  method ChunkParams(dbSize: nat) returns (chunkSize: nat, setSize: nat)
    ensures Common.IsPow2(chunkSize) && chunkSize >= TargetChunkSize(dbSize)
    ensures chunkSize == 1 || chunkSize / 2 < TargetChunkSize(dbSize)
    ensures setSize % 4 == 0
    ensures Common.CeilDiv(dbSize, chunkSize) <= setSize < Common.CeilDiv(dbSize, chunkSize) + 4
    ensures chunkSize * setSize >= dbSize
  {
    var target := TargetChunkSize(dbSize);
    chunkSize := 1;
    while chunkSize < target
      invariant Common.IsPow2(chunkSize)
      invariant chunkSize == 1 || chunkSize / 2 < target
      decreases target - chunkSize
    {
      Doubled(chunkSize);
      chunkSize := chunkSize * 2;
    }
    var chunks := Common.CeilDiv(dbSize, chunkSize);
    setSize := Common.RoundUp(chunks, 4);
    Covers(dbSize, chunkSize, setSize);
  }

  lemma Doubled(x: nat)
    requires Common.IsPow2(x)
    ensures Common.IsPow2(x * 2) && (x * 2) / 2 == x
  {
  }

  /** Enough chunks of the chunk size cover the database. */
  lemma Covers(dbSize: nat, chunkSize: nat, setSize: nat)
    requires chunkSize > 0 && Common.CeilDiv(dbSize, chunkSize) <= setSize
    ensures chunkSize * setSize >= dbSize
  {
    MulLe(Common.CeilDiv(dbSize, chunkSize), setSize, chunkSize);
  }

  lemma MulLe(a: nat, b: nat, c: nat)
    requires a <= b
    ensures a * c <= b * c
  {
  }

  /**
   * The chunk size is the least power of two that reaches the target: any
   * power of two at least the target is at least the chunk size.
   */
  lemma ChunkSizeLeast(chunkSize: nat, target: nat, p: nat)
    requires Common.IsPow2(chunkSize) && chunkSize >= target
    requires chunkSize == 1 || chunkSize / 2 < target
    requires Common.IsPow2(p) && p >= target
    ensures p >= chunkSize
  {
    if p < chunkSize {
      Pow2Below(p, chunkSize);
    }
  }

  /** A power of two below another is at most half of it. */
  lemma {:induction false} Pow2Below(p: nat, c: nat)
    requires Common.IsPow2(p) && Common.IsPow2(c) && p < c
    ensures p <= c / 2
  {
    if p != 1 {
      assert c != 1;
      Pow2Below(p / 2, c / 2);
    }
  }

  /**
   * GenParams on a uint32 database size: the sizing rule, and both results
   * fit in a uint32 so that no step of the loop or the rounding overflows.
   */
  method GenParams(dbSize: Bits32) returns (chunkSize: Bits32, setSize: Bits32)
    ensures Common.IsPow2(chunkSize) && chunkSize >= TargetChunkSize(dbSize)
    ensures chunkSize == 1 || chunkSize / 2 < TargetChunkSize(dbSize)
    ensures setSize % 4 == 0 && chunkSize * setSize >= dbSize
    ensures Common.CeilDiv(dbSize, chunkSize) <= setSize < Common.CeilDiv(dbSize, chunkSize) + 4
  {
    var c, s := ChunkParams(dbSize);
    var target := TargetChunkSize(dbSize);
    if target >= 0x2_0000 {
      Common.MulMono(0x2_0000, target);
      assert false;
    }
    if dbSize > 0 && target < 2 {
      assert false;
    }
    SizesFit(dbSize, c, s);
    chunkSize, setSize := c, s;
  }

  /** The chunk and set sizes GenParams picks for dbSize entries. */
  predicate SizingRule(dbSize: nat, chunkSize: nat, setSize: nat) {
    && Common.IsPow2(chunkSize) && chunkSize >= TargetChunkSize(dbSize)
    && (chunkSize == 1 || chunkSize / 2 < TargetChunkSize(dbSize))
    && setSize % 4 == 0
    && Common.CeilDiv(dbSize, chunkSize) <= setSize < Common.CeilDiv(dbSize, chunkSize) + 4
  }

  lemma SizesFit(dbSize: Bits32, c: nat, s: nat)
    requires c < 0x4_0000 && (dbSize == 0 || c >= 2) && c > 0
    requires s < Common.CeilDiv(dbSize, c) + 4
    ensures c < 0x1_0000_0000 && s < 0x1_0000_0000
  {
    if dbSize > 0 {
      var q := Common.CeilDiv(dbSize, c);
      assert (q - 1) * c < dbSize;
      MulLe(2, c, q - 1);
    }
  }

  // ---------------------------------------------------------------------
  // FNV-1a, 64 bits (section 2 of draft-eastlake-fnv)
  // ---------------------------------------------------------------------

  const FnvOffsetBasis: Word := 0xcbf29ce484222325
  const FnvPrime: Word := 0x100000001b3
  /** The multiplicative inverse of the FNV prime modulo 2^64. */
  const FnvPrimeInverse: Word := 0xce965057aff6957b

  /** uint64 multiplication, which wraps modulo 2^64. */
  function MulWord(a: Word, b: Word): Word {
    (a * b) % TwoTo64
  }

  /** One round: xor the octet into the low bits, then multiply by the prime. */
  function FnvStep(h: Word, c: Byte): Word {
    MulWord(Bytes.Xor(h, c), FnvPrime)
  }

  /** The rounds over a byte string, starting from the state h. */
  function FnvFold(h: Word, data: seq<Byte>): Word
    decreases |data|
  {
    if data == [] then h else FnvFold(FnvStep(h, data[0]), data[1..])
  }

  /** fnv.New64a, Write(data), Sum64. */
  function Fnv1a64(data: seq<Byte>): Word {
    FnvFold(FnvOffsetBasis, data)
  }

  /** DefaultHash: FNV-1a over the eight little-endian bytes of the key. */
  function DefaultHash(key: Word): Word {
    Fnv1a64(Bytes.Le64(key))
  }

  /** nonSafePRFEval: the hash of key ^ x. */
  function NonSafePrfEval(key: Word, x: Word): Word {
    DefaultHash(Bytes.Xor(key, x))
  }

  /** Hashing a + b is hashing b from the state reached after a (Write may be split). */
  lemma {:induction false} FnvFoldAppend(h: Word, a: seq<Byte>, b: seq<Byte>)
    ensures FnvFold(h, a + b) == FnvFold(FnvFold(h, a), b)
    decreases |a|
  {
    if a == [] {
      assert a + b == b;
    } else {
      assert (a + b)[0] == a[0] && (a + b)[1..] == a[1..] + b;
      FnvFoldAppend(FnvStep(h, a[0]), a[1..], b);
    }
  }

  /** Multiplying by the prime is undone by multiplying by its inverse. */
  lemma MulByInverse(x: Word)
    ensures MulWord(MulWord(x, FnvPrime), FnvPrimeInverse) == x
  {
    var y := x * FnvPrime;
    var q, r := y / TwoTo64, y % TwoTo64;
    assert y == q * TwoTo64 + r;
    assert FnvPrime * FnvPrimeInverse == 1 + 887285111055 * TwoTo64;
    assert y * FnvPrimeInverse == x + x * 887285111055 * TwoTo64;
    assert r * FnvPrimeInverse == y * FnvPrimeInverse - q * FnvPrimeInverse * TwoTo64;
    Common.DivModUnique(r * FnvPrimeInverse, TwoTo64, x * 887285111055 - q * FnvPrimeInverse, x);
  }

  lemma XorCancel(h: Word, c: Word)
    ensures Bytes.Xor(h, Bytes.Xor(h, c)) == c
  {
    Bytes.XorLaws(h, h, c);
    Bytes.XorLaws(c, 0, 0);
    Bytes.XorLaws(0, c, 0);
  }

  /** One round is injective in the octet: different octets give different states. */
  lemma FnvStepInjective(h: Word, c1: Byte, c2: Byte)
    requires c1 != c2
    ensures FnvStep(h, c1) != FnvStep(h, c2)
  {
    if FnvStep(h, c1) == FnvStep(h, c2) {
      MulByInverse(Bytes.Xor(h, c1));
      MulByInverse(Bytes.Xor(h, c2));
      XorCancel(h, c1);
      XorCancel(h, c2);
      assert false;
    }
  }

  /** Two strings that differ only in their last octet hash differently. */
  lemma FnvLastOctet(h: Word, p: seq<Byte>, c1: Byte, c2: Byte)
    requires c1 != c2
    ensures FnvFold(h, p + [c1]) != FnvFold(h, p + [c2])
  {
    FnvFoldAppend(h, p, [c1]);
    FnvFoldAppend(h, p, [c2]);
    FnvStepInjective(FnvFold(h, p), c1, c2);
  }

  /** Keys whose encodings share the first seven bytes collide only if they are equal. */
  lemma DefaultHashLastByte(k1: Word, k2: Word)
    requires Bytes.Le64(k1)[..7] == Bytes.Le64(k2)[..7] && k1 != k2
    ensures DefaultHash(k1) != DefaultHash(k2)
  {
    var b1, b2 := Bytes.Le64(k1), Bytes.Le64(k2);
    assert b1 == b1[..7] + [b1[7]];
    assert b2 == b2[..7] + [b2[7]];
    FnvLastOctet(FnvOffsetBasis, b1[..7], b1[7], b2[7]);
  }

  /** The insecure PRF depends on key and input only through key ^ x. */
  lemma NonSafePrfMask(key: Word, x: Word, d: Word)
    ensures NonSafePrfEval(key, x) == NonSafePrfEval(x, key)
    ensures NonSafePrfEval(Bytes.Xor(key, d), Bytes.Xor(x, d)) == NonSafePrfEval(key, x)
  {
    Bytes.XorLaws(key, x, 0);
    var kd := Bytes.Xor(key, d);
    // (key ^ d) ^ (x ^ d) == key ^ (d ^ (x ^ d)) == key ^ ((d ^ x) ^ d) == key ^ (x ^ (d ^ d)) == key ^ x
    Bytes.XorLaws(key, d, Bytes.Xor(x, d));
    Bytes.XorLaws(d, x, d);
    Bytes.XorLaws(x, d, d);
    Bytes.XorLaws(d, d, 0);
    Bytes.XorLaws(x, 0, 0);
  }

  // ---------------------------------------------------------------------
  // The AES-MMO PRF input block and keys
  // ---------------------------------------------------------------------

  type Block = b: seq<Byte> | |b| == 16 witness seq(16, _ => 0)

  const TagShift: nat := 0x8_0000_0000

  /**
   * The block encrypted by PRFEvalWithLongKeyAndTag: (tag << 35) + x in
   * uint64 arithmetic, little-endian, followed by eight zero bytes.
   */
  function PrfInput(tag: Word, x: Word): Block {
    Bytes.Le64(PackTag(tag, x)) + seq(8, _ => 0)
  }

  /** (tag << 35) + x in uint64 arithmetic. */
  function PackTag(tag: Word, x: Word): Word {
    ((tag * TagShift) % TwoTo64 + x) % TwoTo64
  }

  /** PRFEvalWithLongKeyAndTag: the first eight bytes of the MMO output, as a uint64. */
  function PrfEvalWithTag(mmo: Block -> Block, tag: Word, x: Word): Word {
    Bytes.Uint64(mmo(PrfInput(tag, x)))
  }

  /** Below the documented bounds (tag < 2^29, x < 2^35) different inputs give different blocks. */
  lemma PrfInputInjective(t1: Word, x1: Word, t2: Word, x2: Word)
    requires t1 < 0x2000_0000 && t2 < 0x2000_0000
    requires x1 < TagShift && x2 < TagShift
    requires PrfInput(t1, x1) == PrfInput(t2, x2)
    ensures t1 == t2 && x1 == x2
  {
    PackNoWrap(t1, x1);
    PackNoWrap(t2, x2);
    assert PrfInput(t1, x1)[..8] == Bytes.Le64(t1 * TagShift + x1);
    assert PrfInput(t2, x2)[..8] == Bytes.Le64(t2 * TagShift + x2);
    Common.DivModUnique(t1 * TagShift + x1, TagShift, t1, x1);
    Common.DivModUnique(t2 * TagShift + x2, TagShift, t2, x2);
  }

  lemma PackNoWrap(t: Word, x: Word)
    requires t < 0x2000_0000 && x < TagShift
    ensures t * TagShift + x < TwoTo64
    ensures PackTag(t, x) == t * TagShift + x
  {
    MulLe(t, 0x1FFF_FFFF, TagShift);
  }

  /** The bounds are tight: tag 2^29 shifts out entirely, and x = 2^35 reaches the tag bits. */
  lemma PrfInputCollisions()
    ensures PrfInput(0x2000_0000, 7) == PrfInput(0, 7)
    ensures PrfInput(0, TagShift) == PrfInput(1, 0)
  {
    assert PackTag(0x2000_0000, 7) == 7 == PackTag(0, 7);
    assert PackTag(0, TagShift) == TagShift == PackTag(1, 0);
  }

  /** RandKey128: the two uint64 draws, little-endian, in bytes 0-7 and 8-15. */
  function RandKey128(a: Word, b: Word): (key: seq<Byte>)
    ensures |key| == 16
    ensures Bytes.Uint64(key[..8]) == a && Bytes.Uint64(key[8..]) == b
  {
    var key := Bytes.Le64(a) + Bytes.Le64(b);
    assert key[..8] == Bytes.Le64(a) && key[8..] == Bytes.Le64(b);
    key
  }

  // ---------------------------------------------------------------------
  // xorSlices
  // ---------------------------------------------------------------------

  /** dst with its first n words xored with those of src. */
  function XorPrefix(dst: seq<Word>, src: seq<Word>, n: nat): (r: seq<Word>)
    requires n <= |dst| && n <= |src|
    ensures |r| == |dst|
  {
    seq(|dst|, i requires 0 <= i < |dst| => if i < n then Bytes.Xor(dst[i], src[i]) else dst[i])
  }

  /**
   * xorSlices(dst, src, n): dst[i] ^= src[i] for i < n; the rest of dst is kept.
   * The routine is assembly; its multiple-of-4 restriction on n is not modelled.
   */
  method XorSlices(dst: array<Word>, src: seq<Word>, n: nat)
    requires n <= dst.Length && n <= |src|
    modifies dst
    ensures dst[..] == XorPrefix(old(dst[..]), src, n)
  {
    for i := 0 to n
      invariant dst[..] == XorPrefix(old(dst[..]), src, i)
    {
      dst[i] := Bytes.Xor(dst[i], src[i]);
    }
  }

  /** Xoring the same words in twice restores dst. */
  lemma XorPrefixTwice(dst: seq<Word>, src: seq<Word>, n: nat)
    requires n <= |dst| && n <= |src|
    ensures XorPrefix(XorPrefix(dst, src, n), src, n) == dst
  {
    forall i | 0 <= i < n
      ensures Bytes.Xor(Bytes.Xor(dst[i], src[i]), src[i]) == dst[i]
    {
      Bytes.XorLaws(dst[i], src[i], src[i]);
      Bytes.XorLaws(src[i], 0, 0);
      Bytes.XorLaws(dst[i], 0, 0);
    }
  }
}

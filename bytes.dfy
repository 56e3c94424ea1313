/**
 * Bytes and 64-bit words as the Go code sees them: little-endian
 * fixed-width encodings (encoding/binary's LittleEndian.PutUint32,
 * Uint32, PutUint64, Uint64) and the bitwise XOR of two words.
 *
 * Values are plain integers in range rather than bit-vectors, so that the
 * integer ids and counters of the callers meet them without conversions.
 */
module Bytes {

  import Common

  type Byte = b: int | 0 <= b < 0x100

  /** The content of a uint32 (for instance the bit pattern of a float32). */
  type Bits32 = x: int | 0 <= x < 0x1_0000_0000

  /** A uint64. */
  type Word = x: int | 0 <= x < 0x1_0000_0000_0000_0000

  function Pow256(k: nat): (p: nat)
    ensures p > 0
  {
    if k == 0 then 1 else 0x100 * Pow256(k - 1)
  }

  function Pow2(k: nat): (p: nat)
    ensures p > 0
  {
    if k == 0 then 1 else 2 * Pow2(k - 1)
  }

  lemma {:induction false} Pow2Bytes(k: nat)
    ensures Pow2(8 * k) == Pow256(k)
  {
    if k > 0 {
      Pow2Bytes(k - 1);
      var j := 8 * (k - 1);
      assert Pow2(j + 8) == 2 * Pow2(j + 7) == 4 * Pow2(j + 6) == 8 * Pow2(j + 5) == 16 * Pow2(j + 4);
      assert Pow2(j + 4) == 2 * Pow2(j + 3) == 4 * Pow2(j + 2) == 8 * Pow2(j + 1) == 16 * Pow2(j);
    }
  }

  lemma WidthFacts()
    ensures Pow256(4) == 0x1_0000_0000
    ensures Pow256(8) == 0x1_0000_0000_0000_0000
    ensures Pow2(64) == 0x1_0000_0000_0000_0000
  {
    Pow2Bytes(8);
  }

  /** The k-byte little-endian encoding of x: least significant byte first. */
  function LeBytes(x: nat, k: nat): (r: seq<Byte>)
    requires x < Pow256(k)
    ensures |r| == k
  {
    if k == 0 then [] else [x % 0x100] + LeBytes(x / 0x100, k - 1)
  }

  /** The unsigned value of a little-endian byte string. */
  function Value(b: seq<Byte>): (x: nat)
    ensures x < Pow256(|b|)
  {
    if b == [] then 0 else b[0] + 0x100 * Value(b[1..])
  }

  /** Reading back what was written gives the value. */
  lemma {:induction false} ValueOfLeBytes(x: nat, k: nat)
    requires x < Pow256(k)
    ensures Value(LeBytes(x, k)) == x
  {
    if k > 0 {
      ValueOfLeBytes(x / 0x100, k - 1);
    }
  }

  /** Writing back what was read gives the bytes. */
  lemma {:induction false} LeBytesOfValue(b: seq<Byte>)
    ensures LeBytes(Value(b), |b|) == b
  {
    if b != [] {
      var v, rest := Value(b), Value(b[1..]);
      assert v == b[0] + 0x100 * rest;
      assert v % 0x100 == b[0] && v / 0x100 == rest;
      LeBytesOfValue(b[1..]);
      assert b == [b[0]] + b[1..];
    }
  }

  /** binary.LittleEndian.PutUint32. */
  function Le32(x: Bits32): (r: seq<Byte>)
    ensures |r| == 4
    ensures Uint32(r) == x
  {
    WidthFacts();
    ValueOfLeBytes(x, 4);
    assert LeBytes(x, 4)[..4] == LeBytes(x, 4);
    LeBytes(x, 4)
  }

  /** binary.LittleEndian.Uint32: the first four bytes, which must exist. */
  function Uint32(b: seq<Byte>): (x: Bits32)
    requires |b| >= 4
  {
    WidthFacts();
    Value(b[..4])
  }

  /** binary.LittleEndian.PutUint64. */
  function Le64(x: Word): (r: seq<Byte>)
    ensures |r| == 8
    ensures Uint64(r) == x
  {
    WidthFacts();
    ValueOfLeBytes(x, 8);
    assert LeBytes(x, 8)[..8] == LeBytes(x, 8);
    LeBytes(x, 8)
  }

  /** binary.LittleEndian.Uint64: the first eight bytes, which must exist. */
  function Uint64(b: seq<Byte>): (x: Word)
    requires |b| >= 8
  {
    WidthFacts();
    Value(b[..8])
  }

  /** Only the first four bytes are read. */
  lemma Uint32Prefix(b: seq<Byte>, c: seq<Byte>)
    requires |b| >= 4 && |c| >= 4 && b[..4] == c[..4]
    ensures Uint32(b) == Uint32(c)
  {
  }

  /** Only the first eight bytes are read. */
  lemma Uint64Prefix(b: seq<Byte>, c: seq<Byte>)
    requires |b| >= 8 && |c| >= 8 && b[..8] == c[..8]
    ensures Uint64(b) == Uint64(c)
  {
  }

  /** Four bytes survive a decode and re-encode. */
  lemma Le32OfUint32(b: seq<Byte>)
    requires |b| == 4
    ensures Le32(Uint32(b)) == b
  {
    WidthFacts();
    assert b[..4] == b;
    LeBytesOfValue(b);
  }

  /** Eight bytes survive a decode and re-encode. */
  lemma Le64OfUint64(b: seq<Byte>)
    requires |b| == 8
    ensures Le64(Uint64(b)) == b
  {
    WidthFacts();
    assert b[..8] == b;
    LeBytesOfValue(b);
  }

  /** Bitwise XOR of the low k bits of a and b. */
  function XorBits(a: nat, b: nat, k: nat): (r: nat)
    ensures r < Pow2(k)
  {
    if k == 0 then 0 else (a + b) % 2 + 2 * XorBits(a / 2, b / 2, k - 1)
  }

  /** The ^ of two uint64 values. */
  function Xor(a: Word, b: Word): Word {
    WidthFacts();
    XorBits(a, b, 64)
  }

  lemma {:induction false} XorBitsComm(a: nat, b: nat, k: nat)
    ensures XorBits(a, b, k) == XorBits(b, a, k)
  {
    if k > 0 {
      XorBitsComm(a / 2, b / 2, k - 1);
    }
  }

  lemma {:induction false} XorBitsSelf(a: nat, k: nat)
    ensures XorBits(a, a, k) == 0
  {
    if k > 0 {
      XorBitsSelf(a / 2, k - 1);
    }
  }

  lemma {:induction false} XorBitsZero(a: nat, k: nat)
    requires a < Pow2(k)
    ensures XorBits(a, 0, k) == a
  {
    if k > 0 {
      XorBitsZero(a / 2, k - 1);
    }
  }

  lemma XorBitsParts(a: nat, b: nat, k: nat)
    requires k > 0
    ensures XorBits(a, b, k) % 2 == (a + b) % 2
    ensures XorBits(a, b, k) / 2 == XorBits(a / 2, b / 2, k - 1)
  {
  }

  lemma XorBitsUnfold(a: nat, b: nat, k: nat)
    requires k > 0
    ensures XorBits(a, b, k) == (a + b) % 2 + 2 * XorBits(a / 2, b / 2, k - 1)
  {
  }

  lemma Parity(x: nat, y: nat, a: nat, b: nat, c: nat)
    requires x % 2 == (a + b) % 2 && y % 2 == (b + c) % 2
    ensures (x + c) % 2 == (a + y) % 2
  {
  }

  lemma {:induction false} XorBitsAssoc(a: nat, b: nat, c: nat, k: nat)
    ensures XorBits(XorBits(a, b, k), c, k) == XorBits(a, XorBits(b, c, k), k)
  {
    if k > 0 {
      var ab, bc := XorBits(a, b, k), XorBits(b, c, k);
      XorBitsParts(a, b, k);
      XorBitsParts(b, c, k);
      XorBitsUnfold(ab, c, k);
      XorBitsUnfold(a, bc, k);
      Parity(ab, bc, a, b, c);
      XorBitsAssoc(a / 2, b / 2, c / 2, k - 1);
    }
  }

  /** Bitwise AND of the low k bits of a and b. */
  function AndBits(a: nat, b: nat, k: nat): (r: nat)
    ensures r < Pow2(k)
  {
    if k == 0 then 0 else (a % 2) * (b % 2) + 2 * AndBits(a / 2, b / 2, k - 1)
  }

  /** The & of two uint64 values. */
  function And(a: Word, b: Word): Word {
    WidthFacts();
    AndBits(a, b, 64)
  }

  lemma {:induction false} AndBitsZero(a: nat, k: nat)
    ensures AndBits(a, 0, k) == 0
  {
    if k > 0 {
      AndBitsZero(a / 2, k - 1);
    }
  }

  lemma HalfMod(x: nat, p: nat)
    requires p > 0
    ensures x % (2 * p) == x % 2 + 2 * ((x / 2) % p)
  {
    var q, r := x / (2 * p), x % (2 * p);
    assert x == q * (2 * p) + r;
    Common.DivModUnique(x, 2, q * p + r / 2, r % 2);
    Common.DivModUnique(x / 2, p, q, r / 2);
  }

  /** Masking with 2^j - 1 keeps the low j bits: the remainder modulo 2^j. */
  lemma {:induction false} AndLowMask(x: nat, j: nat, k: nat)
    requires j <= k
    ensures AndBits(x, Pow2(j) - 1, k) == x % Pow2(j)
  {
    if j == 0 {
      AndBitsZero(x, k);
    } else {
      AndLowMask(x / 2, j - 1, k - 1);
      assert (Pow2(j) - 1) % 2 == 1 && (Pow2(j) - 1) / 2 == Pow2(j - 1) - 1;
      HalfMod(x, Pow2(j - 1));
    }
  }

  /** x & (c - 1) for a power of two c of at most 64 bits is x mod c. */
  lemma AndMask(x: Word, j: nat)
    requires j <= 64
    ensures Pow2(j) - 1 < 0x1_0000_0000_0000_0000
    ensures And(x, Pow2(j) - 1) == x % Pow2(j)
  {
    WidthFacts();
    Pow2Mono(j, 64);
    AndLowMask(x, j, 64);
  }

  lemma {:induction false} Pow2Mono(i: nat, j: nat)
    requires i <= j
    ensures Pow2(i) <= Pow2(j)
  {
    if i < j {
      Pow2Mono(i, j - 1);
    }
  }

  /** The word laws the parity bookkeeping relies on: a group in which every word is its own inverse. */
  lemma XorLaws(a: Word, b: Word, c: Word)
    ensures Xor(a, b) == Xor(b, a)
    ensures Xor(a, a) == 0
    ensures Xor(a, 0) == a
    ensures Xor(Xor(a, b), c) == Xor(a, Xor(b, c))
  {
    WidthFacts();
    XorBitsComm(a, b, 64);
    XorBitsSelf(a, 64);
    XorBitsZero(a, 64);
    XorBitsAssoc(a, b, c, 64);
  }
}

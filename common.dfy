/**
 * Small shared vocabulary: optional values, results with an error part,
 * and the integer square root that several components use to size things
 * ("int(sqrt(n))" in the sources).
 */
module Common {

  datatype Option<T> = None | Some(value: T)

  /** A value or the error that the source raises or returns instead. */
  datatype Result<T, E> = Ok(value: T) | Err(error: E)

  /** A floating-point quotient that is either a number or NaN (0/0). */
  datatype Ratio = Finite(value: real) | NaN

  function Min(a: nat, b: nat): nat { if a <= b then a else b }

  function Sum(xs: seq<nat>): nat {
    if xs == [] then 0 else Sum(xs[..|xs| - 1]) + xs[|xs| - 1]
  }

  function SumReal(xs: seq<real>): real {
    if xs == [] then 0.0 else SumReal(xs[..|xs| - 1]) + xs[|xs| - 1]
  }

  /** The arithmetic mean of a non-empty sequence of scores. */
  function Mean(xs: seq<real>): real
    requires |xs| > 0
  {
    SumReal(xs) / |xs| as real
  }

  lemma {:induction false} SumConst(xs: seq<real>, v: real)
    requires forall i :: 0 <= i < |xs| ==> xs[i] == v
    ensures SumReal(xs) == |xs| as real * v
  {
    if xs != [] {
      SumConst(xs[..|xs| - 1], v);
    }
  }

  /** The mean of scores that all equal v is v. */
  lemma MeanConst(xs: seq<real>, v: real)
    requires |xs| > 0 && forall i :: 0 <= i < |xs| ==> xs[i] == v
    ensures Mean(xs) == v
  {
    SumConst(xs, v);
  }

  lemma {:induction false} SumBounds(xs: seq<real>, lo: real, hi: real)
    requires forall i :: 0 <= i < |xs| ==> lo <= xs[i] <= hi
    ensures |xs| as real * lo <= SumReal(xs) <= |xs| as real * hi
  {
    if xs != [] {
      SumBounds(xs[..|xs| - 1], lo, hi);
    }
  }

  /** Scores that all lie in [lo, hi] have their mean in [lo, hi]. */
  lemma MeanBounds(xs: seq<real>, lo: real, hi: real)
    requires |xs| > 0 && forall i :: 0 <= i < |xs| ==> lo <= xs[i] <= hi
    ensures lo <= Mean(xs) <= hi
  {
    SumBounds(xs, lo, hi);
    var n := |xs| as real;
    assert Mean(xs) * n == SumReal(xs);
  }

  /** A part over a whole lies in [0, 1] and is 1 exactly when it is all of it. */
  lemma Fraction(a: nat, b: nat)
    requires 0 < b && a <= b
    ensures 0.0 <= a as real / b as real <= 1.0
    ensures a as real / b as real == 1.0 <==> a == b
  {
    var r := b as real;
    var q := a as real / r;
    assert q * r == a as real;
    assert (q - 1.0) * r == a as real - r;
  }

  /** floor(sqrt(n)): the largest r with r * r <= n. */
  function ISqrt(n: nat): (r: nat)
    ensures r * r <= n < (r + 1) * (r + 1)
  {
    if n == 0 then 0
    else
      var s := ISqrt(n - 1);
      if (s + 1) * (s + 1) <= n then s + 1 else s
  }

  /** The floor square root is the only value with the bracketing property. */
  lemma ISqrtUnique(n: nat, r: nat)
    requires r * r <= n < (r + 1) * (r + 1)
    ensures r == ISqrt(n)
  {
    var s := ISqrt(n);
    if r < s {
      assert r + 1 <= s;
      MulMono(r + 1, s);
      assert false;
    } else if s < r {
      assert s + 1 <= r;
      MulMono(s + 1, r);
      assert false;
    }
  }

  lemma MulMono(a: nat, b: nat)
    requires a <= b
    ensures a * a <= b * b
  {
    assert a * a <= a * b <= b * b;
  }

  lemma ModAddSelf(a: nat, k: nat)
    requires k > 0
    ensures (a + k) % k == a % k
  {
    var q, r := a / k, a % k;
    assert a == q * k + r;
    assert a + k == (q + 1) * k + r;
    DivModUnique(a + k, k, q + 1, r);
  }

  /** Division and remainder are determined by a == q * k + r with 0 <= r < k. */
  lemma DivModUnique(a: int, k: int, q: int, r: int)
    requires k > 0 && 0 <= r < k && a == q * k + r
    ensures a / k == q && a % k == r
  {
    var q', r' := a / k, a % k;
    assert a == q' * k + r';
    if q > q' {
      MulAtLeast(q - q', k);
      Distrib(q, q', k);
      assert false;
    } else if q < q' {
      MulAtLeast(q' - q, k);
      Distrib(q', q, k);
      assert false;
    }
  }

  lemma MulAtLeast(d: int, k: int)
    requires d >= 1 && k >= 0
    ensures d * k >= k
  {
  }

  lemma Distrib(x: int, y: int, k: int)
    ensures (x - y) * k == x * k - y * k
  {
  }

  /** x is a power of two: 1, 2, 4, ... */
  predicate IsPow2(x: nat)
    decreases x
  {
    x == 1 || (x >= 2 && x % 2 == 0 && IsPow2(x / 2))
  }

  /** ceil(a / b) for positive b. */
  function CeilDiv(a: nat, b: nat): (r: nat)
    requires b > 0
    ensures r * b >= a
    ensures r == 0 || (r - 1) * b < a
  {
    (a + b - 1) / b
  }

  /** The smallest multiple of k that is at least x ("(x + k - 1) / k * k"). */
  function RoundUp(x: nat, k: nat): (r: nat)
    requires k > 0
    ensures r % k == 0
    ensures x <= r < x + k
  {
    var q := (x + k - 1) / k;
    assert x + k - 1 == q * k + (x + k - 1) % k;
    MulMod(q, k);
    q * k
  }

  lemma MulMod(q: nat, k: nat)
    requires k > 0
    ensures (q * k) % k == 0
  {
    if q > 0 {
      MulMod(q - 1, k);
      var a := (q - 1) * k;
      assert q * k == a + k;
      ModAddSelf(a, k);
    }
  }
}

/**
 * Ordering by a real-valued key. The sources sort with library routines
 * (numpy's argsort, Go's sort.Slice and sort.Sort) that are not stable;
 * the model sorts by insertion and promises only what those routines
 * promise: the result is ordered by the key and is a permutation of the
 * input. Distances are such keys: an uninterpreted real per element.
 */
module Sorting {

  /** Keys never decrease along s. */
  ghost predicate SortedBy<T>(s: seq<T>, key: T -> real) {
    forall i, j :: 0 <= i < j < |s| ==> key(s[i]) <= key(s[j])
  }

  function Insert<T>(x: T, s: seq<T>, key: T -> real): (r: seq<T>)
    requires SortedBy(s, key)
    ensures |r| == |s| + 1
    ensures multiset(r) == multiset(s) + multiset{x}
    ensures SortedBy(r, key)
  {
    if s == [] || key(x) <= key(s[0]) then
      [x] + s
    else
      var t := Insert(x, s[1..], key);
      assert s == [s[0]] + s[1..];
      LowerBound(x, s[1..], t, key, key(s[0]));
      [s[0]] + t
  }

  lemma LowerBound<T>(x: T, s: seq<T>, t: seq<T>, key: T -> real, lo: real)
    requires multiset(t) == multiset(s) + multiset{x}
    requires lo <= key(x)
    requires forall i :: 0 <= i < |s| ==> lo <= key(s[i])
    ensures forall i :: 0 <= i < |t| ==> lo <= key(t[i])
  {
    forall i | 0 <= i < |t| ensures lo <= key(t[i]) {
      assert t[i] in multiset(t);
      if t[i] != x {
        assert t[i] in multiset(s);
        var j :| 0 <= j < |s| && s[j] == t[i];
      }
    }
  }

  /** s ordered by key: sorted, and a permutation of s. */
  function SortByKey<T>(s: seq<T>, key: T -> real): (r: seq<T>)
    ensures |r| == |s|
    ensures multiset(r) == multiset(s)
    ensures SortedBy(r, key)
  {
    if s == [] then []
    else
      assert s == s[..|s| - 1] + [s[|s| - 1]];
      Insert(s[|s| - 1], SortByKey(s[..|s| - 1], key), key)
  }

  /** The first index at which key takes its least value over s. */
  function ArgMin<T>(s: seq<T>, key: T -> real): (r: nat)
    requires |s| > 0
    ensures r < |s|
    ensures forall j :: 0 <= j < |s| ==> key(s[r]) <= key(s[j])
    ensures forall j :: 0 <= j < r ==> key(s[r]) < key(s[j])
  {
    if |s| == 1 then 0
    else
      var m := ArgMin(s[1..], key);
      if key(s[0]) <= key(s[1..][m]) then 0 else m + 1
  }

  /** The indices 0, 1, ..., n - 1 in order. */
  function Range(n: nat): (r: seq<nat>)
    ensures |r| == n
    ensures forall i :: 0 <= i < n ==> r[i] == i
  {
    seq(n, i requires 0 <= i < n => i as nat)
  }

  lemma {:induction false} RangeCount(n: nat, x: nat)
    ensures multiset(Range(n))[x] == if x < n then 1 else 0
  {
    if n > 0 {
      RangeCount(n - 1, x);
      assert Range(n) == Range(n - 1) + [n - 1];
    }
  }

  /** A sequence with the multiset of 0..n-1 lists each of 0..n-1 exactly once. */
  lemma PermutationOfRange(r: seq<nat>, n: nat)
    requires multiset(r) == multiset(Range(n))
    ensures |r| == n
    ensures forall i :: 0 <= i < |r| ==> r[i] < n
    ensures forall i, j :: 0 <= i < j < |r| ==> r[i] != r[j]
    ensures forall x :: 0 <= x < n ==> x in r
  {
    assert |r| == |multiset(r)| == |multiset(Range(n))| == n;
    forall i | 0 <= i < |r| ensures r[i] < n {
      assert r[i] in multiset(r);
      RangeCount(n, r[i]);
    }
    forall i, j | 0 <= i < j < |r| ensures r[i] != r[j] {
      if r[i] == r[j] {
        assert r == r[..i] + [r[i]] + r[i + 1..j] + [r[j]] + r[j + 1..];
        assert multiset(r)[r[i]] >= 2;
        RangeCount(n, r[i]);
      }
    }
    forall x | 0 <= x < n ensures x in r {
      RangeCount(n, x);
      assert x in multiset(r);
    }
  }

  /**
   * numpy's argsort: the positions of s ordered by the key of the element
   * found there. Each position occurs exactly once; the order among equal
   * keys is not promised.
   */
  function ArgSort<T>(s: seq<T>, key: T -> real): (r: seq<nat>)
    ensures multiset(r) == multiset(Range(|s|))
    ensures |r| == |s|
    ensures forall i :: 0 <= i < |r| ==> r[i] < |s|
    ensures forall i, j :: 0 <= i < j < |r| ==> key(s[r[i]]) <= key(s[r[j]])
  {
    var posKey := (p: nat) => if p < |s| then key(s[p]) else 0.0;
    var r := SortByKey(Range(|s|), posKey);
    PermutationOfRange(r, |s|);
    assert forall i, j :: 0 <= i < j < |r| ==> posKey(r[i]) <= posKey(r[j]);
    r
  }
}

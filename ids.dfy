/**
 * Facts about rows of ids shared by the recall metrics and the graph
 * construction: duplicate freedom, counting the distinct ids of one row
 * that occur in another, and removing repeated ids while keeping the
 * first occurrence of each.
 */
module Ids {

  predicate NoDuplicates<T(==)>(s: seq<T>) {
    forall i, j :: 0 <= i < j < |s| ==> s[i] != s[j]
  }

  /**
   * The number of distinct values of s that occur in t, counted at the
   * first occurrence of each value in s.
   */
  function DistinctHits<T(==)>(s: seq<T>, t: seq<T>): (r: nat)
    ensures r <= |s|
  {
    if s == [] then 0
    else
      var last := s[|s| - 1];
      var prior := s[..|s| - 1];
      DistinctHits(prior, t) + (if last in t && last !in prior then 1 else 0)
  }

  /** A row without repeated values hits every one of its values that t holds. */
  lemma {:induction false} DistinctHitsAll<T>(s: seq<T>, t: seq<T>)
    requires NoDuplicates(s) && forall x :: x in s ==> x in t
    ensures DistinctHits(s, t) == |s|
  {
    if s != [] {
      var prior := s[..|s| - 1];
      DistinctHitsAll(prior, t);
      assert s[|s| - 1] !in prior;
    }
  }

  /** A row sharing nothing with t hits nothing. */
  lemma {:induction false} DistinctHitsNone<T>(s: seq<T>, t: seq<T>)
    requires forall x :: x in s ==> x !in t
    ensures DistinctHits(s, t) == 0
  {
    if s != [] {
      DistinctHitsNone(s[..|s| - 1], t);
    }
  }

  /** Repeated values are counted once: the count on s is the count on Dedup(s). */
  lemma {:induction false} DistinctHitsDedup<T>(s: seq<T>, t: seq<T>)
    ensures DistinctHits(s, t) == DistinctHits(Dedup(s), t)
  {
    if s != [] {
      var prior := s[..|s| - 1];
      var last := s[|s| - 1];
      DistinctHitsDedup(prior, t);
      DedupElements(prior);
      var d := Dedup(prior);
      if last !in prior {
        assert Dedup(s) == d + [last];
        assert Dedup(s)[..|Dedup(s)| - 1] == d;
      }
    }
  }

  /** The row with every value after its first occurrence removed, in the original order. */
  function Dedup<T(==)>(s: seq<T>): (r: seq<T>)
    ensures |r| <= |s|
  {
    if s == [] then []
    else
      var prior := s[..|s| - 1];
      var last := s[|s| - 1];
      if last in prior then Dedup(prior) else Dedup(prior) + [last]
  }

  lemma {:induction false} DedupElements<T>(s: seq<T>)
    ensures forall x :: x in Dedup(s) <==> x in s
    ensures NoDuplicates(Dedup(s))
  {
    if s != [] {
      var prior := s[..|s| - 1];
      DedupElements(prior);
      assert s == prior + [s[|s| - 1]];
    }
  }

  /** A row without repeated values is left as it is. */
  lemma {:induction false} DedupOfDistinct<T>(s: seq<T>)
    requires NoDuplicates(s)
    ensures Dedup(s) == s
  {
    if s != [] {
      var prior := s[..|s| - 1];
      DedupOfDistinct(prior);
      assert s[|s| - 1] !in prior;
      assert s == prior + [s[|s| - 1]];
    }
  }

  /** Removing repeats twice removes nothing more. */
  lemma DedupIdempotent<T>(s: seq<T>)
    ensures Dedup(Dedup(s)) == Dedup(s)
  {
    DedupElements(s);
    DedupOfDistinct(Dedup(s));
  }

  /** A row in which no id occurs twice has no repeats. */
  lemma {:induction false} DistinctCount<T>(s: seq<T>)
    requires forall x :: multiset(s)[x] <= 1
    ensures NoDuplicates(s)
  {
    if s != [] {
      var prior := s[..|s| - 1];
      var last := s[|s| - 1];
      assert s == prior + [last];
      assert multiset(s) == multiset(prior) + multiset{last};
      forall x ensures multiset(prior)[x] <= 1 {
        assert multiset(s)[x] == multiset(prior)[x] + multiset{last}[x];
      }
      DistinctCount(prior);
      assert multiset(s)[last] == multiset(prior)[last] + 1;
    }
  }

  lemma {:induction false} DistinctMultiplicity<T>(s: seq<T>)
    requires NoDuplicates(s)
    ensures forall x :: multiset(s)[x] <= 1
  {
    if s != [] {
      var prior := s[..|s| - 1];
      DistinctMultiplicity(prior);
      assert s == prior + [s[|s| - 1]];
      assert s[|s| - 1] !in prior;
    }
  }

  /** Whatever keeps part of a row without repeats has no repeats either. */
  lemma SubDistinct<T>(a: seq<T>, b: seq<T>)
    requires multiset(a) <= multiset(b) && NoDuplicates(b)
    ensures NoDuplicates(a)
  {
    DistinctMultiplicity(b);
    DistinctCount(a);
  }

  /** s without any occurrence of x. */
  function Remove(s: seq<nat>, x: nat): (r: seq<nat>)
    ensures forall y :: y in r <==> y in s && y != x
    ensures x in s ==> |r| < |s|
    ensures |r| <= |s|
  {
    if s == [] then []
    else
      var rest := Remove(s[1..], x);
      assert s == [s[0]] + s[1..];
      if s[0] == x then rest else [s[0]] + rest
  }

  /** Fewer than n values leave some id below n unused. */
  lemma {:induction false} FreeId(taken: seq<nat>, n: nat) returns (v: nat)
    requires |taken| < n
    ensures v < n && v !in taken
    decreases n
  {
    if n - 1 !in taken {
      v := n - 1;
    } else {
      var rest := Remove(taken, n - 1);
      v := FreeId(rest, n - 1);
    }
  }
}

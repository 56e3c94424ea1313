/**
 * The cluster-contiguous layout of the single-probe IVF index in
 * cluster-search.py: counts of each label (numpy's bincount), the
 * offsets that follow from them (a leading 0 and the running sums) and
 * the facts that make the layout usable: the offsets bracket exactly the
 * positions of each label in the label-sorted order.
 */
module ClusterLayout {
  import opened Common

  /** How often c occurs in s. */
  function Count(s: seq<nat>, c: nat): nat {
    multiset(s)[c]
  }

  /** How many elements of s are below c. */
  function CountBelow(s: seq<nat>, c: nat): (r: nat)
    ensures r <= |s|
  {
    if s == [] then 0
    else CountBelow(s[..|s| - 1], c) + (if s[|s| - 1] < c then 1 else 0)
  }

  /** max(s) + 1, and 0 for the empty sequence: the length of bincount(s). */
  function MaxPlusOne(s: seq<nat>): (r: nat)
    ensures forall i :: 0 <= i < |s| ==> s[i] < r
    ensures r == 0 <==> |s| == 0
  {
    if s == [] then 0
    else
      var m := MaxPlusOne(s[..|s| - 1]);
      assert s == s[..|s| - 1] + [s[|s| - 1]];
      if s[|s| - 1] + 1 > m then s[|s| - 1] + 1 else m
  }

  /** numpy's bincount: entry c is the number of occurrences of c. */
  function BinCount(s: seq<nat>): (r: seq<nat>)
    ensures |r| == MaxPlusOne(s)
  {
    seq(MaxPlusOne(s), c requires 0 <= c => Count(s, c))
  }

  /** concatenate(([0], cumsum(counts))). */
  function PrefixOffsets(counts: seq<nat>): (r: seq<nat>)
    ensures |r| == |counts| + 1
  {
    seq(|counts| + 1, i requires 0 <= i <= |counts| => Sum(counts[..i]))
  }

  /** The offsets the layout builder stores for a sequence of labels. */
  function Offsets(labels: seq<nat>): (r: seq<nat>)
    ensures |r| == MaxPlusOne(labels) + 1
  {
    PrefixOffsets(BinCount(labels))
  }

  ghost predicate NonDecreasing(s: seq<nat>) {
    forall i, j :: 0 <= i <= j < |s| ==> s[i] <= s[j]
  }

  lemma {:induction false} CountBelowStep(s: seq<nat>, c: nat)
    ensures CountBelow(s, c + 1) == CountBelow(s, c) + Count(s, c)
  {
    if s != [] {
      var t := s[..|s| - 1];
      assert s == t + [s[|s| - 1]];
      CountBelowStep(t, c);
    }
  }

  lemma {:induction false} CountBelowAll(s: seq<nat>, c: nat)
    requires forall i :: 0 <= i < |s| ==> s[i] < c
    ensures CountBelow(s, c) == |s|
  {
    if s != [] {
      CountBelowAll(s[..|s| - 1], c);
    }
  }

  lemma {:induction false} CountBelowZero(s: seq<nat>)
    ensures CountBelow(s, 0) == 0
  {
    if s != [] {
      CountBelowZero(s[..|s| - 1]);
    }
  }

  lemma {:induction false} CountBelowMono(s: seq<nat>, c: nat, d: nat)
    requires c <= d
    ensures CountBelow(s, c) <= CountBelow(s, d)
  {
    if s != [] {
      CountBelowMono(s[..|s| - 1], c, d);
    }
  }

  /** The first c running sums of bincount(s) count the elements below c. */
  lemma {:induction false} SumCountsIsCountBelow(s: seq<nat>, c: nat)
    requires c <= MaxPlusOne(s)
    ensures Sum(BinCount(s)[..c]) == CountBelow(s, c)
  {
    if c == 0 {
      CountBelowZero(s);
    } else {
      SumCountsIsCountBelow(s, c - 1);
      var b := BinCount(s);
      assert b[..c][..c - 1] == b[..c - 1];
      assert b[..c][c - 1] == Count(s, c - 1);
      CountBelowStep(s, c - 1);
    }
  }

  /**
   * The offsets derived from the labels: they start at 0, never decrease,
   * end at the number of labels, and consecutive offsets differ by the
   * number of vectors carrying that label.
   */
  lemma OffsetsFacts(labels: seq<nat>)
    ensures Offsets(labels)[0] == 0
    ensures Offsets(labels)[|Offsets(labels)| - 1] == |labels|
    ensures forall c :: 0 <= c < MaxPlusOne(labels) ==>
      Offsets(labels)[c + 1] == Offsets(labels)[c] + Count(labels, c)
    ensures NonDecreasing(Offsets(labels))
    ensures forall c :: 0 <= c <= MaxPlusOne(labels) ==> Offsets(labels)[c] == CountBelow(labels, c)
  {
    var o := Offsets(labels);
    var m := MaxPlusOne(labels);
    forall c | 0 <= c <= m ensures o[c] == CountBelow(labels, c) {
      SumCountsIsCountBelow(labels, c);
    }
    CountBelowAll(labels, m);
    forall c | 0 <= c < m ensures o[c + 1] == o[c] + Count(labels, c) {
      CountBelowStep(labels, c);
    }
    forall i, j | 0 <= i <= j < |o| ensures o[i] <= o[j] {
      CountBelowMono(labels, i, j);
    }
  }

  /** In a sorted label sequence the labels below c occupy exactly a prefix. */
  lemma {:induction false} SortedPrefix(s: seq<nat>, c: nat, p: nat)
    requires NonDecreasing(s)
    requires p < |s|
    ensures p < CountBelow(s, c) <==> s[p] < c
  {
    var t := s[..|s| - 1];
    var x := s[|s| - 1];
    if x < c {
      CountBelowAll(s, c);
    } else if p < |t| {
      SortedPrefix(t, c, p);
    } else {
      assert CountBelow(s, c) == CountBelow(t, c);
    }
  }

  /**
   * With labels in ascending order, the slots between offsets[c] and
   * offsets[c + 1] are exactly those that hold label c.
   */
  lemma ClusterSlots(sortedLabels: seq<nat>, c: nat, p: nat)
    requires NonDecreasing(sortedLabels)
    requires c < MaxPlusOne(sortedLabels) && p < |sortedLabels|
    ensures Offsets(sortedLabels)[c] <= p < Offsets(sortedLabels)[c + 1] <==> sortedLabels[p] == c
  {
    OffsetsFacts(sortedLabels);
    SortedPrefix(sortedLabels, c, p);
    SortedPrefix(sortedLabels, c + 1, p);
  }
}

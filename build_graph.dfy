/**
 * Graph construction helpers of the graph index builder in
 * graphann/build_graph.go: the two robust-prune selection rules (the
 * pruning step of DiskANN), the clean-up loops that follow the
 * HNSW-seeded construction (removing repeated edges, counting inbound
 * edges, sampling edges, filling every vertex up to m out-edges) and the
 * recall metric.
 *
 * Distances are uninterpreted: dist(a, b) stands for the float distance
 * between the vectors of vertices a and b, compared as reals.
 */
module BuildGraph {
  import opened Common
  import opened Sorting
  import opened Ids

  type Dist = (nat, nat) -> real

  /** The sort key of robustPrune: the distance from u. */
  function DistTo(dist: Dist, u: nat): nat -> real {
    (x: nat) => dist(u, x)
  }

  /**
   * The α-test of robust pruning: v, at distance duv from u, survives the
   * accepted vertices when none of them is α-closer to v than u is.
   */
  predicate Compatible(dist: Dist, alpha: real, accept: seq<nat>, v: nat, duv: real) {
    forall j :: 0 <= j < |accept| ==> !(dist(accept[j], v) * alpha < duv)
  }

  /**
   * The selection loop of robustPrune from position i of the sorted
   * candidates on: a candidate that passes the α-test is accepted, and the
   * loop stops as soon as m are accepted; any other is discarded.
   */
  function Scan(dist: Dist, u: nat, alpha: real, m: nat, sorted: seq<nat>, i: nat,
                accept: seq<nat>, discarded: seq<nat>): (r: (seq<nat>, seq<nat>))
    requires i <= |sorted|
    decreases |sorted| - i
  {
    if i == |sorted| then (accept, discarded)
    else
      var v := sorted[i];
      if Compatible(dist, alpha, accept, v, dist(u, v)) then
        if |accept| + 1 == m then (accept + [v], discarded)
        else Scan(dist, u, alpha, m, sorted, i + 1, accept + [v], discarded)
      else Scan(dist, u, alpha, m, sorted, i + 1, accept, discarded + [v])
  }

  /** The accepted list topped up with discarded candidates, in order, until it holds m. */
  function TopUp(accept: seq<nat>, discarded: seq<nat>, m: nat): seq<nat> {
    if |accept| < m then accept + discarded[..Min(m - |accept|, |discarded|)] else accept
  }

  /** The candidates robustPrune scans: sorted by distance from u. */
  function SortedCandidates(dist: Dist, u: nat, candidates: seq<nat>): (r: seq<nat>)
    ensures |r| == |candidates| && multiset(r) == multiset(candidates)
    ensures SortedBy(r, DistTo(dist, u))
  {
    SortByKey(candidates, DistTo(dist, u))
  }

  /** The candidates robustPrune accepts, and those it discards, when it has to prune. */
  function Selection(dist: Dist, u: nat, candidates: seq<nat>, m: nat, alpha: real): (seq<nat>, seq<nat>) {
    Scan(dist, u, alpha, m, SortedCandidates(dist, u, candidates), 0, [], [])
  }

  /** What robustPrune returns. */
  function Prune(dist: Dist, u: nat, candidates: seq<nat>, m: nat, alpha: real): seq<nat> {
    if |candidates| <= m then candidates
    else
      var s := Selection(dist, u, candidates, m, alpha);
      TopUp(s.0, s.1, m)
  }

  /** robustPrune, with its loops: the α-test scan, then the top-up from the discarded list. */
  method RobustPrune(dist: Dist, u: nat, candidates: seq<nat>, m: nat, alpha: real) returns (ret: seq<nat>)
    ensures ret == Prune(dist, u, candidates, m, alpha)
  {
    if |candidates| <= m {
      return candidates;
    }
    var sorted := SortedCandidates(dist, u, candidates);
    var accept: seq<nat> := [];
    var discarded: seq<nat> := [];
    var i := 0;
    while i < |sorted|
      invariant 0 <= i <= |sorted|
      invariant Scan(dist, u, alpha, m, sorted, i, accept, discarded) == Selection(dist, u, candidates, m, alpha)
    {
      var v := sorted[i];
      var ok := AlphaTest(dist, alpha, accept, v, dist(u, v));
      if ok {
        accept := accept + [v];
        if |accept| == m {
          break;
        }
      } else {
        discarded := discarded + [v];
      }
      i := i + 1;
    }
    ret := TopUpLoop(accept, discarded, m);
  }

  /** The inner loop of robustPrune: stops at the first accepted vertex that occludes v. */
  method AlphaTest(dist: Dist, alpha: real, accept: seq<nat>, v: nat, duv: real) returns (ok: bool)
    ensures ok == Compatible(dist, alpha, accept, v, duv)
  {
    var j := 0;
    while j < |accept|
      invariant 0 <= j <= |accept|
      invariant forall l :: 0 <= l < j ==> !(dist(accept[l], v) * alpha < duv)
    {
      if dist(accept[j], v) * alpha < duv {
        return false;
      }
      j := j + 1;
    }
    return true;
  }

  /** The top-up loop of robustPrune: append discarded candidates until m are held. */
  method TopUpLoop(accepted: seq<nat>, discarded: seq<nat>, m: nat) returns (accept: seq<nat>)
    ensures accept == TopUp(accepted, discarded, m)
  {
    accept := accepted;
    if |accept| < m {
      var i := 0;
      while i < |discarded|
        invariant 0 <= i <= |discarded| && i < m - |accepted|
        invariant accept == accepted + discarded[..i]
      {
        accept := accept + [discarded[i]];
        if |accept| == m {
          break;
        }
        i := i + 1;
      }
    }
  }

  lemma PrefixMultiset(s: seq<nat>, i: nat)
    requires i <= |s|
    ensures multiset(s[..i]) <= multiset(s)
  {
    assert s == s[..i] + s[i..];
  }

  /** Candidate i joins either side of the split of the first i. */
  lemma SplitStep(sorted: seq<nat>, i: nat, accept: seq<nat>, discarded: seq<nat>)
    requires i < |sorted| && multiset(accept) + multiset(discarded) == multiset(sorted[..i])
    ensures multiset(accept + [sorted[i]]) + multiset(discarded) == multiset(sorted[..i + 1])
    ensures multiset(accept) + multiset(discarded + [sorted[i]]) == multiset(sorted[..i + 1])
  {
    assert sorted[..i + 1] == sorted[..i] + [sorted[i]];
  }

  /**
   * What the scan keeps track of: accepted and discarded candidates split
   * the scanned ones, the accepted never exceed m, and the lists only grow.
   */
  lemma {:induction false} ScanSplits(dist: Dist, u: nat, alpha: real, m: nat, sorted: seq<nat>, i: nat,
                                      accept: seq<nat>, discarded: seq<nat>)
    requires i <= |sorted|
    requires multiset(accept) + multiset(discarded) == multiset(sorted[..i])
    requires m > 0 ==> |accept| < m
    ensures var r := Scan(dist, u, alpha, m, sorted, i, accept, discarded);
      && multiset(r.0) + multiset(r.1) <= multiset(sorted)
      && (|r.0| == m || multiset(r.0) + multiset(r.1) == multiset(sorted))
      && (m > 0 ==> |r.0| <= m)
      && accept <= r.0 && discarded <= r.1
    decreases |sorted| - i
  {
    if i == |sorted| {
      assert sorted[..i] == sorted;
    } else {
      var v := sorted[i];
      SplitStep(sorted, i, accept, discarded);
      if Compatible(dist, alpha, accept, v, dist(u, v)) {
        if |accept| + 1 == m {
          PrefixMultiset(sorted, i + 1);
        } else {
          ScanSplits(dist, u, alpha, m, sorted, i + 1, accept + [v], discarded);
        }
      } else {
        ScanSplits(dist, u, alpha, m, sorted, i + 1, accept, discarded + [v]);
      }
    }
  }

  /** Failing the α-test against some vertices means failing it against more. */
  lemma IncompatibleGrows(dist: Dist, alpha: real, accept: seq<nat>, more: seq<nat>, v: nat, duv: real)
    requires accept <= more && !Compatible(dist, alpha, accept, v, duv)
    ensures !Compatible(dist, alpha, more, v, duv)
  {
    var j :| 0 <= j < |accept| && dist(accept[j], v) * alpha < duv;
    assert more[j] == accept[j];
  }

  /** The accepted ones passed the α-test against those accepted before them; the discarded ones fail it. */
  ghost predicate AlphaRule(dist: Dist, u: nat, alpha: real, accept: seq<nat>, discarded: seq<nat>) {
    && (forall p :: 0 <= p < |accept| ==> Compatible(dist, alpha, accept[..p], accept[p], dist(u, accept[p])))
    && (forall p :: 0 <= p < |discarded| ==> !Compatible(dist, alpha, accept, discarded[p], dist(u, discarded[p])))
  }

  lemma {:induction false} ScanKeepsRule(dist: Dist, u: nat, alpha: real, m: nat, sorted: seq<nat>, i: nat,
                                         accept: seq<nat>, discarded: seq<nat>)
    requires i <= |sorted|
    requires AlphaRule(dist, u, alpha, accept, discarded)
    ensures var r := Scan(dist, u, alpha, m, sorted, i, accept, discarded);
      AlphaRule(dist, u, alpha, r.0, r.1)
    decreases |sorted| - i
  {
    if i < |sorted| {
      var v := sorted[i];
      if Compatible(dist, alpha, accept, v, dist(u, v)) {
        var grown := accept + [v];
        assert grown[..|accept|] == accept;
        forall p | 0 <= p < |accept| ensures grown[..p] == accept[..p] {
        }
        forall p | 0 <= p < |discarded|
          ensures !Compatible(dist, alpha, grown, discarded[p], dist(u, discarded[p]))
        {
          IncompatibleGrows(dist, alpha, accept, grown, discarded[p], dist(u, discarded[p]));
        }
        assert AlphaRule(dist, u, alpha, grown, discarded);
        if |accept| + 1 != m {
          ScanKeepsRule(dist, u, alpha, m, sorted, i + 1, grown, discarded);
        }
      } else {
        ScanKeepsRule(dist, u, alpha, m, sorted, i + 1, accept, discarded + [v]);
      }
    }
  }

  /** Both lists come out in ascending distance from u. */
  lemma {:induction false} ScanKeepsOrder(dist: Dist, u: nat, alpha: real, m: nat, sorted: seq<nat>, i: nat,
                                          accept: seq<nat>, discarded: seq<nat>)
    requires i <= |sorted| && SortedBy(sorted, DistTo(dist, u))
    requires SortedBy(accept, DistTo(dist, u)) && SortedBy(discarded, DistTo(dist, u))
    requires i < |sorted| && |accept| > 0 ==> dist(u, accept[|accept| - 1]) <= dist(u, sorted[i])
    requires i < |sorted| && |discarded| > 0 ==> dist(u, discarded[|discarded| - 1]) <= dist(u, sorted[i])
    ensures var r := Scan(dist, u, alpha, m, sorted, i, accept, discarded);
      SortedBy(r.0, DistTo(dist, u)) && SortedBy(r.1, DistTo(dist, u))
    decreases |sorted| - i
  {
    if i < |sorted| {
      var v := sorted[i];
      var key := DistTo(dist, u);
      assert i + 1 < |sorted| ==> key(v) <= key(sorted[i + 1]);
      if Compatible(dist, alpha, accept, v, dist(u, v)) {
        var grown := accept + [v];
        assert SortedBy(grown, key) by {
          forall a, b | 0 <= a < b < |grown| ensures key(grown[a]) <= key(grown[b]) {
            if b == |accept| && a < |accept| {
              assert key(grown[a]) <= key(accept[|accept| - 1]);
            }
          }
        }
        if |accept| + 1 != m {
          ScanKeepsOrder(dist, u, alpha, m, sorted, i + 1, grown, discarded);
        }
      } else {
        var grown := discarded + [v];
        assert SortedBy(grown, key) by {
          forall a, b | 0 <= a < b < |grown| ensures key(grown[a]) <= key(grown[b]) {
            if b == |discarded| && a < |discarded| {
              assert key(grown[a]) <= key(discarded[|discarded| - 1]);
            }
          }
        }
        ScanKeepsOrder(dist, u, alpha, m, sorted, i + 1, accept, grown);
      }
    }
  }

  /**
   * robustPrune returns short candidate lists unchanged and otherwise,
   * for m >= 1, exactly m ids.
   */
  lemma PruneLength(dist: Dist, u: nat, candidates: seq<nat>, m: nat, alpha: real)
    ensures |candidates| <= m ==> Prune(dist, u, candidates, m, alpha) == candidates
    ensures |candidates| > m > 0 ==> |Prune(dist, u, candidates, m, alpha)| == m
  {
    if |candidates| > m > 0 {
      var sorted := SortedCandidates(dist, u, candidates);
      ScanSplits(dist, u, alpha, m, sorted, 0, [], []);
      var s := Selection(dist, u, candidates, m, alpha);
      assert |multiset(s.0) + multiset(s.1)| == |s.0| + |s.1|;
      if |s.0| != m {
        assert |s.0| + |s.1| == |sorted|;
      }
    }
  }

  /** Every id returned is a candidate, and no candidate is returned more often than it was given. */
  lemma PruneFromCandidates(dist: Dist, u: nat, candidates: seq<nat>, m: nat, alpha: real)
    ensures multiset(Prune(dist, u, candidates, m, alpha)) <= multiset(candidates)
  {
    if |candidates| > m {
      var sorted := SortedCandidates(dist, u, candidates);
      ScanSplits(dist, u, alpha, m, sorted, 0, [], []);
      var s := Selection(dist, u, candidates, m, alpha);
      if |s.0| < m {
        var extra := Min(m - |s.0|, |s.1|);
        PrefixMultiset(s.1, extra);
        assert multiset(TopUp(s.0, s.1, m)) == multiset(s.0) + multiset(s.1[..extra]);
      }
    }
  }

  /** When pruning, the nearest candidate comes first. */
  lemma PruneNearestFirst(dist: Dist, u: nat, candidates: seq<nat>, m: nat, alpha: real)
    requires |candidates| > m > 0
    ensures var r := Prune(dist, u, candidates, m, alpha);
      |r| > 0 && r[0] in candidates &&
      forall x :: x in candidates ==> dist(u, r[0]) <= dist(u, x)
  {
    var sorted := SortedCandidates(dist, u, candidates);
    SelectionStartsWithFirst(dist, u, alpha, m, sorted);
    FirstIsNearest(sorted, candidates, DistTo(dist, u));
  }

  /** The first sorted candidate always passes the α-test. */
  lemma SelectionStartsWithFirst(dist: Dist, u: nat, alpha: real, m: nat, sorted: seq<nat>)
    requires |sorted| > 0 && m > 0
    ensures var s := Scan(dist, u, alpha, m, sorted, 0, [], []);
      |s.0| > 0 && s.0[0] == sorted[0]
  {
    var v := sorted[0];
    assert Compatible(dist, alpha, [], v, dist(u, v));
    assert [] + [v] == [v];
    if m != 1 {
      assert Scan(dist, u, alpha, m, sorted, 0, [], []) == Scan(dist, u, alpha, m, sorted, 1, [v], []);
      assert multiset([v]) + multiset([]) == multiset(sorted[..1]);
      ScanSplits(dist, u, alpha, m, sorted, 1, [v], []);
    }
  }

  /** The head of a sorted permutation has the least key. */
  lemma FirstIsNearest(sorted: seq<nat>, s: seq<nat>, key: nat -> real)
    requires |sorted| > 0 && multiset(sorted) == multiset(s) && SortedBy(sorted, key)
    ensures sorted[0] in s && forall x :: x in s ==> key(sorted[0]) <= key(x)
  {
    assert sorted[0] in multiset(sorted);
    forall x | x in s ensures key(sorted[0]) <= key(x) {
      assert x in multiset(sorted);
      var p :| 0 <= p < |sorted| && sorted[p] == x;
      if p > 0 {
        assert key(sorted[0]) <= key(sorted[p]);
      }
    }
  }

  /**
   * When pruning, the result is the accepted candidates followed by
   * discarded ones; each accepted candidate passed the α-test against the
   * ones accepted before it, each discarded one fails it against the
   * accepted ones, and both lists are in ascending distance from u.
   */
  lemma PruneSelects(dist: Dist, u: nat, candidates: seq<nat>, m: nat, alpha: real)
    requires |candidates| > m
    ensures var s := Selection(dist, u, candidates, m, alpha);
      var r := Prune(dist, u, candidates, m, alpha);
      && s.0 <= r && r[|s.0|..] <= s.1
      && AlphaRule(dist, u, alpha, s.0, s.1)
      && SortedBy(s.0, DistTo(dist, u)) && SortedBy(s.1, DistTo(dist, u))
  {
    var sorted := SortedCandidates(dist, u, candidates);
    ScanKeepsRule(dist, u, alpha, m, sorted, 0, [], []);
    ScanKeepsOrder(dist, u, alpha, m, sorted, 0, [], []);
    var s := Selection(dist, u, candidates, m, alpha);
    var r := Prune(dist, u, candidates, m, alpha);
    if |s.0| < m {
      assert r[|s.0|..] == s.1[..Min(m - |s.0|, |s.1|)];
    } else {
      assert r[|s.0|..] == [];
    }
  }

  /**
   * The number of leading neighbours strictly closer to u than duv (the
   * loop of robustPruneWithOneExtra stops at the first that is not).
   */
  function CloseCount(dist: Dist, u: nat, neighbors: seq<nat>, duv: real, i: nat): (a: nat)
    requires i <= |neighbors|
    ensures i <= a <= |neighbors|
    ensures forall j :: i <= j < a ==> dist(u, neighbors[j]) < duv
    ensures a < |neighbors| ==> duv <= dist(u, neighbors[a])
    decreases |neighbors| - i
  {
    if i == |neighbors| || duv <= dist(u, neighbors[i]) then i
    else CloseCount(dist, u, neighbors, duv, i + 1)
  }

  /**
   * The second loop of robustPruneWithOneExtra: from position i on, keep
   * the neighbours that v does not occlude until m are held.
   */
  function Refill(dist: Dist, u: nat, v: nat, neighbors: seq<nat>, i: nat, m: nat, alpha: real,
                  accept: seq<nat>): seq<nat>
    requires i <= |neighbors|
    decreases |neighbors| - i
  {
    if i == |neighbors| || |accept| >= m then accept
    else if dist(neighbors[i], v) * alpha < dist(u, neighbors[i]) then
      Refill(dist, u, v, neighbors, i + 1, m, alpha, accept)
    else Refill(dist, u, v, neighbors, i + 1, m, alpha, accept + [neighbors[i]])
  }

  /** No id in s is strictly closer to u than the one before it. */
  predicate DistanceOrdered(dist: Dist, u: nat, s: seq<nat>) {
    forall i :: 0 < i < |s| ==> !(dist(u, s[i]) < dist(u, s[i - 1]))
  }

  /**
   * What robustPruneWithOneExtra returns when u, with out-edges
   * neighbors, gains the candidate v; None is the panic of its final
   * self-check, which fires when the kept list is out of distance order.
   */
  function PruneWithOneExtra(dist: Dist, u: nat, neighbors: seq<nat>, v: nat, m: nat, alpha: real): Option<seq<nat>> {
    if v in neighbors then Some(neighbors)
    else
      var duv := dist(u, v);
      var a := CloseCount(dist, u, neighbors, duv, 0);
      if !Compatible(dist, alpha, neighbors[..a], v, duv) || a == m then Some(neighbors)
      else
        var kept := Refill(dist, u, v, neighbors, a, m, alpha, neighbors[..a] + [v]);
        if DistanceOrdered(dist, u, kept) then Some(kept) else None
  }

  /** robustPruneWithOneExtra, with its loops. */
  method RobustPruneWithOneExtra(dist: Dist, u: nat, neighbors: seq<nat>, v: nat, m: nat, alpha: real)
    returns (r: Option<seq<nat>>)
    ensures r == PruneWithOneExtra(dist, u, neighbors, v, m, alpha)
  {
    var i := 0;
    while i < |neighbors|
      invariant 0 <= i <= |neighbors| && v !in neighbors[..i]
    {
      if neighbors[i] == v {
        return Some(neighbors);
      }
      assert neighbors[..i + 1] == neighbors[..i] + [neighbors[i]];
      i := i + 1;
    }
    assert neighbors[..i] == neighbors;
    var duv := dist(u, v);
    var accept: seq<nat> := [];
    i := 0;
    while i < |neighbors|
      invariant 0 <= i <= CloseCount(dist, u, neighbors, duv, 0)
      invariant accept == neighbors[..i] && Compatible(dist, alpha, accept, v, duv)
    {
      if dist(u, neighbors[i]) >= duv {
        break;
      }
      accept := accept + [neighbors[i]];
      if dist(neighbors[i], v) * alpha < duv {
        assert !Compatible(dist, alpha, neighbors[..CloseCount(dist, u, neighbors, duv, 0)], v, duv) by {
          assert neighbors[..CloseCount(dist, u, neighbors, duv, 0)][i] == neighbors[i];
        }
        return Some(neighbors);
      }
      i := i + 1;
    }
    var alreadyAdded := |accept|;
    if alreadyAdded == m {
      return Some(neighbors);
    }
    accept := accept + [v];
    ghost var start := accept;
    i := alreadyAdded;
    while i < |neighbors| && |accept| < m
      invariant alreadyAdded <= i <= |neighbors|
      invariant Refill(dist, u, v, neighbors, i, m, alpha, accept) == Refill(dist, u, v, neighbors, alreadyAdded, m, alpha, start)
    {
      if !(dist(neighbors[i], v) * alpha < dist(u, neighbors[i])) {
        accept := accept + [neighbors[i]];
      }
      i := i + 1;
    }
    var ordered := InDistanceOrder(dist, u, accept);
    if !ordered {
      return None;
    }
    return Some(accept);
  }

  /** The self-check loop at the end of robustPruneWithOneExtra. */
  method InDistanceOrder(dist: Dist, u: nat, s: seq<nat>) returns (ok: bool)
    ensures ok == DistanceOrdered(dist, u, s)
  {
    var i := 1;
    while i < |s|
      invariant 1 <= i && (|s| > 0 ==> i <= |s|)
      invariant forall j :: 0 < j < i && j < |s| ==> !(dist(u, s[j]) < dist(u, s[j - 1]))
    {
      if dist(u, s[i]) < dist(u, s[i - 1]) {
        return false;
      }
      i := i + 1;
    }
    return true;
  }

  /** The refill keeps what it was given, appends only neighbours from position i on, and stops at m. */
  lemma {:induction false} RefillFacts(dist: Dist, u: nat, v: nat, neighbors: seq<nat>, i: nat, m: nat, alpha: real,
                                       accept: seq<nat>)
    requires i <= |neighbors|
    ensures var r := Refill(dist, u, v, neighbors, i, m, alpha, accept);
      && accept <= r
      && (|accept| <= m ==> |r| <= m)
      && (forall p :: |accept| <= p < |r| ==> r[p] in neighbors[i..])
      && (forall p :: |accept| <= p < |r| ==> !(dist(r[p], v) * alpha < dist(u, r[p])))
    decreases |neighbors| - i
  {
    if i < |neighbors| && |accept| < m {
      if dist(neighbors[i], v) * alpha < dist(u, neighbors[i]) {
        RefillFacts(dist, u, v, neighbors, i + 1, m, alpha, accept);
      } else {
        RefillFacts(dist, u, v, neighbors, i + 1, m, alpha, accept + [neighbors[i]]);
        assert neighbors[i] in neighbors[i..];
      }
      forall x | x in neighbors[i + 1..] ensures x in neighbors[i..] {
        var q :| 0 <= q < |neighbors[i + 1..]| && neighbors[i + 1..][q] == x;
        assert neighbors[i..][q + 1] == x;
      }
    }
  }

  /**
   * When robustPruneWithOneExtra changes the list: v is present, after the
   * neighbours closer to u than v, which v does not occlude, and the list
   * holds at most m ids when it held at most m before.
   */
  lemma PruneWithOneExtraAdds(dist: Dist, u: nat, neighbors: seq<nat>, v: nat, m: nat, alpha: real)
    requires PruneWithOneExtra(dist, u, neighbors, v, m, alpha).Some?
    requires PruneWithOneExtra(dist, u, neighbors, v, m, alpha).value != neighbors
    ensures var r := PruneWithOneExtra(dist, u, neighbors, v, m, alpha).value;
      var a := CloseCount(dist, u, neighbors, dist(u, v), 0);
      && v !in neighbors
      && Compatible(dist, alpha, neighbors[..a], v, dist(u, v)) && a != m
      && a < |r| && r[..a + 1] == neighbors[..a] + [v]
      && (|neighbors| <= m ==> |r| <= m)
      && (forall x :: x in r ==> x == v || x in neighbors)
      && (NoDuplicates(neighbors) ==> NoDuplicates(r))
  {
    var duv := dist(u, v);
    var a := CloseCount(dist, u, neighbors, duv, 0);
    var start := neighbors[..a] + [v];
    var r := Refill(dist, u, v, neighbors, a, m, alpha, start);
    RefillFacts(dist, u, v, neighbors, a, m, alpha, start);
    assert r[..a + 1] == start;
    forall x | x in r ensures x == v || x in neighbors {
      var p :| 0 <= p < |r| && r[p] == x;
      if p < a {
        assert r[p] == neighbors[p];
      } else if p > a {
        assert x in neighbors[a..];
      }
    }
    if NoDuplicates(neighbors) {
      forall p, q | 0 <= p < q < |r| ensures r[p] != r[q] {
        if q > a {
          var y := r[q];
          assert y in neighbors[a..];
          var t :| a <= t < |neighbors| && neighbors[t] == y by {
            var t' :| 0 <= t' < |neighbors[a..]| && neighbors[a..][t'] == y;
            assert neighbors[a + t'] == y;
          }
          if p < a {
            assert r[p] == neighbors[p];
          } else if p > a {
            RefillDistinct(dist, u, v, neighbors, a, m, alpha, start, p, q);
          }
        } else if q == a {
          assert r[p] == neighbors[p];
        }
      }
    }
  }

  /** Two refilled slots hold different neighbours when the neighbours are distinct. */
  lemma {:induction false} RefillDistinct(dist: Dist, u: nat, v: nat, neighbors: seq<nat>, i: nat, m: nat, alpha: real,
                                          accept: seq<nat>, p: nat, q: nat)
    requires i <= |neighbors| && NoDuplicates(neighbors)
    requires var r := Refill(dist, u, v, neighbors, i, m, alpha, accept);
      |accept| <= p < q < |r|
    ensures var r := Refill(dist, u, v, neighbors, i, m, alpha, accept);
      r[p] != r[q]
    decreases |neighbors| - i
  {
    var r := Refill(dist, u, v, neighbors, i, m, alpha, accept);
    if dist(neighbors[i], v) * alpha < dist(u, neighbors[i]) {
      RefillDistinct(dist, u, v, neighbors, i + 1, m, alpha, accept, p, q);
    } else {
      var grown := accept + [neighbors[i]];
      RefillFacts(dist, u, v, neighbors, i + 1, m, alpha, grown);
      if p == |accept| {
        assert r[p] == neighbors[i];
        assert r[q] in neighbors[i + 1..];
        var t :| 0 <= t < |neighbors[i + 1..]| && neighbors[i + 1..][t] == r[q];
        assert neighbors[i + 1 + t] == r[q];
      } else {
        RefillDistinct(dist, u, v, neighbors, i + 1, m, alpha, grown, p, q);
      }
    }
  }

  /**
   * The self-check never fires when the neighbours come sorted by distance
   * from u, as the graph construction keeps them.
   */
  lemma SortedNeighborsNeverPanic(dist: Dist, u: nat, neighbors: seq<nat>, v: nat, m: nat, alpha: real)
    requires DistanceOrdered(dist, u, neighbors)
    ensures PruneWithOneExtra(dist, u, neighbors, v, m, alpha).Some?
  {
    if v !in neighbors {
      var duv := dist(u, v);
      var a := CloseCount(dist, u, neighbors, duv, 0);
      if Compatible(dist, alpha, neighbors[..a], v, duv) && a != m {
        var start := neighbors[..a] + [v];
        RefillOrdered(dist, u, v, neighbors, a, m, alpha, start);
      }
    }
  }

  lemma {:induction false} RefillOrdered(dist: Dist, u: nat, v: nat, neighbors: seq<nat>, i: nat, m: nat, alpha: real,
                                         accept: seq<nat>)
    requires i <= |neighbors| && DistanceOrdered(dist, u, neighbors) && DistanceOrdered(dist, u, accept)
    requires |accept| > 0 && i < |neighbors| ==> dist(u, accept[|accept| - 1]) <= dist(u, neighbors[i])
    ensures DistanceOrdered(dist, u, Refill(dist, u, v, neighbors, i, m, alpha, accept))
    decreases |neighbors| - i
  {
    if i < |neighbors| && |accept| < m {
      if i + 1 < |neighbors| {
        assert !(dist(u, neighbors[i + 1]) < dist(u, neighbors[i]));
      }
      if dist(neighbors[i], v) * alpha < dist(u, neighbors[i]) {
        RefillOrdered(dist, u, v, neighbors, i + 1, m, alpha, accept);
      } else {
        RefillOrdered(dist, u, v, neighbors, i + 1, m, alpha, accept + [neighbors[i]]);
      }
    }
  }
}

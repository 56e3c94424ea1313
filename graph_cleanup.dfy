/**
 * The clean-up passes at the end of CreateGraphBasedOnHNSW in
 * graphann/build_graph.go, run after every vertex has its pruned HNSW
 * neighbours and the reverse edges: repeated out-edges are removed in
 * place while inbound edges are counted, edges are sampled and re-pruned,
 * every vertex is filled up to m out-edges with fresh random ids, and the
 * inbound edges are counted again.
 *
 * A graph is a sequence of out-edge rows; row u holds the ids that u
 * points to. The random draws are parameters (the sampling coin) or a
 * choice of any id the source could draw and keep (the fill).
 */
module GraphCleanup {
  import opened Common
  import opened Ids
  import opened BuildGraph

  type Graph = seq<seq<nat>>

  /** Every out-edge ends at one of the n vertices (inbound counting indexes by it). */
  predicate EdgesBelow(g: Graph, n: nat) {
    forall u :: 0 <= u < |g| ==> forall x :: x in g[u] ==> x < n
  }

  predicate NoSelfLoops(g: Graph) {
    forall u :: 0 <= u < |g| ==> u !in g[u]
  }

  /** No vertex points to the same vertex twice. */
  predicate SimpleRows(g: Graph) {
    forall u :: 0 <= u < |g| ==> NoDuplicates(g[u])
  }

  /** How often v occurs in the row s. */
  function Occurrences(s: seq<nat>, v: nat): nat {
    if s == [] then 0 else Occurrences(s[..|s| - 1], v) + (if s[|s| - 1] == v then 1 else 0)
  }

  /** The number of edges of g that end at v. */
  function InDegree(g: Graph, v: nat): nat {
    if g == [] then 0 else InDegree(g[..|g| - 1], v) + Occurrences(g[|g| - 1], v)
  }

  /** The number of edges of g. */
  function EdgeCount(g: Graph): nat {
    if g == [] then 0 else EdgeCount(g[..|g| - 1]) + |g[|g| - 1]|
  }

  /** A row of zeros sums to zero. */
  lemma {:induction false} SumZeros(n: nat)
    ensures Sum(seq(n, _ => 0)) == 0
  {
    if n > 0 {
      assert seq(n, _ => 0)[..n - 1] == seq(n - 1, _ => 0);
      SumZeros(n - 1);
    }
  }

  /** Incrementing one count increments the total. */
  lemma {:induction false} SumBump(s: seq<nat>, k: nat)
    requires k < |s|
    ensures Sum(s[k := s[k] + 1]) == Sum(s) + 1
  {
    var t := s[k := s[k] + 1];
    if k == |s| - 1 {
      assert t[..|t| - 1] == s[..|s| - 1];
    } else {
      SumBump(s[..|s| - 1], k);
      assert t[..|t| - 1] == s[..|s| - 1][k := s[k] + 1];
    }
  }

  /**
   * The counting loop over one row: every edge of row bumps the count of
   * the vertex it ends at, so the total grows by the row's length.
   */
  method AddRow(inbounds: seq<nat>, row: seq<nat>) returns (r: seq<nat>)
    requires forall x :: x in row ==> x < |inbounds|
    ensures |r| == |inbounds|
    ensures forall v :: 0 <= v < |r| ==> r[v] == inbounds[v] + Occurrences(row, v)
    ensures Sum(r) == Sum(inbounds) + |row|
  {
    r := inbounds;
    var j := 0;
    while j < |row|
      invariant 0 <= j <= |row| && |r| == |inbounds|
      invariant forall v :: 0 <= v < |r| ==> r[v] == inbounds[v] + Occurrences(row[..j], v)
      invariant Sum(r) == Sum(inbounds) + j
    {
      var w := row[j];
      assert w in row;
      SumBump(r, w);
      r := r[w := r[w] + 1];
      assert row[..j + 1][..j] == row[..j];
      j := j + 1;
    }
    assert row[..j] == row;
  }

  /**
   * The inbound recount after the fill: inbounds[v] is the number of
   * edges ending at v, and the counts add up to the number of edges.
   */
  method CountInbounds(g: Graph, n: nat) returns (inbounds: seq<nat>)
    requires EdgesBelow(g, n)
    ensures |inbounds| == n
    ensures forall v :: 0 <= v < n ==> inbounds[v] == InDegree(g, v)
    ensures Sum(inbounds) == EdgeCount(g)
  {
    inbounds := seq(n, _ => 0);
    SumZeros(n);
    var i := 0;
    while i < |g|
      invariant 0 <= i <= |g| && |inbounds| == n
      invariant forall v :: 0 <= v < n ==> inbounds[v] == InDegree(g[..i], v)
      invariant Sum(inbounds) == EdgeCount(g[..i])
    {
      inbounds := AddRow(inbounds, g[i]);
      assert g[..i + 1][..i] == g[..i];
      i := i + 1;
    }
    assert g[..i] == g;
  }

  /**
   * The in-place compaction of one row: a write cursor j trails the read
   * position k, and an id is copied down the first time it is seen.
   */
  method DedupRow(row: seq<nat>) returns (r: seq<nat>)
    ensures r == Dedup(row)
  {
    var buf := row;
    var seen: set<nat> := {};
    var j := 0;
    var k := 0;
    while k < |row|
      invariant 0 <= j <= k <= |row| && |buf| == |row|
      invariant buf[..j] == Dedup(row[..k])
      invariant forall t :: k <= t < |row| ==> buf[t] == row[t]
      invariant forall x :: x in seen <==> x in row[..k]
    {
      var v := buf[k];
      assert row[..k + 1] == row[..k] + [v];
      assert row[..k + 1][..k] == row[..k];
      if v !in seen {
        seen := seen + {v};
        buf := buf[j := v];
        j := j + 1;
      }
      k := k + 1;
    }
    assert row[..k] == row;
    r := buf[..j];
  }

  /**
   * The first clean-up pass: every row loses its repeated ids, keeping
   * first occurrences in order, and the inbound edges of the cleaned graph
   * are counted.
   */
  method DedupAndCount(g: Graph, n: nat) returns (h: Graph, inbounds: seq<nat>)
    requires EdgesBelow(g, n)
    ensures |h| == |g| && forall u :: 0 <= u < |g| ==> h[u] == Dedup(g[u])
    ensures |inbounds| == n
    ensures forall v :: 0 <= v < n ==> inbounds[v] == InDegree(h, v)
    ensures Sum(inbounds) == EdgeCount(h)
  {
    h := g;
    inbounds := seq(n, _ => 0);
    SumZeros(n);
    var i := 0;
    while i < |g|
      invariant 0 <= i <= |g| && |h| == |g| && |inbounds| == n
      invariant forall u :: 0 <= u < i ==> h[u] == Dedup(g[u])
      invariant forall u :: i <= u < |g| ==> h[u] == g[u]
      invariant forall v :: 0 <= v < n ==> inbounds[v] == InDegree(h[..i], v)
      invariant Sum(inbounds) == EdgeCount(h[..i])
    {
      var row := DedupRow(h[i]);
      DedupElements(g[i]);
      h := h[i := row];
      inbounds := AddRow(inbounds, row);
      assert h[..i + 1][..i] == h[..i];
      i := i + 1;
    }
    assert h[..i] == h;
  }

  /** Dedup removes repeats only: the cleaned graph is simple and keeps its ends and self-loop freedom. */
  lemma DedupCleans(g: Graph, h: Graph, n: nat)
    requires |h| == |g| && forall u :: 0 <= u < |g| ==> h[u] == Dedup(g[u])
    ensures SimpleRows(h)
    ensures EdgesBelow(g, n) ==> EdgesBelow(h, n)
    ensures NoSelfLoops(g) ==> NoSelfLoops(h)
    ensures forall u, x :: 0 <= u < |g| ==> (x in h[u] <==> x in g[u])
  {
    forall u | 0 <= u < |g| ensures NoDuplicates(h[u]) && forall x :: x in h[u] <==> x in g[u] {
      DedupElements(g[u]);
    }
  }

  /** The edges of row u whose random draw coin(u, j) passed, in row order. */
  function Kept(row: seq<nat>, u: nat, coin: (nat, nat) -> bool): (r: seq<nat>)
    ensures |r| <= |row|
  {
    if row == [] then []
    else
      var prior := Kept(row[..|row| - 1], u, coin);
      if coin(u, |row| - 1) then prior + [row[|row| - 1]] else prior
  }

  /** The sampling loop over one row. */
  method KeepRow(row: seq<nat>, u: nat, coin: (nat, nat) -> bool) returns (keep: seq<nat>)
    ensures keep == Kept(row, u, coin)
  {
    keep := [];
    var j := 0;
    while j < |row|
      invariant 0 <= j <= |row| && keep == Kept(row[..j], u, coin)
    {
      assert row[..j + 1][..j] == row[..j];
      if coin(u, j) {
        keep := keep + [row[j]];
      }
      j := j + 1;
    }
    assert row[..j] == row;
  }

  /** Sampling keeps a sub-multiset of the row. */
  lemma {:induction false} KeptFromRow(row: seq<nat>, u: nat, coin: (nat, nat) -> bool)
    ensures multiset(Kept(row, u, coin)) <= multiset(row)
  {
    if row != [] {
      KeptFromRow(row[..|row| - 1], u, coin);
      assert row == row[..|row| - 1] + [row[|row| - 1]];
    }
  }

  /**
   * The sampling pass: each edge survives its draw, and a row that kept
   * more than m edges is cut back to m by robustPrune.
   */
  method SampleEdges(g: Graph, dist: Dist, m: nat, alpha: real, coin: (nat, nat) -> bool) returns (h: Graph)
    ensures |h| == |g|
    ensures forall u :: 0 <= u < |g| ==> h[u] == Prune(dist, u, Kept(g[u], u, coin), m, alpha)
  {
    h := g;
    var i := 0;
    while i < |g|
      invariant 0 <= i <= |g| && |h| == |g|
      invariant forall u :: 0 <= u < i ==> h[u] == Prune(dist, u, Kept(g[u], u, coin), m, alpha)
    {
      var keep := KeepRow(g[i], i, coin);
      if |keep| > m {
        keep := RobustPrune(dist, i, keep, m, alpha);
      } else {
        PruneLength(dist, i, keep, m, alpha);
      }
      h := h[i := keep];
      i := i + 1;
    }
  }

  /**
   * What the sampling pass keeps: edges of the row it came from, no more
   * than m of them once m > 0, and a simple, self-loop free graph stays so.
   */
  lemma SampleKeeps(g: Graph, h: Graph, dist: Dist, m: nat, alpha: real, coin: (nat, nat) -> bool)
    requires |h| == |g| && forall u :: 0 <= u < |g| ==> h[u] == Prune(dist, u, Kept(g[u], u, coin), m, alpha)
    ensures forall u :: 0 <= u < |g| ==> multiset(h[u]) <= multiset(g[u])
    ensures m > 0 ==> forall u :: 0 <= u < |g| ==> |h[u]| <= m
    ensures forall n :: EdgesBelow(g, n) ==> EdgesBelow(h, n)
    ensures NoSelfLoops(g) ==> NoSelfLoops(h)
    ensures SimpleRows(g) ==> SimpleRows(h)
  {
    forall u | 0 <= u < |g|
      ensures multiset(h[u]) <= multiset(g[u])
      ensures m > 0 ==> |h[u]| <= m
      ensures NoDuplicates(g[u]) ==> NoDuplicates(h[u])
    {
      var keep := Kept(g[u], u, coin);
      KeptFromRow(g[u], u, coin);
      PruneFromCandidates(dist, u, keep, m, alpha);
      PruneLength(dist, u, keep, m, alpha);
      if NoDuplicates(g[u]) {
        SubDistinct(h[u], g[u]);
      }
    }
    forall u, x | 0 <= u < |g| && x in h[u] ensures x in g[u] {
      assert x in multiset(h[u]);
    }
  }

  /**
   * The fill loop for vertex i: random ids are appended until the row
   * holds m; each appended id is below n, is not i and is not yet in the
   * row. Draws that the source rejects (i itself, an id already present)
   * leave the row as it is and are not modelled.
   */
  method FillRow(row: seq<nat>, i: nat, n: nat, m: nat) returns (r: seq<nat>)
    requires m < n  // with m >= n the source's fill loop never ends: no draw is both new and not i
    ensures |row| >= m ==> r == row
    ensures |row| < m ==> |r| == m
    ensures row <= r
    ensures forall p :: |row| <= p < |r| ==> r[p] < n && r[p] != i && r[p] !in r[..p]
  {
    r := row;
    while |r| < m
      invariant row <= r && (|row| >= m ==> r == row) && (|row| < m ==> |r| <= m)
      invariant forall p :: |row| <= p < |r| ==> r[p] < n && r[p] != i && r[p] !in r[..p]
      decreases m - |r|
    {
      var free := FreeId(r + [i], n);
      var v: nat :| v < n && v != i && v !in r;
      assert (r + [v])[..|r|] == r;
      r := r + [v];
    }
  }

  /** Appending ids that are new each time keeps a row free of repeats and self-loops. */
  lemma FreshAppend(row: seq<nat>, r: seq<nat>, i: nat)
    requires row <= r
    requires forall p :: |row| <= p < |r| ==> r[p] != i && r[p] !in r[..p]
    ensures NoDuplicates(row) ==> NoDuplicates(r)
    ensures i !in row ==> i !in r
  {
    if NoDuplicates(row) {
      forall p, q | 0 <= p < q < |r| ensures r[p] != r[q] {
        if q < |row| {
          assert r[p] == row[p] && r[q] == row[q];
        } else {
          assert r[p] in r[..q];
        }
      }
    }
    if i !in row {
      forall p | 0 <= p < |r| ensures r[p] != i {
        if p < |row| {
          assert r[p] == row[p];
        }
      }
    }
  }

  /** The fill pass over all vertices. */
  method FillGraph(g: Graph, n: nat, m: nat) returns (h: Graph)
    requires m < n  // otherwise the fill loop of a short row never ends
    ensures |h| == |g|
    ensures forall u :: 0 <= u < |g| ==> g[u] <= h[u] && |h[u]| == if |g[u]| >= m then |g[u]| else m
    ensures forall u :: 0 <= u < |g| ==> forall p :: |g[u]| <= p < |h[u]| ==>
      h[u][p] < n && h[u][p] != u && h[u][p] !in h[u][..p]
  {
    h := g;
    var i := 0;
    while i < |g|
      invariant 0 <= i <= |g| && |h| == |g|
      invariant forall u :: i <= u < |g| ==> h[u] == g[u]
      invariant forall u :: 0 <= u < i ==> g[u] <= h[u] && |h[u]| == if |g[u]| >= m then |g[u]| else m
      invariant forall u :: 0 <= u < i ==> forall p :: |g[u]| <= p < |h[u]| ==>
        h[u][p] < n && h[u][p] != u && h[u][p] !in h[u][..p]
    {
      var row := FillRow(h[i], i, n, m);
      h := h[i := row];
      i := i + 1;
    }
  }

  /**
   * After the fill every vertex has at least m out-edges, all below n, and
   * a simple, self-loop free graph stays so.
   */
  lemma FillCompletes(g: Graph, h: Graph, n: nat, m: nat)
    requires |h| == |g|
    requires forall u :: 0 <= u < |g| ==> g[u] <= h[u] && |h[u]| == if |g[u]| >= m then |g[u]| else m
    requires forall u :: 0 <= u < |g| ==> forall p :: |g[u]| <= p < |h[u]| ==>
      h[u][p] < n && h[u][p] != u && h[u][p] !in h[u][..p]
    ensures forall u :: 0 <= u < |h| ==> |h[u]| >= m
    ensures EdgesBelow(g, n) ==> EdgesBelow(h, n)
    ensures NoSelfLoops(g) ==> NoSelfLoops(h)
    ensures SimpleRows(g) ==> SimpleRows(h)
  {
    forall u | 0 <= u < |g|
      ensures NoDuplicates(g[u]) ==> NoDuplicates(h[u])
      ensures u !in g[u] ==> u !in h[u]
      ensures (forall x :: x in g[u] ==> x < n) ==> forall x :: x in h[u] ==> x < n
    {
      FreshAppend(g[u], h[u], u);
      if forall x :: x in g[u] ==> x < n {
        forall x | x in h[u] ensures x < n {
          var p :| 0 <= p < |h[u]| && h[u][p] == x;
          if p < |g[u]| {
            assert g[u][p] == x && x in g[u];
          } else {
            assert h[u][p] < n;
          }
        }
      }
    }
  }

  /**
   * The clean-up passes in order: dedup with inbound counting, sampling,
   * fill, inbound recount. The result has at least m out-edges per vertex,
   * no repeated out-edge, no self-loop when it had none before, and the
   * inbound counts add up to the number of edges.
   */
  method CleanUp(g: Graph, n: nat, m: nat, dist: Dist, alpha: real, coin: (nat, nat) -> bool)
    returns (h: Graph, inbounds: seq<nat>)
    requires EdgesBelow(g, n)
    requires m < n  // otherwise the fill pass never ends on a short row
    ensures |h| == |g|
    ensures forall u :: 0 <= u < |h| ==> |h[u]| >= m
    ensures EdgesBelow(h, n) && SimpleRows(h)
    ensures NoSelfLoops(g) ==> NoSelfLoops(h)
    ensures |inbounds| == n && forall v :: 0 <= v < n ==> inbounds[v] == InDegree(h, v)
    ensures Sum(inbounds) == EdgeCount(h)
  {
    var deduped, counts := DedupAndCount(g, n);
    DedupCleans(g, deduped, n);
    var sampled := SampleEdges(deduped, dist, m, alpha, coin);
    SampleKeeps(deduped, sampled, dist, m, alpha, coin);
    h := FillGraph(sampled, n, m);
    FillCompletes(sampled, h, n, m);
    inbounds := CountInbounds(h, n);
  }
}

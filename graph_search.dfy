/**
 * The graph walk of graphann/search.go: the in-memory graph backend
 * (BasicGraphInfo), the min-heap of vertices still to explore
 * (exploreQueue driven by Go's container/heap), and the best-first
 * search of GraphANNFrontend with its k-nearest output padded by -1.
 *
 * A float32 is identified with its bit pattern, and the distance of a
 * vector to the query is an uninterpreted real d(vector).
 */
module GraphSearch {
  import opened Common
  import opened Sorting
  import opened Ids
  import Bytes

  /** A float32, identified with its IEEE-754 bit pattern. */
  type Float32 = Bytes.Bits32

  datatype Vertex = Vertex(id: int, neighbors: seq<int>, vector: seq<Float32>)

  /** A vertex waiting to be explored, with its distance to the query. */
  datatype Item = Item(dist: real, vertex: Vertex)

  /** The parent slot of slot j in the implicit binary tree of a heap. */
  function Parent(j: nat): nat
    requires j > 0
  {
    (j - 1) / 2
  }

  /** No item is strictly closer than its parent (container/heap's invariant under Less). */
  ghost predicate HeapOrdered(s: seq<Item>) {
    forall j :: 0 < j < |s| ==> s[Parent(j)].dist <= s[j].dist
  }

  /** The root of a heap is an item of least distance. */
  lemma {:induction false} RootIsNearest(s: seq<Item>, j: nat)
    requires HeapOrdered(s) && j < |s|
    ensures s[0].dist <= s[j].dist
    decreases j
  {
    if j > 0 {
      RootIsNearest(s, Parent(j));
    }
  }

  /** Slot i has its children at 2i + 1 and 2i + 2. */
  lemma ChildSlots(i: nat)
    ensures forall c :: c > 0 && Parent(c) == i ==> c == 2 * i + 1 || c == 2 * i + 2
  {
  }

  /** Slots i and j exchanged (exploreQueue.Swap). */
  function Swap(s: seq<Item>, i: nat, j: nat): (t: seq<Item>)
    requires i < |s| && j < |s|
    ensures |t| == |s| && multiset(t) == multiset(s)
    ensures t[i] == s[j] && t[j] == s[i]
    ensures forall x :: 0 <= x < |s| && x != i && x != j ==> t[x] == s[x]
  {
    s[i := s[j]][j := s[i]]
  }

  /** The heap order holds except between slot j and its parent, and j's parent may sit above j's children. */
  ghost predicate UpReady(s: seq<Item>, j: nat) {
    j < |s| &&
    (forall c :: 0 < c < |s| && c != j ==> s[Parent(c)].dist <= s[c].dist) &&
    (j > 0 ==> forall c :: 0 < c < |s| && Parent(c) == j ==> s[Parent(j)].dist <= s[c].dist)
  }

  lemma UpStep(s: seq<Item>, j: nat)
    requires UpReady(s, j) && j > 0 && s[j].dist < s[Parent(j)].dist
    ensures UpReady(Swap(s, Parent(j), j), Parent(j))
  {
    var i := Parent(j);
    var t := Swap(s, i, j);
    forall c | 0 < c < |t| && c != i ensures t[Parent(c)].dist <= t[c].dist {
      if c == j {
      } else if Parent(c) == j {
        assert t[c] == s[c];
      } else if Parent(c) == i {
        assert t[c] == s[c] && s[i].dist <= s[c].dist;
      } else {
        assert t[c] == s[c] && t[Parent(c)] == s[Parent(c)];
      }
    }
    if i > 0 {
      forall c | 0 < c < |t| && Parent(c) == i ensures t[Parent(i)].dist <= t[c].dist {
        assert t[Parent(i)] == s[Parent(i)];
        assert s[Parent(i)].dist <= s[i].dist;
        if c != j {
          assert t[c] == s[c];
        }
      }
    }
  }

  /** Within the first n slots, the heap order holds except below slot i. */
  ghost predicate DownReady(s: seq<Item>, n: nat, i: nat) {
    n <= |s| && (i < n || i == 0) &&
    (forall c :: 0 < c < n && Parent(c) != i ==> s[Parent(c)].dist <= s[c].dist) &&
    (i > 0 ==> forall c :: 0 < c < n && Parent(c) == i ==> s[Parent(i)].dist <= s[c].dist)
  }

  lemma DownStep(s: seq<Item>, n: nat, i: nat, j: nat)
    requires DownReady(s, n, i) && j < n && (j == 2 * i + 1 || j == 2 * i + 2) && s[j].dist < s[i].dist
    requires 2 * i + 1 < n ==> s[j].dist <= s[2 * i + 1].dist
    requires 2 * i + 2 < n ==> s[j].dist <= s[2 * i + 2].dist
    ensures DownReady(Swap(s, i, j), n, j)
  {
    DownStepAbove(s, n, i, j);
    DownStepBelow(s, n, i, j);
  }

  /** After the swap, every slot outside j's children is no nearer than its parent. */
  lemma DownStepAbove(s: seq<Item>, n: nat, i: nat, j: nat)
    requires DownReady(s, n, i) && j < n && (j == 2 * i + 1 || j == 2 * i + 2) && s[j].dist < s[i].dist
    requires 2 * i + 1 < n ==> s[j].dist <= s[2 * i + 1].dist
    requires 2 * i + 2 < n ==> s[j].dist <= s[2 * i + 2].dist
    ensures forall c :: 0 < c < n && Parent(c) != j ==> Swap(s, i, j)[Parent(c)].dist <= Swap(s, i, j)[c].dist
  {
    ChildSlots(i);
    assert Parent(j) == i;
    var t := Swap(s, i, j);
    assert t[i] == s[j] && t[j] == s[i];
    forall c | 0 < c < n && Parent(c) != j ensures t[Parent(c)].dist <= t[c].dist {
      if c == j {
      } else if Parent(c) == i {
        assert t[c] == s[c];
      } else if c == i {
        assert t[Parent(i)] == s[Parent(i)];
        assert s[Parent(i)].dist <= s[j].dist;
      } else {
        assert t[c] == s[c] && t[Parent(c)] == s[Parent(c)];
      }
    }
  }

  /** After the swap, j's children are no nearer than j's parent, which now holds s[j]. */
  lemma DownStepBelow(s: seq<Item>, n: nat, i: nat, j: nat)
    requires DownReady(s, n, i) && j < n && (j == 2 * i + 1 || j == 2 * i + 2) && s[j].dist < s[i].dist
    ensures forall c :: 0 < c < n && Parent(c) == j ==> Swap(s, i, j)[Parent(j)].dist <= Swap(s, i, j)[c].dist
  {
    assert Parent(j) == i;
    var t := Swap(s, i, j);
    forall c | 0 < c < n && Parent(c) == j ensures t[Parent(j)].dist <= t[c].dist {
      assert t[c] == s[c] && t[i] == s[j];
      assert s[j].dist <= s[c].dist;
    }
  }

  lemma DownDone(s: seq<Item>, n: nat, i: nat)
    requires DownReady(s, n, i)
    requires 2 * i + 1 < n ==> s[i].dist <= s[2 * i + 1].dist
    requires 2 * i + 2 < n ==> s[i].dist <= s[2 * i + 2].dist
    ensures HeapOrdered(s[..n])
  {
    ChildSlots(i);
    forall c | 0 < c < n ensures s[..n][Parent(c)].dist <= s[..n][c].dist {
      assert s[..n][c] == s[c] && s[..n][Parent(c)] == s[Parent(c)];
      if Parent(c) == i {
        assert c == 2 * i + 1 || c == 2 * i + 2;
      }
    }
  }

  /**
   * exploreQueue under container/heap: Push appends and sifts up, Pop
   * swaps the root with the last slot, sifts down over the others and
   * removes the last slot.
   */
  class ExploreQueue {
    var items: seq<Item>

    ghost predicate Valid()
      reads this
    {
      HeapOrdered(items)
    }

    constructor ()
      ensures items == [] && Valid()
    {
      items := [];
    }

    /** heap.Push: the item joins the queue. */
    method Push(x: Item)
      requires Valid()
      modifies this
      ensures Valid()
      ensures multiset(items) == old(multiset(items)) + multiset{x}
      ensures |items| == old(|items|) + 1
    {
      items := items + [x];
      Up(|items| - 1);
    }

    /** The sift-up loop: the item at j climbs while it is strictly closer than its parent. */
    method Up(j0: nat)
      requires UpReady(items, j0)
      modifies this
      ensures Valid()
      ensures multiset(items) == old(multiset(items)) && |items| == old(|items|)
    {
      var j := j0;
      while j > 0 && items[j].dist < items[Parent(j)].dist
        invariant UpReady(items, j) && |items| == old(|items|)
        invariant multiset(items) == old(multiset(items))
      {
        UpStep(items, j);
        items := Swap(items, Parent(j), j);
        j := Parent(j);
      }
    }

    /** heap.Pop: removes and returns an item of least distance. */
    method Pop() returns (x: Item)
      requires Valid() && |items| > 0
      modifies this
      ensures Valid()
      ensures multiset(items) + multiset{x} == old(multiset(items))
      ensures |items| == old(|items|) - 1
      ensures forall y :: y in old(items) ==> x.dist <= y.dist
    {
      forall y | y in items ensures items[0].dist <= y.dist {
        var p :| 0 <= p < |items| && items[p] == y;
        RootIsNearest(items, p);
      }
      var n := |items| - 1;
      ghost var before := items;
      items := Swap(items, 0, n);
      forall c | 0 < c < n && Parent(c) != 0 ensures items[Parent(c)].dist <= items[c].dist {
        assert items[c] == before[c] && items[Parent(c)] == before[Parent(c)];
      }
      Down(n);
      x := items[n];
      assert items == items[..n] + [x];
      items := items[..n];
    }

    /** The sift-down loop over the slots below n, starting at the root. */
    method Down(n: nat)
      requires DownReady(items, n, 0) && n < |items|
      modifies this
      ensures |items| == old(|items|) && items[n] == old(items[n])
      ensures multiset(items) == old(multiset(items))
      ensures HeapOrdered(items[..n])
    {
      var i := 0;
      while true
        invariant DownReady(items, n, i)
        invariant |items| == old(|items|) && items[n] == old(items[n])
        invariant multiset(items) == old(multiset(items))
        decreases n - i
      {
        var j1 := 2 * i + 1;
        if j1 >= n {
          DownDone(items, n, i);
          break;
        }
        var j := j1;
        if j1 + 1 < n && items[j1 + 1].dist < items[j1].dist {
          j := j1 + 1;
        }
        if !(items[j].dist < items[i].dist) {
          DownDone(items, n, i);
          break;
        }
        DownStep(items, n, i, j);
        items := Swap(items, i, j);
        i := j;
      }
    }
  }

  /** BasicGraphInfo: the graph rows and the vectors, held in memory. */
  datatype BasicGraphInfo = BasicGraphInfo(n: int, dim: int, m: int, graph: seq<seq<int>>, vectors: seq<seq<Float32>>)

  /** BasicGraphInfo.GetVertexInfo: one vertex per requested id, in request order. */
  method GetVertexInfo(g: BasicGraphInfo, ids: seq<int>) returns (vertices: seq<Vertex>)
    requires forall i :: 0 <= i < |ids| ==> 0 <= ids[i] < |g.graph| && ids[i] < |g.vectors|
    ensures |vertices| == |ids|
    ensures forall i :: 0 <= i < |ids| ==>
      vertices[i].id == ids[i] && vertices[i].neighbors == g.graph[ids[i]] && vertices[i].vector == g.vectors[ids[i]]
  {
    vertices := seq(|ids|, _ => Vertex(0, [], []));
    var i := 0;
    while i < |ids|
      invariant 0 <= i <= |ids| && |vertices| == |ids|
      invariant forall j :: 0 <= j < i ==>
        vertices[j].id == ids[j] && vertices[j].neighbors == g.graph[ids[j]] && vertices[j].vector == g.vectors[ids[j]]
    {
      var id := ids[i];
      vertices := vertices[i := Vertex(id, g.graph[id], g.vectors[id])];
      i := i + 1;
    }
  }

  /** BasicGraphInfo.GetStartVertex: the vertices 0 .. floor(sqrt(n)) - 1, in order. */
  method GetStartVertex(g: BasicGraphInfo) returns (vertices: seq<Vertex>)
    requires g.n >= 0 && ISqrt(g.n) <= |g.graph| && ISqrt(g.n) <= |g.vectors|
    ensures |vertices| == ISqrt(g.n)
    ensures forall i :: 0 <= i < |vertices| ==>
      vertices[i].id == i && vertices[i].neighbors == g.graph[i] && vertices[i].vector == g.vectors[i]
  {
    var targetNum := ISqrt(g.n);
    var batch := seq(targetNum, _ => 0);
    var i := 0;
    while i < targetNum
      invariant 0 <= i <= targetNum && |batch| == targetNum
      invariant forall j :: 0 <= j < i ==> batch[j] == j
    {
      batch := batch[i := i];
      i := i + 1;
    }
    vertices := GetVertexInfo(g, batch);
  }

  /** GraphANNFrontend: the search frontend, holding the start vertices its backend hands out. */
  class Frontend {
    var startVertices: seq<Vertex>

    constructor ()
      ensures startVertices == []
    {
      startVertices := [];
    }

    /** GraphANNFrontend.Preprocess over a BasicGraphInfo backend: fetch and keep the start vertices. */
    method Preprocess(g: BasicGraphInfo)
      requires g.n >= 0 && ISqrt(g.n) <= |g.graph| && ISqrt(g.n) <= |g.vectors|
      modifies this
      ensures |startVertices| == ISqrt(g.n)
      ensures forall i :: 0 <= i < |startVertices| ==>
        startVertices[i].id == i && startVertices[i].neighbors == g.graph[i] && startVertices[i].vector == g.vectors[i]
    {
      startVertices := GetStartVertex(g);
    }
  }

  /** A neighbour list holding nothing but zeros (a failed or empty lookup). */
  predicate AllZero(neighbors: seq<int>) {
    forall x :: x in neighbors ==> x == 0
  }

  /** The distance key of an id, taken from its known vertex. */
  function KnownDist(known: map<int, Vertex>, d: seq<Float32> -> real): int -> real {
    (id: int) => if id in known then d(known[id].vector) else 0.0
  }

  /** The distance key of a queued item. */
  function ItemDist(x: Item): real {
    x.dist
  }

  /**
   * The search state is coherent: every known vertex is filed under its
   * own id and has a reach step, and every queued item is a known vertex
   * with its distance to the query.
   */
  ghost predicate Coherent(known: map<int, Vertex>, reach: map<int, int>, items: seq<Item>, d: seq<Float32> -> real) {
    (forall id :: id in known ==> known[id].id == id && id in reach) &&
    (forall x :: x in items ==> x.vertex.id in known && known[x.vertex.id] == x.vertex && x.dist == d(x.vertex.vector))
  }

  /**
   * Where known vertices come from: a start vertex reached at step 0, or
   * the backend's answer for the id, with a neighbour list that is not all
   * zeros, reached at a step before the current one.
   */
  ghost predicate Provenance(known: map<int, Vertex>, reach: map<int, int>, starts: seq<Vertex>, read: int -> Vertex, step: int) {
    forall id :: id in known ==>
      (id in reach &&
       ((known[id] in starts && reach[id] == 0) ||
        (known[id] == read(id) && !AllZero(read(id).neighbors) && 0 <= reach[id] < step)))
  }

  /**
   * The seeding of SearchKNN: the start vertices sorted by distance are
   * pushed nearest first, skipping ids already pushed, until parallel
   * items are queued or the start vertices run out.
   */
  method Seed(starts: seq<Vertex>, d: seq<Float32> -> real, parallel: nat, queue: ExploreQueue)
    returns (known: map<int, Vertex>, reach: map<int, int>)
    requires queue.Valid() && queue.items == []
    modifies queue
    ensures queue.Valid() && Coherent(known, reach, queue.items, d)
    ensures |queue.items| <= parallel && |queue.items| == |known|
    ensures FromStarts(known, reach, starts)
    ensures |queue.items| == parallel || forall v :: v in starts ==> v.id in known
    ensures forall p, q :: 0 <= p < q < |queue.items| ==> queue.items[p].vertex.id != queue.items[q].vertex.id
    ensures forall v :: v in starts && v.id in known ==> d(known[v.id].vector) <= d(v.vector)
    ensures forall x, v :: x in queue.items && v in starts && v.id !in known ==> x.dist <= d(v.vector)
  {
    var fast := SortByKey(StartItems(starts, d), ItemDist);
    known := map[];
    reach := map[];
    var i := 0;
    while |queue.items| < parallel && i < |fast|
      invariant multiset(fast) == multiset(StartItems(starts, d)) && SortedBy(fast, ItemDist)
      invariant queue.Valid() && SeedState(known, reach, queue.items, starts, d, fast, i, parallel)
    {
      var v := fast[i];
      var id := v.vertex.id;
      if id !in known {
        ghost var before := queue.items;
        queue.Push(v);
        SeedPush(known, reach, before, queue.items, starts, d, fast, i, parallel);
        known := known[id := v.vertex];
        reach := reach[id := 0];
      } else {
        SeedSkip(known, reach, queue.items, starts, d, fast, i, parallel);
      }
      i := i + 1;
    }
    SeedNearest(starts, d, fast, i, queue.items, known);
    SeedDone(starts, d, fast, i, queue.items, known, reach, parallel);
  }

  /** Every known vertex is a start vertex, reached at step 0. */
  predicate FromStarts(known: map<int, Vertex>, reach: map<int, int>, starts: seq<Vertex>) {
    forall id :: id in known ==> known[id] in starts && id in reach && reach[id] == 0
  }

  /** The loop state of Seed after the first i sorted start vertices. */
  ghost predicate SeedState(known: map<int, Vertex>, reach: map<int, int>, items: seq<Item>, starts: seq<Vertex>,
                            d: seq<Float32> -> real, fast: seq<Item>, i: nat, parallel: nat) {
    i <= |fast| && Coherent(known, reach, items, d) &&
    |items| <= parallel && |items| == |known| &&
    FromStarts(known, reach, starts) &&
    (forall p :: 0 <= p < i ==> fast[p].vertex.id in known) &&
    (forall p :: 0 <= p < i ==> d(known[fast[p].vertex.id].vector) <= fast[p].dist) &&
    (forall id, j :: id in known && i <= j < |fast| ==> d(known[id].vector) <= fast[j].dist) &&
    Unique(items) &&
    multiset(items) <= multiset(fast[..i])
  }

  /** No item is queued twice. */
  ghost predicate Unique(items: seq<Item>) {
    forall x :: multiset(items)[x] <= 1
  }

  /** In a coherent queue an item is fixed by its id, so a queue with no repeated item repeats no id. */
  lemma UniqueIds(known: map<int, Vertex>, reach: map<int, int>, items: seq<Item>, d: seq<Float32> -> real)
    requires Coherent(known, reach, items, d) && Unique(items)
    ensures forall p, q :: 0 <= p < q < |items| ==> items[p].vertex.id != items[q].vertex.id
  {
    forall p, q | 0 <= p < q < |items| ensures items[p].vertex.id != items[q].vertex.id {
      if items[p].vertex.id == items[q].vertex.id {
        TwoCopies(items, p, q);
        assert false;
      }
    }
  }

  /** An item at two positions occurs twice. */
  lemma TwoCopies(items: seq<Item>, p: nat, q: nat)
    requires p < q < |items| && items[p] == items[q]
    ensures multiset(items)[items[p]] >= 2
  {
    var x := items[p];
    assert items == items[..q] + [x] + items[q + 1..];
    assert x in items[..q];
  }

  /**
   * When the seeding loop stops, parallel items are queued or every start
   * vertex was looked at; the queue repeats no id, and the vertex filed
   * under a start's id is no farther than that start.
   */
  lemma SeedDone(starts: seq<Vertex>, d: seq<Float32> -> real, fast: seq<Item>, i: nat,
                 items: seq<Item>, known: map<int, Vertex>, reach: map<int, int>, parallel: nat)
    requires multiset(fast) == multiset(StartItems(starts, d))
    requires SeedState(known, reach, items, starts, d, fast, i, parallel)
    requires |items| >= parallel || i >= |fast|
    ensures |items| == parallel || forall v :: v in starts ==> v.id in known
    ensures forall p, q :: 0 <= p < q < |items| ==> items[p].vertex.id != items[q].vertex.id
    ensures forall v :: v in starts && v.id in known ==> d(known[v.id].vector) <= d(v.vector)
  {
    UniqueIds(known, reach, items, d);
    forall v | v in starts ensures v.id in known || |items| == parallel
      ensures v.id in known ==> d(known[v.id].vector) <= d(v.vector)
    {
      var j :| 0 <= j < |starts| && starts[j] == v;
      var it := Item(d(v.vector), v);
      assert StartItems(starts, d)[j] == it;
      assert it in multiset(fast);
      var q :| 0 <= q < |fast| && fast[q] == it;
      if q < i {
        assert fast[q].vertex.id in known;
      }
    }
  }

  lemma SeedPush(known: map<int, Vertex>, reach: map<int, int>, before: seq<Item>, after: seq<Item>, starts: seq<Vertex>,
                 d: seq<Float32> -> real, fast: seq<Item>, i: nat, parallel: nat)
    requires SeedState(known, reach, before, starts, d, fast, i, parallel)
    requires multiset(fast) == multiset(StartItems(starts, d)) && SortedBy(fast, ItemDist)
    requires i < |fast| && |before| < parallel && fast[i].vertex.id !in known
    requires multiset(after) == multiset(before) + multiset{fast[i]}
    ensures SeedState(known[fast[i].vertex.id := fast[i].vertex], reach[fast[i].vertex.id := 0], after,
                      starts, d, fast, i + 1, parallel)
  {
    StartItemFacts(starts, d, fast, i);
    CoherentPush(known, reach, before, after, fast[i], d, 0);
    StartsPush(known, reach, fast[i].vertex, starts);
    PrefixPush(known, fast, i, before, after);
    UniquePush(known, reach, before, after, fast[i], d);
    var known' := known[fast[i].vertex.id := fast[i].vertex];
    forall id, j | id in known' && i + 1 <= j < |fast| ensures d(known'[id].vector) <= fast[j].dist {
      assert ItemDist(fast[i]) <= ItemDist(fast[j]);
    }
  }

  /** Queueing an item whose id is not yet known keeps the queue free of repeats. */
  lemma UniquePush(known: map<int, Vertex>, reach: map<int, int>, before: seq<Item>, after: seq<Item>,
                   v: Item, d: seq<Float32> -> real)
    requires Coherent(known, reach, before, d) && Unique(before)
    requires multiset(after) == multiset(before) + multiset{v} && v.vertex.id !in known
    ensures Unique(after)
  {
    assert v !in before;
    assert multiset(before)[v] == 0;
  }

  /** Filing a start vertex at step 0 keeps every known vertex a start vertex reached at step 0. */
  lemma StartsPush(known: map<int, Vertex>, reach: map<int, int>, v: Vertex, starts: seq<Vertex>)
    requires FromStarts(known, reach, starts)
    requires v in starts && v.id !in known
    ensures FromStarts(known[v.id := v], reach[v.id := 0], starts)
    ensures |known[v.id := v]| == |known| + 1
  {
  }

  /** Pushing the next sorted start vertex extends the pushed prefix by one. */
  lemma PrefixPush(known: map<int, Vertex>, fast: seq<Item>, i: nat, before: seq<Item>, after: seq<Item>)
    requires i < |fast| && forall p :: 0 <= p < i ==> fast[p].vertex.id in known
    requires multiset(before) <= multiset(fast[..i]) && multiset(after) == multiset(before) + multiset{fast[i]}
    ensures forall p :: 0 <= p < i + 1 ==> fast[p].vertex.id in known[fast[i].vertex.id := fast[i].vertex]
    ensures multiset(after) <= multiset(fast[..i + 1]) && |after| == |before| + 1
  {
    assert fast[..i + 1] == fast[..i] + [fast[i]];
    assert |multiset(after)| == |multiset(before)| + 1;
  }

  lemma SeedSkip(known: map<int, Vertex>, reach: map<int, int>, items: seq<Item>, starts: seq<Vertex>,
                 d: seq<Float32> -> real, fast: seq<Item>, i: nat, parallel: nat)
    requires SeedState(known, reach, items, starts, d, fast, i, parallel)
    requires i < |fast| && fast[i].vertex.id in known
    ensures SeedState(known, reach, items, starts, d, fast, i + 1, parallel)
  {
    assert fast[..i + 1] == fast[..i] + [fast[i]];
    assert d(known[fast[i].vertex.id].vector) <= fast[i].dist;
  }

  /** Queueing a vertex not yet known, while filing it as known, keeps the state coherent. */
  lemma CoherentPush(known: map<int, Vertex>, reach: map<int, int>, before: seq<Item>, after: seq<Item>,
                     v: Item, d: seq<Float32> -> real, step: int)
    requires Coherent(known, reach, before, d)
    requires multiset(after) == multiset(before) + multiset{v}
    requires v.vertex.id !in known && v.dist == d(v.vertex.vector)
    ensures Coherent(known[v.vertex.id := v.vertex], reach[v.vertex.id := step], after, d)
  {
    forall x | x in after ensures x in before || x == v {
      assert x in multiset(after);
    }
  }

  /** An item of the sorted start list is a start vertex with its distance. */
  lemma StartItemFacts(starts: seq<Vertex>, d: seq<Float32> -> real, fast: seq<Item>, i: nat)
    requires multiset(fast) == multiset(StartItems(starts, d)) && i < |fast|
    ensures fast[i].vertex in starts && fast[i].dist == d(fast[i].vertex.vector)
  {
    assert fast[i] in multiset(StartItems(starts, d));
    var j :| 0 <= j < |starts| && StartItems(starts, d)[j] == fast[i];
  }

  /** The start vertices paired with their distances, in the order given. */
  function StartItems(starts: seq<Vertex>, d: seq<Float32> -> real): (r: seq<Item>)
    ensures |r| == |starts|
    ensures forall j :: 0 <= j < |starts| ==> r[j] == Item(d(starts[j].vector), starts[j])
  {
    seq(|starts|, j requires 0 <= j < |starts| => Item(d(starts[j].vector), starts[j]))
  }

  /**
   * Pushing from the front of the sorted start list pushes nearest first:
   * a start vertex whose id was never reached lies beyond the stopping
   * point, so no pushed item is farther than it.
   */
  lemma SeedNearest(starts: seq<Vertex>, d: seq<Float32> -> real, fast: seq<Item>, i: nat,
                    items: seq<Item>, known: map<int, Vertex>)
    requires multiset(fast) == multiset(StartItems(starts, d)) && SortedBy(fast, ItemDist)
    requires i <= |fast| && forall p :: 0 <= p < i ==> fast[p].vertex.id in known
    requires multiset(items) <= multiset(fast[..i])
    ensures forall x, v :: x in items && v in starts && v.id !in known ==> x.dist <= d(v.vector)
  {
    forall x, v | x in items && v in starts && v.id !in known ensures x.dist <= d(v.vector) {
      assert x in multiset(fast[..i]);
      var p :| 0 <= p < i && fast[p] == x;
      var j :| 0 <= j < |starts| && starts[j] == v;
      var it := Item(d(v.vector), v);
      assert StartItems(starts, d)[j] == it;
      assert it in multiset(fast);
      var q :| 0 <= q < |fast| && fast[q] == it;
      assert i <= q;
      assert ItemDist(fast[p]) <= ItemDist(fast[q]);
    }
  }

  /** The neighbour lists of the explored items, concatenated in exploration order. */
  function Neighborhood(popped: seq<Item>): seq<int> {
    if popped == [] then [] else Neighborhood(popped[..|popped| - 1]) + popped[|popped| - 1].vertex.neighbors
  }

  /** The m random ids drawn in round rept of a step, in draw order. */
  function RandomIds(draw: (int, int, int) -> int, step: int, rept: int, m: nat): (r: seq<int>)
    ensures |r| == m && forall i :: 0 <= i < m ==> r[i] == draw(step, rept, i)
  {
    seq(m, i => draw(step, rept, i))
  }

  /** The random ids drawn in rounds lo .. hi - 1 of a step. */
  function Draws(draw: (int, int, int) -> int, step: int, lo: nat, hi: nat, m: nat): (r: seq<int>)
    ensures |r| == (if lo < hi then (hi - lo) * m else 0)
    decreases hi
  {
    if lo >= hi then [] else Draws(draw, step, lo, hi - 1, m) + RandomIds(draw, step, hi - 1, m)
  }

  /** Every explored item is at least as near as every item still queued, and they came out in order. */
  ghost predicate NearestFirst(popped: seq<Item>, rest: seq<Item>) {
    SortedBy(popped, ItemDist) && forall x, y :: x in popped && y in rest ==> x.dist <= y.dist
  }

  /**
   * What one batch collection does: the explored items leave the queue,
   * they are min(parallel, queued) known items taken nearest first (none
   * when benchmarking), and the batch is their neighbour lists in
   * exploration order followed by m random ids for each remaining round.
   */
  ghost predicate Collected(start: seq<Item>, rest: seq<Item>, popped: seq<Item>, known: map<int, Vertex>, batchQ: seq<int>,
                            parallel: nat, benchmarking: bool, draw: (int, int, int) -> int, step: int, m: nat) {
    multiset(rest) + multiset(popped) == multiset(start) &&
    |popped| == (if benchmarking then 0 else Min(parallel, |start|)) &&
    NearestFirst(popped, rest) &&
    (forall x :: x in popped ==> x.vertex.id in known && known[x.vertex.id] == x.vertex) &&
    batchQ == Neighborhood(popped) + Draws(draw, step, |popped|, parallel, m)
  }

  /** The loop state of one batch collection after rept rounds. */
  ghost predicate CollectState(items: seq<Item>, start: seq<Item>, popped: seq<Item>, batchQ: seq<int>, rept: nat,
                               benchmarking: bool, draw: (int, int, int) -> int, step: int, m: nat) {
    |popped| <= rept &&
    (|popped| < rept ==> benchmarking || items == []) &&
    (benchmarking ==> popped == []) &&
    multiset(items) + multiset(popped) == multiset(start) &&
    NearestFirst(popped, items) &&
    batchQ == Neighborhood(popped) + Draws(draw, step, |popped|, rept, m)
  }

  /**
   * The batch of one search step: parallel rounds, each exploring the
   * nearest queued vertex (its neighbour list joins the batch) or, when the
   * queue is empty or the search only benchmarks, drawing m random ids.
   */
  method CollectBatch(queue: ExploreQueue, known: map<int, Vertex>, ghost reach: map<int, int>,
                      d: seq<Float32> -> real, m: nat, parallel: nat, step: int, benchmarking: bool,
                      draw: (int, int, int) -> int)
    returns (batchQ: seq<int>, ghost popped: seq<Item>)
    requires queue.Valid() && Coherent(known, reach, queue.items, d)
    modifies queue
    ensures queue.Valid()
    ensures CollectState(queue.items, old(queue.items), popped, batchQ, parallel, benchmarking, draw, step, m)
  {
    ghost var start := queue.items;
    batchQ := [];
    popped := [];
    var rept: nat := 0;
    while rept < parallel
      invariant rept <= parallel && queue.Valid()
      invariant CollectState(queue.items, start, popped, batchQ, rept, benchmarking, draw, step, m)
      invariant Coherent(known, reach, start, d)
      invariant multiset(queue.items) + multiset(popped) == multiset(start)
    {
      batchQ, popped, rept := CollectRound(queue, known, reach, d, m, step, benchmarking, draw, start, batchQ, popped, rept);
    }
  }

  /** One round of CollectBatch. */
  method CollectRound(queue: ExploreQueue, known: map<int, Vertex>, ghost reach: map<int, int>,
                      d: seq<Float32> -> real, m: nat, step: int, benchmarking: bool, draw: (int, int, int) -> int,
                      ghost start: seq<Item>, batchQ: seq<int>, ghost popped: seq<Item>, rept: nat)
    returns (batchQ': seq<int>, ghost popped': seq<Item>, rept': nat)
    requires queue.Valid() && Coherent(known, reach, start, d)
    requires CollectState(queue.items, start, popped, batchQ, rept, benchmarking, draw, step, m)
    requires multiset(queue.items) + multiset(popped) == multiset(start)
    modifies queue
    ensures queue.Valid() && rept' == rept + 1
    ensures CollectState(queue.items, start, popped', batchQ', rept', benchmarking, draw, step, m)
    ensures multiset(queue.items) + multiset(popped') == multiset(start)
  {
    if |queue.items| == 0 || benchmarking {
      CollectDraw(queue.items, start, popped, batchQ, rept, benchmarking, draw, step, m);
      batchQ' := batchQ + RandomIds(draw, step, rept, m);
      popped' := popped;
    } else {
      ghost var before := queue.items;
      var item := queue.Pop();
      CoherentItem(known, reach, start, d, before, queue.items, popped, item);
      var explored := known[item.vertex.id];
      CollectExplore(before, queue.items, start, popped, item, explored.neighbors, batchQ, rept, benchmarking, draw, step, m);
      batchQ' := batchQ + explored.neighbors;
      popped' := popped + [item];
    }
    rept' := rept + 1;
  }

  /** Exploring the nearest queued item extends the explored prefix of the batch. */
  lemma CollectExplore(before: seq<Item>, after: seq<Item>, start: seq<Item>, popped: seq<Item>, x: Item, nb: seq<int>,
                       batchQ: seq<int>, rept: nat, benchmarking: bool, draw: (int, int, int) -> int, step: int, m: nat)
    requires CollectState(before, start, popped, batchQ, rept, benchmarking, draw, step, m)
    requires |before| > 0 && !benchmarking && nb == x.vertex.neighbors
    requires multiset(after) + multiset{x} == multiset(before)
    requires forall y :: y in before ==> x.dist <= y.dist
    ensures CollectState(after, start, popped + [x], batchQ + nb, rept + 1, benchmarking, draw, step, m)
  {
    assert |popped| == rept;
    NeighborhoodPush(popped, x);
    PopMultiset(before, after, start, popped, x);
    PopNearestFirst(popped, before, after, x);
  }

  /** Exploring one more item appends its neighbour list. */
  lemma NeighborhoodPush(popped: seq<Item>, x: Item)
    ensures Neighborhood(popped + [x]) == Neighborhood(popped) + x.vertex.neighbors
  {
    assert (popped + [x])[..|popped|] == popped;
  }

  /** An item moved from the queue to the explored ones keeps their union. */
  lemma PopMultiset(before: seq<Item>, after: seq<Item>, start: seq<Item>, popped: seq<Item>, x: Item)
    requires multiset(before) + multiset(popped) == multiset(start)
    requires multiset(after) + multiset{x} == multiset(before)
    ensures multiset(after) + multiset(popped + [x]) == multiset(start)
  {
    assert multiset(popped + [x]) == multiset(popped) + multiset{x};
  }

  /** Taking a least item off the queue keeps the explored items nearest first. */
  lemma PopNearestFirst(popped: seq<Item>, before: seq<Item>, after: seq<Item>, x: Item)
    requires NearestFirst(popped, before)
    requires multiset(after) + multiset{x} == multiset(before)
    requires forall y :: y in before ==> x.dist <= y.dist
    ensures NearestFirst(popped + [x], after)
  {
    assert x in multiset(before);
    forall y | y in after ensures y in before {
      assert y in multiset(after);
      assert y in multiset(before);
    }
    forall p, q | 0 <= p < q < |popped| + 1 ensures ItemDist((popped + [x])[p]) <= ItemDist((popped + [x])[q]) {
      if q == |popped| {
        assert (popped + [x])[p] in popped;
      } else {
        assert (popped + [x])[p] == popped[p] && (popped + [x])[q] == popped[q];
      }
    }
  }

  /** A round that draws random ids appends them after the ids gathered so far. */
  lemma CollectDraw(items: seq<Item>, start: seq<Item>, popped: seq<Item>, batchQ: seq<int>, rept: nat,
                    benchmarking: bool, draw: (int, int, int) -> int, step: int, m: nat)
    requires CollectState(items, start, popped, batchQ, rept, benchmarking, draw, step, m)
    requires items == [] || benchmarking
    ensures CollectState(items, start, popped, batchQ + RandomIds(draw, step, rept, m), rept + 1, benchmarking, draw, step, m)
  {
  }

  /** An explored item is a known vertex, since it was queued. */
  lemma CoherentItem(known: map<int, Vertex>, reach: map<int, int>, start: seq<Item>, d: seq<Float32> -> real,
                     before: seq<Item>, after: seq<Item>, popped: seq<Item>, x: Item)
    requires Coherent(known, reach, start, d)
    requires multiset(before) + multiset(popped) == multiset(start) && multiset(after) + multiset{x} == multiset(before)
    ensures x.vertex.id in known && known[x.vertex.id] == x.vertex
  {
    assert x in multiset(before);
    assert x in multiset(start);
  }

  /**
   * After the last round the batch is collected: the queue holds what is
   * left of the start, still coherent, and min(parallel, |start|) items
   * were explored unless the search only benchmarks.
   */
  lemma CollectDone(items: seq<Item>, start: seq<Item>, popped: seq<Item>, batchQ: seq<int>, parallel: nat,
                    benchmarking: bool, draw: (int, int, int) -> int, step: int, m: nat,
                    known: map<int, Vertex>, reach: map<int, int>, d: seq<Float32> -> real)
    requires CollectState(items, start, popped, batchQ, parallel, benchmarking, draw, step, m)
    requires Coherent(known, reach, start, d)
    ensures Coherent(known, reach, items, d)
    ensures Collected(start, items, popped, known, batchQ, parallel, benchmarking, draw, step, m)
  {
    forall x | x in items ensures x in start {
      assert x in multiset(start);
    }
    forall x | x in popped ensures x in start {
      assert x in multiset(start);
    }
    assert |multiset(items)| + |multiset(popped)| == |multiset(start)|;
  }

  /** The scan for an id other than zero, stopping at the first one. */
  method HasNonZero(neighbors: seq<int>) returns (ok: bool)
    ensures ok <==> !AllZero(neighbors)
  {
    ok := false;
    var j := 0;
    while j < |neighbors|
      invariant 0 <= j <= |neighbors| && forall t :: 0 <= t < j ==> neighbors[t] == 0
    {
      if neighbors[j] != 0 {
        ok := true;
        assert neighbors[j] in neighbors;
        break;
      }
      j := j + 1;
    }
    if !ok {
      forall x | x in neighbors ensures x == 0 {
        var t :| 0 <= t < |neighbors| && neighbors[t] == x;
      }
    }
  }

  /** Known vertices stay known, under the same vertex and the same reach step. */
  ghost predicate Keeps(known0: map<int, Vertex>, reach0: map<int, int>, known: map<int, Vertex>, reach: map<int, int>) {
    forall id :: id in known0 ==> id in known && known[id] == known0[id] && id in reach && id in reach0 && reach[id] == reach0[id]
  }

  /** A vertex first known in this step was fetched in it, has a neighbour list that is not all zeros, and is reached now. */
  ghost predicate FreshFrom(known0: map<int, Vertex>, known: map<int, Vertex>, reach: map<int, int>, results: seq<Vertex>, step: int) {
    forall id :: id in known && id !in known0 ==> known[id] in results && !AllZero(known[id].neighbors) && id in reach && reach[id] == step
  }

  /** The loop state of Absorb after the first j fetched vertices. */
  ghost predicate AbsorbState(known0: map<int, Vertex>, reach0: map<int, int>, items0: seq<Item>,
                              known: map<int, Vertex>, reach: map<int, int>, items: seq<Item>,
                              results: seq<Vertex>, j: nat, step: int, d: seq<Float32> -> real) {
    j <= |results| &&
    Coherent(known, reach, items, d) &&
    Keeps(known0, reach0, known, reach) &&
    FreshFrom(known0, known, reach, results[..j], step) &&
    (forall t :: 0 <= t < j && !AllZero(results[t].neighbors) ==> results[t].id in known) &&
    (forall id :: id in known && id !in known0 ==> Item(d(known[id].vector), known[id]) in items) &&
    multiset(items0) <= multiset(items) && |known0| <= |known| && |items| == |items0| + |known| - |known0|
  }

  /**
   * The fetched vertices of one step enter the search: each one not yet
   * known, with a neighbour list that is not all zeros, is filed as known,
   * reached at this step, and queued with its distance.
   */
  method Absorb(queue: ExploreQueue, known: map<int, Vertex>, reach: map<int, int>, results: seq<Vertex>,
                step: int, d: seq<Float32> -> real)
    returns (known': map<int, Vertex>, reach': map<int, int>)
    requires queue.Valid() && Coherent(known, reach, queue.items, d)
    modifies queue
    ensures queue.Valid() && Coherent(known', reach', queue.items, d)
    ensures Keeps(known, reach, known', reach') && FreshFrom(known, known', reach', results, step)
    ensures forall v :: v in results && !AllZero(v.neighbors) ==> v.id in known'
    ensures forall id :: id in known' && id !in known ==> Item(d(known'[id].vector), known'[id]) in queue.items
    ensures multiset(old(queue.items)) <= multiset(queue.items)
    ensures |queue.items| == old(|queue.items|) + |known'| - |known|
  {
    ghost var items0 := queue.items;
    known', reach' := known, reach;
    var j := 0;
    while j < |results|
      invariant queue.Valid()
      invariant AbsorbState(known, reach, items0, known', reach', queue.items, results, j, step, d)
    {
      var v := results[j];
      if v.id in known' {
        AbsorbSkip(known, reach, items0, known', reach', queue.items, results, j, step, d);
      } else {
        var ok := HasNonZero(v.neighbors);
        if ok {
          ghost var before := queue.items;
          var x := Item(d(v.vector), v);
          queue.Push(x);
          AbsorbAdd(known, reach, items0, known', reach', before, queue.items, results, j, step, d);
          known' := known'[v.id := v];
          reach' := reach'[v.id := step];
        } else {
          AbsorbSkip(known, reach, items0, known', reach', queue.items, results, j, step, d);
        }
      }
      j := j + 1;
    }
    AbsorbDone(known, reach, known', reach', results, step);
  }

  /** Passing over a fetched vertex already known, or with an all-zero neighbour list, keeps the loop state. */
  lemma AbsorbSkip(known0: map<int, Vertex>, reach0: map<int, int>, items0: seq<Item>,
                   known: map<int, Vertex>, reach: map<int, int>, items: seq<Item>,
                   results: seq<Vertex>, j: nat, step: int, d: seq<Float32> -> real)
    requires AbsorbState(known0, reach0, items0, known, reach, items, results, j, step, d)
    requires j < |results| && (results[j].id in known || AllZero(results[j].neighbors))
    ensures AbsorbState(known0, reach0, items0, known, reach, items, results, j + 1, step, d)
  {
    assert results[..j + 1] == results[..j] + [results[j]];
    FreshWider(known0, known, reach, results[..j], results[..j + 1], step);
  }

  /** Filing and queueing a new fetched vertex keeps the loop state. */
  lemma AbsorbAdd(known0: map<int, Vertex>, reach0: map<int, int>, items0: seq<Item>,
                  known: map<int, Vertex>, reach: map<int, int>, before: seq<Item>, after: seq<Item>,
                  results: seq<Vertex>, j: nat, step: int, d: seq<Float32> -> real)
    requires AbsorbState(known0, reach0, items0, known, reach, before, results, j, step, d)
    requires j < |results| && results[j].id !in known && !AllZero(results[j].neighbors)
    requires multiset(after) == multiset(before) + multiset{Item(d(results[j].vector), results[j])}
    ensures AbsorbState(known0, reach0, items0, known[results[j].id := results[j]], reach[results[j].id := step],
                        after, results, j + 1, step, d)
  {
    var v := results[j];
    CoherentPush(known, reach, before, after, Item(d(v.vector), v), d, step);
    KeepsAdd(known0, reach0, known, reach, v, step);
    assert results[..j + 1] == results[..j] + [v];
    FreshAdd(known0, known, reach, results[..j], v, step);
    assert |multiset(after)| == |multiset(before)| + 1;
    StillQueued(before, after, Item(d(v.vector), v));
  }

  /** A push keeps every queued item and adds the pushed one. */
  lemma StillQueued(before: seq<Item>, after: seq<Item>, y: Item)
    requires multiset(after) == multiset(before) + multiset{y}
    ensures forall x :: x in before ==> x in after
    ensures y in after
  {
    forall x | x in before ensures x in after {
      assert multiset(after)[x] >= multiset(before)[x] > 0;
      assert x in multiset(after);
    }
    assert y in multiset(after);
  }

  /** Adding an id not yet known keeps every earlier entry. */
  lemma KeepsAdd(known0: map<int, Vertex>, reach0: map<int, int>, known: map<int, Vertex>, reach: map<int, int>,
                 v: Vertex, step: int)
    requires Keeps(known0, reach0, known, reach) && v.id !in known
    ensures Keeps(known0, reach0, known[v.id := v], reach[v.id := step])
    ensures |known[v.id := v]| == |known| + 1
  {
  }

  /** A vertex fetched earlier is still fetched once more vertices are looked at. */
  lemma FreshWider(known0: map<int, Vertex>, known: map<int, Vertex>, reach: map<int, int>,
                   seen: seq<Vertex>, seen': seq<Vertex>, step: int)
    requires FreshFrom(known0, known, reach, seen, step) && forall v :: v in seen ==> v in seen'
    ensures FreshFrom(known0, known, reach, seen', step)
  {
  }

  /** Filing the next fetched vertex, reached now, keeps every new entry a fetched one. */
  lemma FreshAdd(known0: map<int, Vertex>, known: map<int, Vertex>, reach: map<int, int>,
                 seen: seq<Vertex>, v: Vertex, step: int)
    requires FreshFrom(known0, known, reach, seen, step) && !AllZero(v.neighbors)
    ensures FreshFrom(known0, known[v.id := v], reach[v.id := step], seen + [v], step)
  {
  }

  /** After the last fetched vertex the loop state gives the contract of Absorb. */
  lemma AbsorbDone(known0: map<int, Vertex>, reach0: map<int, int>, known: map<int, Vertex>, reach: map<int, int>,
                   results: seq<Vertex>, step: int)
    requires FreshFrom(known0, known, reach, results[..|results|], step)
    ensures FreshFrom(known0, known, reach, results, step)
  {
    assert results[..|results|] == results;
  }

  /** The reach step of an id, with the zero a missing map entry reads as. */
  function ReachOf(reach: map<int, int>, id: int): int {
    if id in reach then reach[id] else 0
  }

  /**
   * ret ranks the known vertices by distance: its first min(k, |known|)
   * entries are distinct known ids in non-decreasing distance, no known id
   * left out is nearer than any of them, and the rest is -1.
   */
  ghost predicate TopK(ret: seq<int>, known: map<int, Vertex>, d: seq<Float32> -> real, k: nat) {
    var c := Min(k, |known|);
    |ret| == k &&
    (forall i :: c <= i < k ==> ret[i] == -1) &&
    (forall i :: 0 <= i < c ==> ret[i] in known) &&
    NoDuplicates(ret[..c]) &&
    SortedBy(ret[..c], KnownDist(known, d)) &&
    (forall i, id :: 0 <= i < c && id in known && id !in ret[..c] ==> KnownDist(known, d)(ret[i]) <= KnownDist(known, d)(id))
  }

  /** A set with a positive size has an element. */
  lemma NonEmpty(s: set<int>)
    requires |s| > 0
    ensures exists x :: x in s
  {
    if forall x :: x !in s {
      assert false;
    }
  }

  /** The known ids, one each, in the order a map iteration yields them. */
  method KnownIds(known: map<int, Vertex>) returns (ids: seq<int>)
    ensures NoDuplicates(ids) && |ids| == |known|
    ensures forall id :: id in ids <==> id in known
  {
    ids := [];
    var rest := known.Keys;
    while |rest| > 0
      invariant NoDuplicates(ids) && rest <= known.Keys
      invariant forall id :: id in known ==> (id in ids <==> id !in rest)
      invariant forall id :: id in ids ==> id in known
      invariant |ids| + |rest| == |known|
      decreases |rest|
    {
      NonEmpty(rest);
      var id :| id in rest;
      ids := ids + [id];
      rest := rest - {id};
    }
  }

  /**
   * The output stage of SearchKNN: the known vertices sorted by distance
   * fill the first entries of ret, with their reach steps in stepRet, and
   * -1 fills the rest of both.
   */
  method Rank(known: map<int, Vertex>, reach: map<int, int>, d: seq<Float32> -> real, k: nat)
    returns (ret: seq<int>, stepRet: seq<int>)
    ensures TopK(ret, known, d, k)
    ensures |stepRet| == k && forall i :: 0 <= i < k ==> stepRet[i] == if i < |known| then ReachOf(reach, ret[i]) else -1
  {
    var ids := KnownIds(known);
    var sorted := SortByKey(ids, KnownDist(known, d));
    ret := seq(k, _ => 0);
    stepRet := seq(k, _ => 0);
    var i := 0;
    while i < k
      invariant i <= k && |ret| == k && |stepRet| == k
      invariant forall t :: 0 <= t < i ==> ret[t] == if t < |sorted| then sorted[t] else -1
      invariant forall t :: 0 <= t < i ==> stepRet[t] == if t < |known| then ReachOf(reach, ret[t]) else -1
    {
      if i >= |sorted| {
        ret := ret[i := -1];
        stepRet := stepRet[i := -1];
      } else {
        ret := ret[i := sorted[i]];
        stepRet := stepRet[i := ReachOf(reach, ret[i])];
      }
      i := i + 1;
    }
    RankFacts(known, d, ids, sorted, ret, k);
  }

  /** The sorted known ids, cut at k and padded with -1, rank the known vertices. */
  lemma RankFacts(known: map<int, Vertex>, d: seq<Float32> -> real, ids: seq<int>, sorted: seq<int>, ret: seq<int>, k: nat)
    requires NoDuplicates(ids) && |ids| == |known| && forall id :: id in ids <==> id in known
    requires multiset(sorted) == multiset(ids) && |sorted| == |ids| && SortedBy(sorted, KnownDist(known, d))
    requires |ret| == k && forall t :: 0 <= t < k ==> ret[t] == if t < |sorted| then sorted[t] else -1
    ensures TopK(ret, known, d, k)
  {
    var c := Min(k, |known|);
    var key := KnownDist(known, d);
    assert ret[..c] == sorted[..c];
    SubDistinct(sorted, ids);
    forall i | 0 <= i < c ensures ret[i] in known {
      assert sorted[i] in multiset(ids);
    }
    PrefixNearest(known, d, ids, sorted, c);
  }

  /** No known id left out of a prefix of the sorted ids is nearer than one in it. */
  lemma PrefixNearest(known: map<int, Vertex>, d: seq<Float32> -> real, ids: seq<int>, sorted: seq<int>, c: nat)
    requires forall id :: id in ids <==> id in known
    requires multiset(sorted) == multiset(ids) && SortedBy(sorted, KnownDist(known, d)) && c <= |sorted|
    ensures forall i, id :: 0 <= i < c && id in known && id !in sorted[..c] ==>
      KnownDist(known, d)(sorted[i]) <= KnownDist(known, d)(id)
  {
    var key := KnownDist(known, d);
    forall i, id | 0 <= i < c && id in known && id !in sorted[..c] ensures key(sorted[i]) <= key(id) {
      assert id in multiset(sorted);
      var q :| 0 <= q < |sorted| && sorted[q] == id;
      OutsidePrefix(sorted, c, q);
    }
  }

  /** An element missing from a prefix lies beyond it. */
  lemma OutsidePrefix(s: seq<int>, c: nat, q: nat)
    requires c <= |s| && q < |s| && s[q] !in s[..c]
    ensures c <= q
  {
  }

  /** The answer of a backend that serves every id with the vertex it stores for it. */
  function Fetch(read: int -> Vertex, ids: seq<int>): (r: seq<Vertex>)
    ensures |r| == |ids| && forall i :: 0 <= i < |ids| ==> r[i] == read(ids[i])
  {
    seq(|ids|, i requires 0 <= i < |ids| => read(ids[i]))
  }

  /** What SearchKNN returns, given the vertices it came to know and their reach steps. */
  ghost predicate Answers(ret: seq<int>, stepRet: seq<int>, known: map<int, Vertex>, reach: map<int, int>,
                          starts: seq<Vertex>, read: int -> Vertex, d: seq<Float32> -> real, k: nat, maxStep: int) {
    TopK(ret, known, d, k) &&
    |stepRet| == k &&
    Provenance(known, reach, starts, read, maxStep) &&
    (forall i :: 0 <= i < k && i < |known| ==> ret[i] in reach && stepRet[i] == reach[ret[i]]) &&
    (forall i :: 0 <= i < k && i >= |known| ==> stepRet[i] == -1)
  }

  /**
   * One step of the walk as it was made: the batch fetched is the
   * neighbour lists of the explored vertices, nearest first (at most
   * parallel of them, none when benchmarking), followed by m random ids
   * for each remaining round; the explored vertices are known, and unless
   * the search only benchmarks every fetched vertex with a non-zero
   * neighbour became known.
   */
  ghost predicate StepRecord(batch: seq<int>, explored: seq<Item>, known: map<int, Vertex>, read: int -> Vertex,
                             draw: (int, int, int) -> int, step: int, parallel: nat, m: nat, benchmarking: bool) {
    batch == Neighborhood(explored) + Draws(draw, step, |explored|, parallel, m) &&
    |explored| <= parallel &&
    SortedBy(explored, ItemDist) &&
    (benchmarking ==> explored == []) &&
    (forall x :: x in explored ==> x.vertex.id in known && known[x.vertex.id] == x.vertex) &&
    (!benchmarking ==> forall id :: id in batch && !AllZero(read(id).neighbors) ==> id in known)
  }

  /** The record of every step of a walk of maxStep steps. */
  ghost predicate Walked(batches: seq<seq<int>>, explored: seq<seq<Item>>, known: map<int, Vertex>, read: int -> Vertex,
                         draw: (int, int, int) -> int, maxStep: int, parallel: nat, m: nat, benchmarking: bool) {
    |batches| == (if maxStep > 0 then maxStep else 0) && |explored| == |batches| &&
    forall s :: 0 <= s < |batches| ==> StepRecord(batches[s], explored[s], known, read, draw, s, parallel, m, benchmarking)
  }

  /** Every start vertex has a known vertex at most as far from the query. */
  ghost predicate Covers(known: map<int, Vertex>, starts: seq<Vertex>, d: seq<Float32> -> real) {
    forall v :: v in starts ==> exists id :: id in known && d(known[id].vector) <= d(v.vector)
  }

  /**
   * Unless the search only benchmarks (and some vertex may be explored),
   * its first answer is a known vertex at least as near to the query as
   * every start vertex.
   */
  ghost predicate NearerThanStarts(ret: seq<int>, known: map<int, Vertex>, starts: seq<Vertex>, d: seq<Float32> -> real,
                                   k: nat, parallel: nat, benchmarking: bool) {
    !benchmarking && parallel > 0 && k > 0 ==>
      forall v :: v in starts ==> |ret| > 0 && ret[0] in known && KnownDist(known, d)(ret[0]) <= d(v.vector)
  }

  /**
   * GraphANNFrontend.SearchKNN: seed the queue with the nearest start
   * vertices, then for maxStep steps fetch the neighbours of the nearest
   * queued vertices (or random ids) in one batch and absorb the answer,
   * and finally rank what became known.
   */
  method SearchKNN(starts: seq<Vertex>, read: int -> Vertex, d: seq<Float32> -> real, m: nat, k: nat, maxStep: int,
                   parallel: nat, benchmarking: bool, draw: (int, int, int) -> int)
    returns (ret: seq<int>, stepRet: seq<int>, ghost known: map<int, Vertex>, ghost reach: map<int, int>,
             ghost batches: seq<seq<int>>, ghost explored: seq<seq<Item>>)
    requires forall id :: read(id).id == id
    ensures Answers(ret, stepRet, known, reach, starts, read, d, k, maxStep)
    ensures Walked(batches, explored, known, read, draw, maxStep, parallel, m, benchmarking)
    ensures NearerThanStarts(ret, known, starts, d, k, parallel, benchmarking)
    ensures benchmarking ==> known == map[] && forall i :: 0 <= i < k ==> ret[i] == -1 && stepRet[i] == -1
  {
    var queue, knownV, reachV := StartWalk(starts, read, d, draw, parallel, m, benchmarking);
    batches, explored := [], [];
    var step := 0;
    while step < maxStep
      invariant 0 <= step && (step <= maxStep || step == 0)
      invariant queue.Valid()
      invariant WalkState(queue.items, knownV, reachV, starts, read, d, draw, step, parallel, m, benchmarking, batches, explored)
    {
      knownV, reachV, batches, explored :=
        WalkStep(queue, knownV, reachV, starts, read, d, draw, step, parallel, m, benchmarking, batches, explored);
      step := step + 1;
    }
    WalkDone(queue.items, knownV, reachV, starts, read, d, draw, step, parallel, m, benchmarking, batches, explored, maxStep);
    ret, stepRet := Rank(knownV, reachV, d, k);
    if !benchmarking && parallel > 0 && k > 0 {
      CoversRank(ret, knownV, starts, d, k);
    }
    known, reach := knownV, reachV;
  }

  /** SearchKNN's set-up: an empty queue, seeded unless the search only benchmarks. */
  method StartWalk(starts: seq<Vertex>, read: int -> Vertex, d: seq<Float32> -> real, draw: (int, int, int) -> int,
                   parallel: nat, m: nat, benchmarking: bool)
    returns (queue: ExploreQueue, known: map<int, Vertex>, reach: map<int, int>)
    ensures fresh(queue) && queue.Valid()
    ensures WalkState(queue.items, known, reach, starts, read, d, draw, 0, parallel, m, benchmarking, [], [])
  {
    queue := new ExploreQueue();
    known, reach := map[], map[];
    if !benchmarking {
      known, reach := Seed(starts, d, parallel, queue);
      if parallel > 0 {
        SeedCovers(starts, d, parallel, queue.items, known, reach);
      }
    }
    WalkStarts(queue.items, known, reach, starts, read, d, draw, parallel, m, benchmarking);
  }

  /** A seeded (or, when benchmarking, empty) queue is the walk state before step 0. */
  lemma WalkStarts(items: seq<Item>, known: map<int, Vertex>, reach: map<int, int>, starts: seq<Vertex>,
                   read: int -> Vertex, d: seq<Float32> -> real, draw: (int, int, int) -> int,
                   parallel: nat, m: nat, benchmarking: bool)
    requires Coherent(known, reach, items, d) && FromStarts(known, reach, starts)
    requires benchmarking ==> known == map[] && items == []
    requires !benchmarking && parallel > 0 ==> Covers(known, starts, d)
    ensures WalkState(items, known, reach, starts, read, d, draw, 0, parallel, m, benchmarking, [], [])
  {
  }

  /** After the last step the walk state gives what SearchKNN promises about its walk. */
  lemma WalkDone(items: seq<Item>, known: map<int, Vertex>, reach: map<int, int>, starts: seq<Vertex>,
                 read: int -> Vertex, d: seq<Float32> -> real, draw: (int, int, int) -> int, step: nat,
                 parallel: nat, m: nat, benchmarking: bool, batches: seq<seq<int>>, explored: seq<seq<Item>>, maxStep: int)
    requires WalkState(items, known, reach, starts, read, d, draw, step, parallel, m, benchmarking, batches, explored)
    requires step == if maxStep > 0 then maxStep else 0
    ensures Walked(batches, explored, known, read, draw, maxStep, parallel, m, benchmarking)
    ensures Provenance(known, reach, starts, read, maxStep)
    ensures benchmarking ==> known == map[]
    ensures !benchmarking && parallel > 0 ==> Covers(known, starts, d)
  {
    ProvenanceLater(known, reach, starts, read, step, maxStep);
  }

  /** The state of the walk before step `step`. */
  ghost predicate WalkState(items: seq<Item>, known: map<int, Vertex>, reach: map<int, int>, starts: seq<Vertex>,
                            read: int -> Vertex, d: seq<Float32> -> real, draw: (int, int, int) -> int, step: nat,
                            parallel: nat, m: nat, benchmarking: bool, batches: seq<seq<int>>, explored: seq<seq<Item>>) {
    Coherent(known, reach, items, d) &&
    Provenance(known, reach, starts, read, step) &&
    (benchmarking ==> known == map[] && items == []) &&
    (!benchmarking && parallel > 0 ==> Covers(known, starts, d)) &&
    |batches| == step && |explored| == step &&
    forall s :: 0 <= s < step ==> StepRecord(batches[s], explored[s], known, read, draw, s, parallel, m, benchmarking)
  }

  /** One step of SearchKNN: collect a batch, fetch it, and absorb the answer unless benchmarking. */
  method WalkStep(queue: ExploreQueue, known: map<int, Vertex>, reach: map<int, int>, starts: seq<Vertex>,
                  read: int -> Vertex, d: seq<Float32> -> real, draw: (int, int, int) -> int, step: nat,
                  parallel: nat, m: nat, benchmarking: bool, ghost batches: seq<seq<int>>, ghost explored: seq<seq<Item>>)
    returns (known': map<int, Vertex>, reach': map<int, int>, ghost batches': seq<seq<int>>, ghost explored': seq<seq<Item>>)
    requires forall id :: read(id).id == id
    requires queue.Valid()
    requires WalkState(queue.items, known, reach, starts, read, d, draw, step, parallel, m, benchmarking, batches, explored)
    modifies queue
    ensures queue.Valid()
    ensures WalkState(queue.items, known', reach', starts, read, d, draw, step + 1, parallel, m, benchmarking, batches', explored')
  {
    ghost var queued := queue.items;
    var batchQ, popped := CollectBatch(queue, known, reach, d, m, parallel, step, benchmarking, draw);
    CollectDone(queue.items, queued, popped, batchQ, parallel, benchmarking, draw, step, m, known, reach, d);
    ghost var rest := queue.items;
    var queryResults := Fetch(read, batchQ);
    if !benchmarking {
      known', reach' := Absorb(queue, known, reach, queryResults, step, d);
      ProvenanceStep(known, reach, known', reach', starts, read, queryResults, batchQ, step);
      RecordsKept(batches, explored, known, reach, known', reach', read, draw, step, parallel, m, benchmarking);
      if parallel > 0 {
        CoversKept(known, reach, known', reach', starts, d);
      }
      StepRecorded(queued, rest, popped, batchQ, known, reach, known', reach', read, draw, step, parallel, m, benchmarking);
    } else {
      assert multiset(queue.items) == multiset{};
      known', reach' := known, reach;
      ProvenanceLater(known, reach, starts, read, step, step + 1);
      StepRecorded(queued, rest, popped, batchQ, known, reach, known, reach, read, draw, step, parallel, m, benchmarking);
    }
    batches', explored' := batches + [batchQ], explored + [popped];
    WalkNext(queue.items, known', reach', starts, read, d, draw, step, parallel, m, benchmarking, batches, explored, batchQ, popped);
  }

  /** The pieces of the walk state after a step, with that step's record appended. */
  lemma WalkNext(items: seq<Item>, known: map<int, Vertex>, reach: map<int, int>, starts: seq<Vertex>,
                 read: int -> Vertex, d: seq<Float32> -> real, draw: (int, int, int) -> int, step: nat,
                 parallel: nat, m: nat, benchmarking: bool, batches: seq<seq<int>>, explored: seq<seq<Item>>,
                 batchQ: seq<int>, popped: seq<Item>)
    requires Coherent(known, reach, items, d) && Provenance(known, reach, starts, read, step + 1)
    requires benchmarking ==> known == map[] && items == []
    requires !benchmarking && parallel > 0 ==> Covers(known, starts, d)
    requires |batches| == step && |explored| == step
    requires forall s :: 0 <= s < step ==> StepRecord(batches[s], explored[s], known, read, draw, s, parallel, m, benchmarking)
    requires StepRecord(batchQ, popped, known, read, draw, step, parallel, m, benchmarking)
    ensures WalkState(items, known, reach, starts, read, d, draw, step + 1, parallel, m, benchmarking,
                      batches + [batchQ], explored + [popped])
  {
  }

  /** After seeding with room for at least one vertex, every start vertex has a known vertex no farther away. */
  lemma SeedCovers(starts: seq<Vertex>, d: seq<Float32> -> real, parallel: nat, items: seq<Item>,
                   known: map<int, Vertex>, reach: map<int, int>)
    requires parallel > 0 && Coherent(known, reach, items, d) && |items| == |known|
    requires |items| == parallel || forall v :: v in starts ==> v.id in known
    requires forall v :: v in starts && v.id in known ==> d(known[v.id].vector) <= d(v.vector)
    requires forall x, v :: x in items && v in starts && v.id !in known ==> x.dist <= d(v.vector)
    ensures Covers(known, starts, d)
  {
    forall v | v in starts ensures exists id :: id in known && d(known[id].vector) <= d(v.vector) {
      if v.id !in known {
        var x := items[0];
        assert x in items;
      }
    }
  }

  /** Known vertices never change, so what covers a start vertex keeps covering it. */
  lemma CoversKept(known: map<int, Vertex>, reach: map<int, int>, known': map<int, Vertex>, reach': map<int, int>,
                   starts: seq<Vertex>, d: seq<Float32> -> real)
    requires Covers(known, starts, d) && Keeps(known, reach, known', reach')
    ensures Covers(known', starts, d)
  {
    forall v | v in starts ensures exists id :: id in known' && d(known'[id].vector) <= d(v.vector) {
      var id :| id in known && d(known[id].vector) <= d(v.vector);
      assert id in known';
    }
  }

  /** The nearest known vertex is at least as near as whatever covers a start vertex. */
  lemma CoversRank(ret: seq<int>, known: map<int, Vertex>, starts: seq<Vertex>, d: seq<Float32> -> real, k: nat)
    requires TopK(ret, known, d, k) && Covers(known, starts, d) && k > 0
    ensures forall v :: v in starts ==> |ret| > 0 && ret[0] in known && KnownDist(known, d)(ret[0]) <= d(v.vector)
  {
    var key := KnownDist(known, d);
    forall v | v in starts ensures |ret| > 0 && ret[0] in known && key(ret[0]) <= d(v.vector) {
      var id :| id in known && d(known[id].vector) <= d(v.vector);
      var c := Min(k, |known|);
      assert c > 0;
      if id in ret[..c] {
        var i :| 0 <= i < c && ret[..c][i] == id;
        if i > 0 {
          assert key(ret[..c][0]) <= key(ret[..c][i]);
        }
      }
    }
  }

  /** The records of earlier steps survive a step, since known vertices never change. */
  lemma RecordsKept(batches: seq<seq<int>>, explored: seq<seq<Item>>, known: map<int, Vertex>, reach: map<int, int>,
                    known': map<int, Vertex>, reach': map<int, int>, read: int -> Vertex, draw: (int, int, int) -> int,
                    step: nat, parallel: nat, m: nat, benchmarking: bool)
    requires |batches| == step && |explored| == step && Keeps(known, reach, known', reach')
    requires forall s :: 0 <= s < step ==> StepRecord(batches[s], explored[s], known, read, draw, s, parallel, m, benchmarking)
    ensures forall s :: 0 <= s < step ==> StepRecord(batches[s], explored[s], known', read, draw, s, parallel, m, benchmarking)
  {
  }

  /** A collected and absorbed batch is recorded as this step. */
  lemma StepRecorded(start: seq<Item>, rest: seq<Item>, popped: seq<Item>, batchQ: seq<int>,
                     known: map<int, Vertex>, reach: map<int, int>, known': map<int, Vertex>, reach': map<int, int>,
                     read: int -> Vertex, draw: (int, int, int) -> int, step: int, parallel: nat, m: nat, benchmarking: bool)
    requires forall id :: read(id).id == id
    requires Collected(start, rest, popped, known, batchQ, parallel, benchmarking, draw, step, m)
    requires Keeps(known, reach, known', reach')
    requires !benchmarking ==> forall v :: v in Fetch(read, batchQ) && !AllZero(v.neighbors) ==> v.id in known'
    ensures StepRecord(batchQ, popped, known', read, draw, step, parallel, m, benchmarking)
  {
    if !benchmarking {
      forall id | id in batchQ && !AllZero(read(id).neighbors) ensures id in known' {
        var j :| 0 <= j < |batchQ| && batchQ[j] == id;
        assert Fetch(read, batchQ)[j] == read(id);
      }
    }
  }

  /** Absorbing the answer to a batch of the given ids keeps the provenance of every known vertex. */
  lemma ProvenanceStep(known: map<int, Vertex>, reach: map<int, int>, known': map<int, Vertex>, reach': map<int, int>,
                       starts: seq<Vertex>, read: int -> Vertex, results: seq<Vertex>, batchQ: seq<int>, step: nat)
    requires forall id :: read(id).id == id
    requires results == Fetch(read, batchQ)
    requires Provenance(known, reach, starts, read, step)
    requires Keeps(known, reach, known', reach') && FreshFrom(known, known', reach', results, step)
    requires forall id :: id in known' ==> known'[id].id == id
    ensures Provenance(known', reach', starts, read, step + 1)
  {
    forall id | id in known' && id !in known ensures known'[id] == read(id) {
      var j :| 0 <= j < |results| && results[j] == known'[id];
      assert read(batchQ[j]).id == batchQ[j];
    }
  }

  /** The provenance at the last step holds for any later bound, and for any bound once no step ran. */
  lemma ProvenanceLater(known: map<int, Vertex>, reach: map<int, int>, starts: seq<Vertex>, read: int -> Vertex,
                        step: int, bound: int)
    requires Provenance(known, reach, starts, read, step) && (step <= bound || step == 0)
    ensures Provenance(known, reach, starts, read, bound)
  {
  }

  /** The distance to one query vector. */
  function QueryDist(dist: (seq<Float32>, seq<Float32>) -> real, query: seq<Float32>): seq<Float32> -> real {
    v => dist(v, query)
  }

  /** The random draws made while answering query q. */
  function DrawsFor(draw: (int, int, int, int) -> int, q: int): (int, int, int) -> int {
    (step, rept, i) => draw(q, step, rept, i)
  }

  /** GraphANNFrontend.SearchKNNBatch: SearchKNN on each query vector, the rows in query order. */
  method SearchKNNBatch(starts: seq<Vertex>, read: int -> Vertex, dist: (seq<Float32>, seq<Float32>) -> real,
                        queries: seq<seq<Float32>>, m: nat, k: nat, maxStep: int, parallel: nat, benchmarking: bool,
                        draw: (int, int, int, int) -> int)
    returns (ret: seq<seq<int>>, stepRet: seq<seq<int>>, ghost knowns: seq<map<int, Vertex>>, ghost reaches: seq<map<int, int>>)
    requires forall id :: read(id).id == id
    ensures |ret| == |queries| && |stepRet| == |queries| && |knowns| == |queries| && |reaches| == |queries|
    ensures forall q :: 0 <= q < |queries| ==> Searched(ret[q], stepRet[q], knowns[q], reaches[q], starts, read,
      QueryDist(dist, queries[q]), DrawsFor(draw, q), m, k, maxStep, parallel, benchmarking)
  {
    ret := seq(|queries|, _ => []);
    stepRet := seq(|queries|, _ => []);
    knowns := seq(|queries|, _ => map[]);
    reaches := seq(|queries|, _ => map[]);
    var q := 0;
    while q < |queries|
      invariant q <= |queries| && |ret| == |queries| && |stepRet| == |queries|
      invariant |knowns| == |queries| && |reaches| == |queries|
      invariant forall p :: 0 <= p < q ==> Searched(ret[p], stepRet[p], knowns[p], reaches[p], starts, read,
        QueryDist(dist, queries[p]), DrawsFor(draw, p), m, k, maxStep, parallel, benchmarking)
    {
      var r, st, kn, re, bs, ex := SearchKNN(starts, read, QueryDist(dist, queries[q]), m, k, maxStep, parallel, benchmarking, DrawsFor(draw, q));
      ret := ret[q := r];
      stepRet := stepRet[q := st];
      knowns := knowns[q := kn];
      reaches := reaches[q := re];
      q := q + 1;
    }
  }

  /** The contract of SearchKNN for one query, with the walk it made left unnamed. */
  ghost predicate Searched(ret: seq<int>, stepRet: seq<int>, known: map<int, Vertex>, reach: map<int, int>,
                           starts: seq<Vertex>, read: int -> Vertex, d: seq<Float32> -> real, draw: (int, int, int) -> int,
                           m: nat, k: nat, maxStep: int, parallel: nat, benchmarking: bool) {
    Answers(ret, stepRet, known, reach, starts, read, d, k, maxStep) &&
    (exists batches, explored :: Walked(batches, explored, known, read, draw, maxStep, parallel, m, benchmarking)) &&
    NearerThanStarts(ret, known, starts, d, k, parallel, benchmarking) &&
    (benchmarking ==> known == map[] && forall i :: 0 <= i < k ==> ret[i] == -1 && stepRet[i] == -1)
  }
}

/**
 * The PIR-backed graph of private-search.go.
 *
 * PIRGraphInfo builds the raw database of all entries (laid out as
 * EntryCodec describes), answers vertex requests either from memory or by
 * decoding PIR responses (counting the responses whose neighbours match
 * the stored graph), and draws the start vertices. The random test graph
 * generator sits beside it.
 */
module PrivateSearch {
  import opened Common
  import opened Ids
  import opened Bytes
  import opened EntryCodec
  import GraphSearch

  type Vertex = GraphSearch.Vertex

  /** Where entry i starts in the raw database: i * DBEntryByteNum / 8. */
  function Offset(i: nat, b: nat): nat {
    i * b / 8
  }

  lemma DivAdd(x: nat, y: nat)
    ensures (x + y) / 8 >= x / 8 + y / 8
  {
  }

  lemma DivMono(x: nat, y: nat)
    requires x <= y
    ensures x / 8 <= y / 8
  {
  }

  /** Entries never overlap: entry k ends before entry i starts, and entry n - 1 ends inside the database. */
  lemma OffsetOrder(k: nat, i: nat, b: nat)
    requires k < i
    ensures Offset(k, b) + b / 8 <= Offset(i, b)
  {
    assert (k + 1) * b == k * b + b;
    DivAdd(k * b, b);
    assert (k + 1) * b <= i * b;
    DivMono((k + 1) * b, i * b);
  }

  lemma MulLe(x: nat, y: nat, b: nat)
    requires x <= y
    ensures x * b <= y * b
  {
  }

  /** Entry i of n ends inside the n * b / 8 words of the database. */
  lemma EntryInside(i: nat, n: nat, b: nat)
    requires i < n
    ensures Offset(i, b) + b / 8 <= n * b / 8
  {
    DivAdd(i * b, b);
    assert i * b + b == (i + 1) * b;
    MulLe(i + 1, n, b);
    DivMono((i + 1) * b, n * b);
  }

  /** The encoded entry of vertex k, for a vertex whose vector and row are long enough (empty otherwise). */
  ghost function Row(vectors: seq<seq<Float32>>, graph: seq<seq<int>>, dim: nat, m: nat, k: int): seq<Word> {
    if 0 <= k < |vectors| && k < |graph| && |vectors[k]| >= dim && |graph[k]| >= m
    then EncodeEntry(vectors[k], graph[k], dim, m) else []
  }

  /** The encoded entries of the first count vertices. */
  ghost function Rows(vectors: seq<seq<Float32>>, graph: seq<seq<int>>, dim: nat, m: nat, count: nat): (r: seq<seq<Word>>)
    ensures |r| == count
  {
    seq(count, k => Row(vectors, graph, dim, m, k))
  }

  /** Entry k of entries sits at word Offset(k, b) of raw. */
  ghost predicate Laid(raw: seq<Word>, entries: seq<seq<Word>>, b: nat) {
    forall k :: 0 <= k < |entries| ==>
      Offset(k, b) + b / 8 <= |raw| && raw[Offset(k, b)..Offset(k, b) + b / 8] == entries[k]
  }

  /** Entries placed in the raw database so far. */
  ghost predicate Placed(raw: seq<Word>, count: nat, b: nat, vectors: seq<seq<Float32>>, graph: seq<seq<int>>, dim: nat, m: nat) {
    Laid(raw, Rows(vectors, graph, dim, m, count), b)
  }

  /** A slice below off is the same in two sequences that agree below off. */
  lemma SliceKept(before: seq<Word>, after: seq<Word>, lo: nat, hi: nat, off: nat)
    requires lo <= hi <= off <= |before| == |after| && after[..off] == before[..off]
    ensures after[lo..hi] == before[lo..hi]
  {
    assert after[lo..hi] == after[..off][lo..hi];
    assert before[lo..hi] == before[..off][lo..hi];
  }

  /** Writing at or after the end of the last laid entry keeps every laid entry. */
  lemma LaidKept(before: seq<Word>, after: seq<Word>, off: nat, entries: seq<seq<Word>>, b: nat)
    requires Laid(before, entries, b)
    requires |after| == |before| && off <= |before| && after[..off] == before[..off]
    requires |entries| > 0 ==> Offset(|entries| - 1, b) + b / 8 <= off
    ensures Laid(after, entries, b)
  {
    forall k | 0 <= k < |entries|
      ensures after[Offset(k, b)..Offset(k, b) + b / 8] == entries[k]
    {
      if k < |entries| - 1 {
        OffsetOrder(k, |entries| - 1, b);
      }
      SliceKept(before, after, Offset(k, b), Offset(k, b) + b / 8, off);
    }
  }

  /** Laying one more entry at its offset keeps the earlier ones and adds it. */
  lemma LaidNext(before: seq<Word>, after: seq<Word>, entries: seq<seq<Word>>, e: seq<Word>, b: nat)
    requires Laid(before, entries, b)
    requires |after| == |before| && Offset(|entries|, b) + b / 8 <= |after|
    requires after[..Offset(|entries|, b)] == before[..Offset(|entries|, b)]
    requires after[Offset(|entries|, b)..Offset(|entries|, b) + b / 8] == e
    ensures Laid(after, entries + [e], b)
  {
    if |entries| > 0 {
      OffsetOrder(|entries| - 1, |entries|, b);
    }
    LaidKept(before, after, Offset(|entries|, b), entries, b);
  }

  /** Placing entry count after the entries before it keeps those and adds it. */
  lemma PlacedNext(before: seq<Word>, after: seq<Word>, count: nat, b: nat,
                   vectors: seq<seq<Float32>>, graph: seq<seq<int>>, dim: nat, m: nat)
    requires |vectors| > count && |graph| > count && |vectors[count]| >= dim && |graph[count]| >= m
    requires Placed(before, count, b, vectors, graph, dim, m)
    requires |after| == |before| && Offset(count, b) + b / 8 <= |after|
    requires after[..Offset(count, b)] == before[..Offset(count, b)]
    requires after[Offset(count, b)..Offset(count, b) + b / 8] == EncodeEntry(vectors[count], graph[count], dim, m)
    ensures Placed(after, count + 1, b, vectors, graph, dim, m)
  {
    var rows := Rows(vectors, graph, dim, m, count);
    LaidNext(before, after, rows, EncodeEntry(vectors[count], graph[count], dim, m), b);
    assert Rows(vectors, graph, dim, m, count + 1) == rows + [EncodeEntry(vectors[count], graph[count], dim, m)];
  }

  /** When dim + m is even the entries tile the database: entry i is words [i*E, (i+1)*E). */
  lemma EvenEntriesTile(i: nat, n: nat, dim: nat, m: nat)
    requires (dim + m) % 2 == 0
    ensures Offset(i, EntryByteNum(dim, m)) == i * (EntryByteNum(dim, m) / 8)
    ensures n * EntryByteNum(dim, m) / 8 == n * (EntryByteNum(dim, m) / 8)
  {
    var e := (dim + m) / 2;
    assert EntryByteNum(dim, m) == 8 * e;
    assert i * (8 * e) == 8 * (i * e);
    assert n * (8 * e) == 8 * (n * e);
  }

  /** Go's zero Vertex, which GetVertexInfo leaves where it has no response. */
  const ZeroVertex: Vertex := GraphSearch.Vertex(0, [], [])

  /** The vertex GetVertexInfo builds from one PIR response. */
  function DecodedVertex(id: int, response: seq<Word>, dim: nat, m: nat): Vertex
    requires EntryByteNum(dim, m) <= 8 * |response|
  {
    var (vector, neighbors) := Entry2VectorAndNeighbors(dim, m, response);
    GraphSearch.Vertex(id, neighbors, vector)
  }

  /** What the private path of GetVertexInfo reads: a decodable response and a stored row per response. */
  predicate Decodable(ids: seq<int>, responses: seq<seq<Word>>, graph: seq<seq<int>>, dim: nat, m: nat) {
    |responses| <= |ids| &&
    forall i :: 0 <= i < |responses| ==>
      EntryByteNum(dim, m) <= 8 * |responses[i]| && 0 <= ids[i] < |graph| && |graph[ids[i]]| >= m
  }

  /** Whether a response's neighbours equal the stored graph row (correctQ). */
  predicate Correct(id: int, response: seq<Word>, graph: seq<seq<int>>, dim: nat, m: nat)
    requires EntryByteNum(dim, m) <= 8 * |response| && 0 <= id < |graph| && |graph[id]| >= m
  {
    Entry2VectorAndNeighbors(dim, m, response).1 == graph[id][..m]
  }

  /** The number of responses counted as successful. */
  function SuccessCount(ids: seq<int>, responses: seq<seq<Word>>, graph: seq<seq<int>>, dim: nat, m: nat): (c: nat)
    requires Decodable(ids, responses, graph, dim, m)
    ensures c <= |responses|
  {
    if responses == [] then 0
    else
      var k := |responses| - 1;
      SuccessCount(ids, responses[..k], graph, dim, m) +
        (if Correct(ids[k], responses[k], graph, dim, m) then 1 else 0)
  }

  /** A prefix of decodable responses is decodable; one more response adds one when correct. */
  lemma SuccessCountNext(ids: seq<int>, responses: seq<seq<Word>>, i: nat, graph: seq<seq<int>>, dim: nat, m: nat)
    requires Decodable(ids, responses, graph, dim, m) && i <= |responses|
    ensures Decodable(ids, responses[..i], graph, dim, m)
    ensures i == |responses| ==> responses[..i] == responses
    ensures i < |responses| ==>
      SuccessCount(ids, responses[..i + 1], graph, dim, m) ==
        SuccessCount(ids, responses[..i], graph, dim, m) + (if Correct(ids[i], responses[i], graph, dim, m) then 1 else 0)
  {
    if i < |responses| {
      assert responses[..i + 1][..i] == responses[..i];
    }
  }

  /** The first i response slots hold their decoded vertices, the rest Go's zero Vertex. */
  ghost predicate Filled(vertices: seq<Vertex>, ids: seq<int>, responses: seq<seq<Word>>, i: nat,
                         graph: seq<seq<int>>, dim: nat, m: nat)
    requires Decodable(ids, responses, graph, dim, m)
  {
    |vertices| == |ids| &&
    forall k :: 0 <= k < |ids| ==>
      vertices[k] == (if k < i then PrivateVertices(ids, responses, graph, dim, m)[k] else ZeroVertex)
  }

  /** Decoding response i into slot i extends the filled prefix by one. */
  lemma FilledNext(vertices: seq<Vertex>, ids: seq<int>, responses: seq<seq<Word>>, i: nat,
                   graph: seq<seq<int>>, dim: nat, m: nat)
    requires Decodable(ids, responses, graph, dim, m) && i < |responses|
    requires Filled(vertices, ids, responses, i, graph, dim, m)
    ensures Filled(vertices[i := DecodedVertex(ids[i], responses[i], dim, m)], ids, responses, i + 1, graph, dim, m)
  {
  }

  /** Once every response is decoded, the slots are the private-path vertices. */
  lemma FilledAll(vertices: seq<Vertex>, ids: seq<int>, responses: seq<seq<Word>>, graph: seq<seq<int>>, dim: nat, m: nat)
    requires Decodable(ids, responses, graph, dim, m)
    requires Filled(vertices, ids, responses, |responses|, graph, dim, m)
    ensures vertices == PrivateVertices(ids, responses, graph, dim, m)
  {
    var pv := PrivateVertices(ids, responses, graph, dim, m);
    forall k | 0 <= k < |ids| ensures vertices[k] == pv[k] {
      if k >= |responses| {
        assert pv[k] == ZeroVertex;
      }
    }
  }

  /**
   * The correctness check of GetVertexInfo: the decoded neighbours agree
   * with the stored row position by position, stopping at the first
   * difference.
   */
  method SameNeighbors(neighbors: seq<int>, row: seq<int>) returns (correctQ: bool)
    requires |neighbors| <= |row|
    ensures correctQ <==> neighbors == row[..|neighbors|]
  {
    correctQ := true;
    var j := 0;
    while j < |neighbors|
      invariant 0 <= j <= |neighbors| && neighbors[..j] == row[..j]
    {
      if neighbors[j] != row[j] {
        correctQ := false;
        break;
      }
      assert neighbors[..j + 1] == neighbors[..j] + [neighbors[j]];
      assert row[..j + 1] == row[..j] + [row[j]];
      j := j + 1;
    }
    assert !correctQ ==> neighbors[j] != row[..|neighbors|][j];
  }

  /** The vertices of the private path: decoded where a response exists, zero values after. */
  function PrivateVertices(ids: seq<int>, responses: seq<seq<Word>>, graph: seq<seq<int>>, dim: nat, m: nat): (r: seq<Vertex>)
    requires Decodable(ids, responses, graph, dim, m)
    ensures |r| == |ids|
  {
    seq(|ids|, i requires 0 <= i < |ids| =>
      if i < |responses| then DecodedVertex(ids[i], responses[i], dim, m) else ZeroVertex)
  }

  /** The vertices of the in-memory path: graph[id] and vectors[id] in request order. */
  function StoredVertices(ids: seq<int>, graph: seq<seq<int>>, vectors: seq<seq<Float32>>): (r: seq<Vertex>)
    requires forall i :: 0 <= i < |ids| ==> 0 <= ids[i] < |graph| && ids[i] < |vectors|
    ensures |r| == |ids|
  {
    seq(|ids|, i requires 0 <= i < |ids| => GraphSearch.Vertex(ids[i], graph[ids[i]], vectors[ids[i]]))
  }

  /** The responses are the stored entries of the requested ids. */
  predicate Honest(ids: seq<int>, responses: seq<seq<Word>>, graph: seq<seq<int>>, vectors: seq<seq<Float32>>, dim: nat, m: nat) {
    |responses| <= |ids| &&
    forall i :: 0 <= i < |responses| ==>
      0 <= ids[i] < |graph| && ids[i] < |vectors| &&
      |vectors[ids[i]]| >= dim && |graph[ids[i]]| >= m &&
      responses[i] == EncodeEntry(vectors[ids[i]], graph[ids[i]], dim, m)
  }

  /** Every stored neighbour id fits in a uint32. */
  predicate Uint32Rows(graph: seq<seq<int>>, m: nat) {
    forall id, j :: 0 <= id < |graph| && 0 <= j < m && j < |graph[id]| ==> 0 <= graph[id][j] < 0x1_0000_0000
  }

  /**
   * When the PIR answers with the stored entries (dim + m even, ids fitting
   * a uint32), the private path returns the in-memory vertices cut to dim
   * and m, and every response counts as a success.
   */
  lemma HonestResponsesSucceed(ids: seq<int>, responses: seq<seq<Word>>, graph: seq<seq<int>>,
                               vectors: seq<seq<Float32>>, dim: nat, m: nat)
    requires (dim + m) % 2 == 0 && Uint32Rows(graph, m)
    requires Honest(ids, responses, graph, vectors, dim, m)
    ensures Decodable(ids, responses, graph, dim, m)
    ensures SuccessCount(ids, responses, graph, dim, m) == |responses|
    ensures forall i :: 0 <= i < |responses| ==>
      PrivateVertices(ids, responses, graph, dim, m)[i] ==
        GraphSearch.Vertex(ids[i], graph[ids[i]][..m], vectors[ids[i]][..dim])
  {
    forall i | 0 <= i < |responses|
      ensures EntryByteNum(dim, m) <= 8 * |responses[i]|
      ensures Entry2VectorAndNeighbors(dim, m, responses[i]) == (vectors[ids[i]][..dim], graph[ids[i]][..m])
    {
      var id := ids[i];
      assert forall j :: 0 <= j < m ==> 0 <= graph[id][j] < 0x1_0000_0000;
      EntryRoundTrip(vectors[id], graph[id], dim, m);
      assert responses[i] == EncodeEntry(vectors[id], graph[id], dim, m);
    }
    HonestCount(ids, responses, graph, vectors, dim, m);
  }

  lemma {:induction false} HonestCount(ids: seq<int>, responses: seq<seq<Word>>, graph: seq<seq<int>>,
                                       vectors: seq<seq<Float32>>, dim: nat, m: nat)
    requires Decodable(ids, responses, graph, dim, m)
    requires forall i :: 0 <= i < |responses| ==> Entry2VectorAndNeighbors(dim, m, responses[i]).1 == graph[ids[i]][..m]
    ensures SuccessCount(ids, responses, graph, dim, m) == |responses|
  {
    if responses != [] {
      var k := |responses| - 1;
      assert Decodable(ids, responses[..k], graph, dim, m);
      HonestCount(ids, responses[..k], graph, vectors, dim, m);
    }
  }

  /** The loop of GetVertexInfo's in-memory path: each requested row and vector, in request order. */
  method CollectStored(ids: seq<int>, graph: seq<seq<int>>, vectors: seq<seq<Float32>>) returns (vertices: seq<Vertex>)
    requires forall i :: 0 <= i < |ids| ==> 0 <= ids[i] < |graph| && ids[i] < |vectors|
    ensures vertices == StoredVertices(ids, graph, vectors)
  {
    vertices := [];
    for i := 0 to |ids|
      invariant |vertices| == i
      invariant forall k :: 0 <= k < i ==> vertices[k] == GraphSearch.Vertex(ids[k], graph[ids[k]], vectors[ids[k]])
    {
      vertices := vertices + [GraphSearch.Vertex(ids[i], graph[ids[i]], vectors[ids[i]])];
    }
  }

  /**
   * The loop of GetVertexInfo's private path: each response decoded into
   * the slot of its id (zero vertices after the last response), and the
   * number of responses whose neighbours match the stored row.
   */
  method DecodeResponses(ids: seq<int>, resp: seq<seq<Word>>, graph: seq<seq<int>>, dim: nat, m: nat)
    returns (vertices: seq<Vertex>, succ: nat)
    requires Decodable(ids, resp, graph, dim, m)
    ensures vertices == PrivateVertices(ids, resp, graph, dim, m)
    ensures succ == SuccessCount(ids, resp, graph, dim, m)
  {
    vertices := seq(|ids|, _ => ZeroVertex);
    succ := 0;
    for i := 0 to |resp|
      invariant Filled(vertices, ids, resp, i, graph, dim, m)
      invariant Decodable(ids, resp[..i], graph, dim, m)
      invariant succ == SuccessCount(ids, resp[..i], graph, dim, m)
    {
      var (vector, neighbors) := Entry2VectorAndNeighbors(dim, m, resp[i]);
      FilledNext(vertices, ids, resp, i, graph, dim, m);
      vertices := vertices[i := GraphSearch.Vertex(ids[i], neighbors, vector)];
      var correctQ := SameNeighbors(neighbors, graph[ids[i]]);
      SuccessCountNext(ids, resp, i, graph, dim, m);
      if correctQ {
        succ := succ + 1;
      }
    }
    SuccessCountNext(ids, resp, |resp|, graph, dim, m);
    FilledAll(vertices, ids, resp, graph, dim, m);
  }

  /** PIRGraphInfo: the graph, its vectors, the raw database built from them, and the query counters. */
  class PIRGraphInfo {
    const n: nat
    const dim: nat
    const m: nat
    const graph: seq<seq<int>>
    const vectors: seq<seq<Float32>>
    const nonPrivateMode: bool

    var dbEntryByteNum: nat
    var dbTotalSize: nat
    var rawDB: seq<Word>
    var totalQueryNum: int
    var succQueryNum: int

    constructor(n: nat, dim: nat, m: nat, graph: seq<seq<int>>, vectors: seq<seq<Float32>>, nonPrivateMode: bool)
      ensures this.n == n && this.dim == dim && this.m == m
      ensures this.graph == graph && this.vectors == vectors && this.nonPrivateMode == nonPrivateMode
      ensures dbEntryByteNum == 0 && dbTotalSize == 0 && rawDB == []
      ensures totalQueryNum == 0 && succQueryNum == 0
    {
      this.n := n;
      this.dim := dim;
      this.m := m;
      this.graph := graph;
      this.vectors := vectors;
      this.nonPrivateMode := nonPrivateMode;
      dbEntryByteNum := 0;
      dbTotalSize := 0;
      rawDB := [];
      totalQueryNum := 0;
      succQueryNum := 0;
    }

    /** The rows Preprocess reads: n vectors of at least dim floats and n rows of at least m ids. */
    predicate Stored() {
      |vectors| >= n && |graph| >= n &&
      forall i :: 0 <= i < n ==> |vectors[i]| >= dim && |graph[i]| >= m
    }

    /**
     * Preprocess, up to the PIR set-up: rawDB holds n * DBEntryByteNum / 8
     * words, entry i at word i * DBEntryByteNum / 8.
     */
    method Preprocess()
      requires Stored()
      modifies this
      ensures dbEntryByteNum == EntryByteNum(dim, m) && dbTotalSize == n * dbEntryByteNum
      ensures |rawDB| == n * dbEntryByteNum / 8
      ensures Placed(rawDB, n, dbEntryByteNum, vectors, graph, dim, m)
      ensures totalQueryNum == old(totalQueryNum) && succQueryNum == old(succQueryNum)
    {
      var b := 4 * (dim + m);
      var raw := new Word[n * b / 8](_ => 0);
      for i := 0 to n
        invariant unchanged(this)
        invariant raw.Length == n * b / 8
        invariant Placed(raw[..], i, b, vectors, graph, dim, m)
      {
        var entry := EncodeRow(vectors[i], graph[i], dim, m);
        EntryInside(i, n, b);
        ghost var before := raw[..];
        CopyAt(raw, Offset(i, b), entry);
        PlacedNext(before, raw[..], i, b, vectors, graph, dim, m);
      }
      rawDB := raw[..];
      dbEntryByteNum := b;
      dbTotalSize := n * b;
    }

    /**
     * GetVertexInfo. The PIR's batch query is not part of this method: its
     * outcome arrives as responses (an error or one entry per answered id).
     */
    method GetVertexInfo(ids: seq<int>, responses: Result<seq<seq<Word>>, string>) returns (r: Result<seq<Vertex>, string>)
      requires nonPrivateMode ==> forall i :: 0 <= i < |ids| ==> 0 <= ids[i] < |graph| && ids[i] < |vectors|
      requires !nonPrivateMode && responses.Ok? ==> Decodable(ids, responses.value, graph, dim, m)
      modifies this
      ensures totalQueryNum == old(totalQueryNum) + |ids|
      ensures rawDB == old(rawDB) && dbEntryByteNum == old(dbEntryByteNum) && dbTotalSize == old(dbTotalSize)
      ensures nonPrivateMode ==> r == Ok(StoredVertices(ids, graph, vectors)) && succQueryNum == old(succQueryNum)
      ensures !nonPrivateMode && responses.Err? ==> r == Err(responses.error) && succQueryNum == old(succQueryNum)
      ensures !nonPrivateMode && responses.Ok? ==>
        r == Ok(PrivateVertices(ids, responses.value, graph, dim, m)) &&
        succQueryNum == old(succQueryNum) + SuccessCount(ids, responses.value, graph, dim, m)
    {
      totalQueryNum := totalQueryNum + |ids|;
      if nonPrivateMode {
        var vertices := CollectStored(ids, graph, vectors);
        return Ok(vertices);
      }
      if responses.Err? {
        return Err(responses.error);
      }
      var vertices, succ := DecodeResponses(ids, responses.value, graph, dim, m);
      succQueryNum := succQueryNum + succ;
      return Ok(vertices);
    }

    /**
     * GetStartVertex: floor(sqrt(n)) distinct ids drawn from [0, n), each
     * with its in-memory row and vector. A draw that hits an id already
     * taken is redrawn; the model picks an untaken id directly.
     */
    method GetStartVertex() returns (ret: seq<Vertex>)
      requires |vectors| >= n && |graph| >= n
      ensures |ret| == ISqrt(n)
      ensures forall i :: 0 <= i < |ret| ==>
        0 <= ret[i].id < n && ret[i] == GraphSearch.Vertex(ret[i].id, graph[ret[i].id], vectors[ret[i].id])
      ensures forall i, j :: 0 <= i < j < |ret| ==> ret[i].id != ret[j].id
    {
      var targetNum := ISqrt(n);
      SqrtBelow(n);
      var added: set<nat> := {};
      var batch: seq<nat> := [];
      ret := [];
      for i := 0 to targetNum
        invariant |batch| == i && |ret| == i
        invariant forall x :: x in added <==> x in batch
        invariant NoDuplicates(batch)
        invariant forall k :: 0 <= k < i ==>
          ret[k].id == batch[k] < n && ret[k] == GraphSearch.Vertex(batch[k], graph[batch[k]], vectors[batch[k]])
      {
        var free := FreeId(batch, n);
        var x :| 0 <= x < n && x !in added;
        added := added + {x};
        batch := batch + [x];
        ret := ret + [GraphSearch.Vertex(x, graph[x], vectors[x])];
      }
    }
  }

  lemma SqrtBelow(n: nat)
    ensures ISqrt(n) <= n
  {
    var r := ISqrt(n);
    if r > 0 {
      assert r <= r * r;
    }
  }

  /** Every row has m ids in [0, n) and no id equals its own row index. */
  predicate RandomGraphShape(g: seq<seq<int>>, n: nat, m: nat) {
    |g| == n &&
    forall i :: 0 <= i < n ==> |g[i]| == m && forall j :: 0 <= j < m ==> 0 <= g[i][j] < n && g[i][j] != i
  }

  /**
   * genRandomGraph. A draw equal to the row index is redrawn; the model
   * picks any other id directly. With a single vertex there is no other id
   * and the source redraws forever, so that case needs m == 0.
   */
  method GenRandomGraph(n: nat, m: nat) returns (ret: seq<seq<int>>)
    requires n != 1 || m == 0
    ensures RandomGraphShape(ret, n, m)
  {
    ret := [];
    for i := 0 to n
      invariant |ret| == i
      invariant forall r :: 0 <= r < i ==> |ret[r]| == m && forall j :: 0 <= j < m ==> 0 <= ret[r][j] < n && ret[r][j] != r
    {
      var row: seq<int> := [];
      for j := 0 to m
        invariant |row| == j
        invariant forall l :: 0 <= l < j ==> 0 <= row[l] < n && row[l] != i
      {
        assert (if i == 0 then 1 else 0) != i;
        var k :| 0 <= k < n && k != i;
        row := row + [k];
      }
      ret := ret + [row];
    }
  }
}

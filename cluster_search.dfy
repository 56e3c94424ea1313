/**
 * The single-probe IVF baseline of cluster-search.py: a k-means clustering
 * of the data set (computed by an external library and taken here as an
 * input), a cluster-contiguous layout of the vectors, persistence of the
 * clustering with shape checks, the nearest-centroid search that scans one
 * cluster, and the recall metric.
 *
 * Vectors are of an arbitrary type V; the Euclidean distance to a query is
 * an uninterpreted function V -> real supplied with each search.
 */
module ClusterSearch {
  import opened Common
  import opened Sorting
  import opened ClusterLayout
  import opened Ids

  /** The exceptions the script can raise on the modelled paths. */
  datatype Error =
    | FilesMissing        // ValueError: a persisted artifact does not exist
    | CentroidShape       // ValueError: centroids are not n_clusters x dim
    | LabelShape          // ValueError: there are not n labels
    | NoClustering        // centroids / labels are still None
    | EmptyArray          // ValueError: min or argmin of an empty array
    | IndexOutOfBounds    // IndexError
    | ZeroDivision        // ZeroDivisionError

  /** A two-dimensional float32 array: its rows and its second extent. */
  datatype Matrix<V> = Matrix(rows: seq<V>, cols: nat)

  /** The k-means output: centroids and the cluster label of every vector. */
  datatype Clustering<V> = Clustering(centroids: Matrix<V>, labels: seq<nat>)

  /** The .npy files on disk, by path: float matrices and label arrays. */
  datatype Store<V> = Store(matrices: map<string, Matrix<V>>, labelArrays: map<string, seq<nat>>)

  function CentroidPath(savepath: string, dataset: string): string {
    savepath + "/" + dataset + "-centroids.npy"
  }

  function LabelPath(savepath: string, dataset: string): string {
    savepath + "/" + dataset + "-labels.npy"
  }

  /** The check made before saving and after loading. */
  function ShapeCheck<V>(c: Clustering<V>, n: nat, dim: nat, nClusters: nat): (r: Option<Error>)
    ensures r.None? <==> c.centroids.cols == dim && |c.centroids.rows| == nClusters && |c.labels| == n
    ensures r == Some(CentroidShape) <==> c.centroids.cols != dim || |c.centroids.rows| != nClusters
    ensures r.Some? ==> r == Some(CentroidShape) || r == Some(LabelShape)
  {
    if c.centroids.cols != dim || |c.centroids.rows| != nClusters then Some(CentroidShape)
    else if |c.labels| != n then Some(LabelShape)
    else None
  }

  /** The two np.save calls. */
  function Persist<V>(store: Store<V>, savepath: string, dataset: string, c: Clustering<V>): Store<V> {
    Store(store.matrices[CentroidPath(savepath, dataset) := c.centroids],
          store.labelArrays[LabelPath(savepath, dataset) := c.labels])
  }

  /** The existence test and the two np.load calls. */
  function Lookup<V>(store: Store<V>, savepath: string, dataset: string): Option<Clustering<V>> {
    var cp := CentroidPath(savepath, dataset);
    var lp := LabelPath(savepath, dataset);
    if cp in store.matrices && lp in store.labelArrays then
      Some(Clustering(store.matrices[cp], store.labelArrays[lp]))
    else None
  }

  /** Whatever was persisted under a save path and data set name is read back unchanged. */
  lemma PersistLookup<V>(store: Store<V>, savepath: string, dataset: string, c: Clustering<V>)
    ensures Lookup(Persist(store, savepath, dataset, c), savepath, dataset) == Some(c)
  {
  }

  /**
   * The in-cluster offsets search keeps: the argsort of the distances cut
   * to k, or padded with offset 0 up to k when the cluster is smaller.
   */
  function TopKOffsets<V>(cluster: seq<V>, dist: V -> real, k: nat): (pick: seq<nat>)
    ensures TopKPick(cluster, dist, k, pick)
  {
    var top := ArgSort(cluster, dist);
    var pick := if |top| < k then top + seq(k - |top|, _ => 0) else top[..k];
    TopKFacts(cluster, dist, k, top, pick);
    pick
  }

  /**
   * pick lists k offsets into cluster: the first min(k, |cluster|) are
   * distinct, in ascending distance, and no offset left out is nearer than
   * any of them; the rest are 0.
   */
  ghost predicate TopKPick<V>(cluster: seq<V>, dist: V -> real, k: nat, pick: seq<nat>)
  {
    && |pick| == k
    && (forall j :: 0 <= j < k && j < |cluster| ==> pick[j] < |cluster|)
    && (forall j :: |cluster| <= j < k ==> pick[j] == 0)
    && (forall j, j' :: 0 <= j < j' < k && j' < |cluster| ==> pick[j] != pick[j'])
    && (forall j, j' :: 0 <= j < j' < k && j' < |cluster| ==>
          dist(cluster[pick[j]]) <= dist(cluster[pick[j']]))
    && (forall q :: 0 <= q < |cluster| && q !in pick[..Min(k, |cluster|)] ==>
          forall j :: 0 <= j < k && j < |cluster| ==> dist(cluster[pick[j]]) <= dist(cluster[q]))
  }

  lemma TopKFacts<V>(cluster: seq<V>, dist: V -> real, k: nat, top: seq<nat>, pick: seq<nat>)
    requires multiset(top) == multiset(Range(|cluster|))
    requires |top| == |cluster| && forall i :: 0 <= i < |top| ==> top[i] < |cluster|
    requires forall i, j :: 0 <= i < j < |top| ==> dist(cluster[top[i]]) <= dist(cluster[top[j]])
    requires pick == if |top| < k then top + seq(k - |top|, _ => 0) else top[..k]
    ensures |pick| == k
    ensures forall j :: 0 <= j < k && j < |cluster| ==> pick[j] < |cluster|
    ensures forall j :: |cluster| <= j < k ==> pick[j] == 0
    ensures forall j, j' :: 0 <= j < j' < k && j' < |cluster| ==> pick[j] != pick[j']
    ensures forall j, j' :: 0 <= j < j' < k && j' < |cluster| ==>
      dist(cluster[pick[j]]) <= dist(cluster[pick[j']])
    ensures forall q :: 0 <= q < |cluster| && q !in pick[..Min(k, |cluster|)] ==>
      forall j :: 0 <= j < k && j < |cluster| ==> dist(cluster[pick[j]]) <= dist(cluster[q])
  {
    PermutationOfRange(top, |cluster|);
    var m := Min(k, |cluster|);
    assert forall j :: 0 <= j < m ==> pick[j] == top[j];
    TopKNearest(cluster, dist, k, top, pick);
  }

  /** Every position of the cluster the pick leaves out is at least as far as every picked one. */
  lemma TopKNearest<V>(cluster: seq<V>, dist: V -> real, k: nat, top: seq<nat>, pick: seq<nat>)
    requires multiset(top) == multiset(Range(|cluster|))
    requires |top| == |cluster| && forall i :: 0 <= i < |top| ==> top[i] < |cluster|
    requires forall i, j :: 0 <= i < j < |top| ==> dist(cluster[top[i]]) <= dist(cluster[top[j]])
    requires pick == if |top| < k then top + seq(k - |top|, _ => 0) else top[..k]
    ensures forall q :: 0 <= q < |cluster| && q !in pick[..Min(k, |cluster|)] ==>
      forall j :: 0 <= j < k && j < |cluster| ==> dist(cluster[pick[j]]) <= dist(cluster[q])
  {
    PermutationOfRange(top, |cluster|);
    var m := Min(k, |cluster|);
    assert pick[..m] == top[..m];
    forall t | 0 <= t < m ensures top[t] in pick[..m] {
      assert pick[..m][t] == top[t];
    }
    forall q | 0 <= q < |cluster| && q !in pick[..m]
      ensures forall j :: 0 <= j < k && j < |cluster| ==> dist(cluster[pick[j]]) <= dist(cluster[q])
    {
      assert q in top;
      var t :| 0 <= t < |top| && top[t] == q;
      assert m <= t;
    }
  }

  /**
   * The ids a query gets from the cluster held in layout slots
   * [start, end): the cluster's k nearest in ascending distance, then the
   * id at slot start for every padding offset.
   */
  function ScanCluster<V>(si: seq<nat>, sv: seq<V>, start: nat, end: nat, dist: V -> real, k: nat): (ids: seq<nat>)
    requires start <= end <= |si| == |sv|
    requires k > 0 && start == end ==> start < |si|
    ensures |ids| == k
  {
    Translate(si, start, TopKOffsets(sv[start..end], dist, k))
  }

  /** sorted_indices[cluster_start + top_k_offsets]: offsets within a cluster become ids. */
  function Translate(si: seq<nat>, start: nat, pick: seq<nat>): (ids: seq<nat>)
    requires forall j :: 0 <= j < |pick| ==> start + pick[j] < |si|
    ensures |ids| == |pick|
    ensures forall j :: 0 <= j < |pick| ==> ids[j] == si[start + pick[j]]
  {
    seq(|pick|, j requires 0 <= j < |pick| => si[start + pick[j]])
  }

  /**
   * ids answer a query whose nearest centroid is c, the cluster sitting in
   * layout slots [start, end): k ids; the first min(k, cluster size) are
   * distinct members of cluster c in ascending distance and no member left
   * out is nearer than any of them; later slots repeat the id at slot start.
   */
  ghost predicate ClusterAnswer<V>(I: seq<nat>, vs: seq<V>, si: seq<nat>, start: nat, end: nat,
                                   ids: seq<nat>, c: nat, dist: V -> real, k: nat)
  {
    var size := if start <= end then end - start else 0;
    && AnswerMembers(I, si, start, size, ids, c, k)
    && AnswerOrdered(vs, ids, size, dist, k)
    && AnswerComplete(I, vs, ids, size, c, dist, k)
  }

  /** The first min(k, size) ids are distinct members of cluster c; the rest repeat slot start. */
  ghost predicate AnswerMembers(I: seq<nat>, si: seq<nat>, start: nat, size: nat, ids: seq<nat>, c: nat, k: nat)
  {
    && |ids| == k
    && (forall j :: 0 <= j < k ==> ids[j] < |I|)
    && (forall j :: 0 <= j < k && j < size ==> I[ids[j]] == c)
    && (forall j, j' :: 0 <= j < j' < k && j' < size ==> ids[j] != ids[j'])
    && (forall j :: size <= j < k ==> start < |si| && ids[j] == si[start])
  }

  /** The first min(k, size) ids come in ascending distance. */
  ghost predicate AnswerOrdered<V>(vs: seq<V>, ids: seq<nat>, size: nat, dist: V -> real, k: nat)
  {
    && |ids| == k
    && (forall j :: 0 <= j < k ==> ids[j] < |vs|)
    && (forall j, j' :: 0 <= j < j' < k && j' < size ==> dist(vs[ids[j]]) <= dist(vs[ids[j']]))
  }

  /** No member of cluster c left out of the first min(k, size) ids is nearer than one of them. */
  ghost predicate AnswerComplete<V>(I: seq<nat>, vs: seq<V>, ids: seq<nat>, size: nat, c: nat, dist: V -> real, k: nat)
  {
    && |ids| == k && |I| <= |vs|
    && (forall j :: 0 <= j < k ==> ids[j] < |vs|)
    && (forall i :: 0 <= i < |I| && I[i] == c && i !in ids[..Min(k, size)] ==>
          forall j :: 0 <= j < k && j < size ==> dist(vs[ids[j]]) <= dist(vs[i]))
  }

  /** The layout facts a scan of one cluster relies on. */
  ghost predicate ScanReady<V>(I: seq<nat>, vs: seq<V>, si: seq<nat>, sv: seq<V>, start: nat, end: nat, c: nat)
  {
    && |I| <= |vs| && |si| == |sv| && start <= end <= |si|
    && (forall p :: 0 <= p < |si| ==> si[p] < |I|)
    && (forall p, q :: 0 <= p < q < |si| ==> si[p] != si[q])
    && (forall p :: 0 <= p < |si| ==> sv[p] == vs[si[p]])
    && (forall p :: start <= p < end ==> I[si[p]] == c)
    && (forall i :: 0 <= i < |I| && I[i] == c ==> i in si[start..end])
  }

  lemma ScanCorrect<V>(I: seq<nat>, vs: seq<V>, si: seq<nat>, sv: seq<V>, start: nat, end: nat,
                       c: nat, dist: V -> real, k: nat)
    requires ScanReady(I, vs, si, sv, start, end, c)
    requires k > 0 && start == end ==> start < |si|
    ensures ClusterAnswer(I, vs, si, start, end, ScanCluster(si, sv, start, end, dist, k), c, dist, k)
  {
    var cluster := sv[start..end];
    var pick := TopKOffsets(cluster, dist, k);
    ScanCorrectOn(I, vs, si, sv, cluster, start, end, c, dist, k, pick);
  }

  /** ScanCorrect, for any pick with the properties TopKOffsets promises. */
  lemma ScanCorrectOn<V>(I: seq<nat>, vs: seq<V>, si: seq<nat>, sv: seq<V>, cluster: seq<V>, start: nat, end: nat,
                         c: nat, dist: V -> real, k: nat, pick: seq<nat>)
    requires ScanReady(I, vs, si, sv, start, end, c) && cluster == sv[start..end]
    requires k > 0 && start == end ==> start < |si|
    requires TopKPick(cluster, dist, k, pick)
    ensures forall j :: 0 <= j < |pick| ==> start + pick[j] < |si|
    ensures ClusterAnswer(I, vs, si, start, end, Translate(si, start, pick), c, dist, k)
  {
    var ids := Translate(si, start, pick);
    ScanMembers(I, si, start, end, c, pick, ids, k);
    ScanOrder(vs, si, sv, cluster, start, end, dist, pick, ids, k);
    ScanComplete(I, vs, si, sv, cluster, start, end, c, dist, pick, ids, k);
  }

  lemma ScanMembers(I: seq<nat>, si: seq<nat>, start: nat, end: nat, c: nat, pick: seq<nat>, ids: seq<nat>, k: nat)
    requires start <= end <= |si| && (k > 0 && start == end ==> start < |si|)
    requires |pick| == k && |ids| == k
    requires forall j :: 0 <= j < k && j < end - start ==> pick[j] < end - start
    requires forall j :: end - start <= j < k ==> pick[j] == 0
    requires forall j, j' :: 0 <= j < j' < k && j' < end - start ==> pick[j] != pick[j']
    requires forall j :: 0 <= j < k ==> start + pick[j] < |si| && ids[j] == si[start + pick[j]]
    requires forall p :: 0 <= p < |si| ==> si[p] < |I|
    requires forall p, q :: 0 <= p < q < |si| ==> si[p] != si[q]
    requires forall p :: start <= p < end ==> I[si[p]] == c
    ensures forall j :: 0 <= j < k ==> ids[j] < |I|
    ensures forall j :: 0 <= j < k && j < end - start ==> I[ids[j]] == c
    ensures forall j, j' :: 0 <= j < j' < k && j' < end - start ==> ids[j] != ids[j']
    ensures forall j :: end - start <= j < k ==> start < |si| && ids[j] == si[start]
  {
    forall j, j' | 0 <= j < j' < k && j' < end - start ensures ids[j] != ids[j'] {
      var p, q := start + pick[j], start + pick[j'];
      if p < q {
        assert si[p] != si[q];
      } else {
        assert si[q] != si[p];
      }
    }
  }

  lemma ScanOrder<V>(vs: seq<V>, si: seq<nat>, sv: seq<V>, cluster: seq<V>, start: nat, end: nat,
                     dist: V -> real, pick: seq<nat>, ids: seq<nat>, k: nat)
    requires start <= end <= |si| == |sv| && cluster == sv[start..end]
    requires |pick| == k && |ids| == k
    requires forall j :: 0 <= j < k && j < end - start ==> pick[j] < end - start
    requires forall j, j' :: 0 <= j < j' < k && j' < end - start ==>
      dist(cluster[pick[j]]) <= dist(cluster[pick[j']])
    requires forall j :: 0 <= j < k && j < end - start ==> ids[j] == si[start + pick[j]]
    requires forall p :: 0 <= p < |si| ==> si[p] < |vs| && sv[p] == vs[si[p]]
    ensures forall j :: 0 <= j < k && j < end - start ==> vs[ids[j]] == cluster[pick[j]]
    ensures forall j, j' :: 0 <= j < j' < k && j' < end - start ==> dist(vs[ids[j]]) <= dist(vs[ids[j']])
  {
    forall j | 0 <= j < k && j < end - start ensures vs[ids[j]] == cluster[pick[j]] {
      assert cluster[pick[j]] == sv[start + pick[j]];
    }
  }

  lemma ScanComplete<V>(I: seq<nat>, vs: seq<V>, si: seq<nat>, sv: seq<V>, cluster: seq<V>, start: nat, end: nat,
                        c: nat, dist: V -> real, pick: seq<nat>, ids: seq<nat>, k: nat)
    requires start <= end <= |si| == |sv| && cluster == sv[start..end] && |I| <= |vs|
    requires |pick| == k && |ids| == k
    requires forall j :: 0 <= j < k && j < end - start ==> pick[j] < end - start
    requires forall j :: 0 <= j < k && j < end - start ==> ids[j] == si[start + pick[j]]
    requires forall p :: 0 <= p < |si| ==> si[p] < |vs| && sv[p] == vs[si[p]]
    requires forall j :: 0 <= j < k && j < end - start ==> vs[ids[j]] == cluster[pick[j]]
    requires forall q :: 0 <= q < |cluster| && q !in pick[..Min(k, |cluster|)] ==>
      forall j :: 0 <= j < k && j < |cluster| ==> dist(cluster[pick[j]]) <= dist(cluster[q])
    requires forall i :: 0 <= i < |I| && I[i] == c ==> i in si[start..end]
    ensures forall i :: 0 <= i < |I| && I[i] == c && i !in ids[..Min(k, end - start)] ==>
      forall j :: 0 <= j < k && j < end - start ==> dist(vs[ids[j]]) <= dist(vs[i])
  {
    var size := end - start;
    var m := Min(k, size);
    forall j | 0 <= j < m ensures ids[j] in ids[..m] {
      assert ids[..m][j] == ids[j];
    }
    forall i | 0 <= i < |I| && I[i] == c && i !in ids[..m]
      ensures forall j :: 0 <= j < k && j < size ==> dist(vs[ids[j]]) <= dist(vs[i])
    {
      var q :| 0 <= q < size && si[start..end][q] == i;
      assert cluster[q] == vs[i];
      forall j | 0 <= j < m ensures pick[j] != q {
        assert ids[j] in ids[..m];
      }
      assert q !in pick[..m];
    }
  }

  /** Labels compared as numbers. */
  function LabelKey(l: nat): real {
    l as real
  }

  /** numpy's fancy indexing xs[order]. */
  function Gather<T>(xs: seq<T>, order: seq<nat>): (r: seq<T>)
    requires forall p :: 0 <= p < |order| ==> order[p] < |xs|
    ensures |r| == |order|
    ensures forall p :: 0 <= p < |order| ==> r[p] == xs[order[p]]
  {
    seq(|order|, p requires 0 <= p < |order| => xs[order[p]])
  }

  /** np.argsort of the labels: every position once, and the labels read in that order ascend. */
  function ArgSortLabels(I: seq<nat>): (order: seq<nat>)
    ensures multiset(order) == multiset(Range(|I|))
    ensures |order| == |I|
    ensures forall p :: 0 <= p < |order| ==> order[p] < |I|
    ensures NonDecreasing(Gather(I, order))
  {
    var order := ArgSort(I, LabelKey);
    LabelsAscending(I, order);
    order
  }

  lemma LabelsAscending(I: seq<nat>, order: seq<nat>)
    requires forall p :: 0 <= p < |order| ==> order[p] < |I|
    requires forall i, j :: 0 <= i < j < |order| ==> LabelKey(I[order[i]]) <= LabelKey(I[order[j]])
    ensures NonDecreasing(Gather(I, order))
  {
    var g := Gather(I, order);
    forall i, j | 0 <= i <= j < |g| ensures g[i] <= g[j] {
      if i < j {
        assert LabelKey(I[order[i]]) <= LabelKey(I[order[j]]);
      }
    }
  }

  /** The slots of cluster c in a layout sorted by label hold every member of c. */
  lemma SlotsComplete(I: seq<nat>, si: seq<nat>, sl: seq<nat>, c: nat, start: nat, end: nat)
    requires |si| == |I| == |sl| && NonDecreasing(sl) && c < MaxPlusOne(sl)
    requires forall x :: 0 <= x < |I| ==> x in si
    requires forall p :: 0 <= p < |I| ==> si[p] < |I|
    requires forall p :: 0 <= p < |I| ==> sl[p] == I[si[p]]
    requires c + 1 < |Offsets(sl)| && start == Offsets(sl)[c] && end == Offsets(sl)[c + 1]
    requires start <= end <= |si|
    ensures forall i :: 0 <= i < |I| && I[i] == c ==> i in si[start..end]
  {
    forall i | 0 <= i < |I| && I[i] == c ensures i in si[start..end] {
      assert i in si;
      var p :| 0 <= p < |si| && si[p] == i;
      ClusterSlots(sl, c, p);
      assert si[start..end][p - start] == i;
    }
  }

  /**
   * What build_index computes from the labels I and the vectors vs, in
   * order: the argsort, the gathered labels, the gathered vectors (an
   * IndexError when a position has no vector), and the offsets (np.min
   * of the empty bincount raises when there are no labels). A step after
   * a failure is not reached and leaves its field as it was.
   */
  datatype Arrangement<V> = Arrangement(
    indices: seq<nat>,
    labels: seq<nat>,
    vectors: Option<seq<V>>,
    offsets: Option<seq<nat>>,
    outcome: Result<(), Error>)

  function ArrangeByCluster<V>(I: seq<nat>, vs: seq<V>): (a: Arrangement<V>)
    ensures a.indices == ArgSortLabels(I)
    ensures a.labels == Gather(I, a.indices)
    ensures NonDecreasing(a.labels)
    ensures a.outcome.Ok? <==> 0 < |I| <= |vs|
    ensures |I| > |vs| ==> a.outcome == Err(IndexOutOfBounds) && a.vectors.None? && a.offsets.None?
    ensures |I| <= |vs| ==> a.vectors == Some(Gather(vs, a.indices))
    ensures |I| == 0 ==> a.outcome == Err(EmptyArray) && a.offsets.None?
    ensures a.outcome.Ok? ==> a.offsets == Some(Offsets(a.labels))
  {
    var order := ArgSortLabels(I);
    var labels := Gather(I, order);
    if |I| > |vs| then Arrangement(order, labels, None, None, Err(IndexOutOfBounds))
    else if |I| == 0 then Arrangement(order, labels, Some(Gather(vs, order)), None, Err(EmptyArray))
    else Arrangement(order, labels, Some(Gather(vs, order)), Some(Offsets(labels)), Ok(()))
  }

  class ClusterSearchIndex<V> {
    const n: nat
    const dim: nat
    const nClusters: nat
    /** centroids and I: None until clustered or loaded. */
    var clustering: Option<Clustering<V>>
    var sortedIndices: seq<nat>
    var sortedLabels: seq<nat>
    var sortedVectors: seq<V>
    /** offset_of_each_cluster */
    var offsets: seq<nat>
    /** The vectors the layout was last built from (the script does not keep them). */
    ghost var vectors: seq<V>

    /** A fresh index over n vectors of dimension dim, with floor(sqrt(n)) clusters. */
    constructor (n: nat, dim: nat)
      ensures this.n == n && this.dim == dim && nClusters == ISqrt(n)
      ensures clustering == None
      ensures sortedIndices == [] && sortedLabels == [] && sortedVectors == [] && offsets == []
    {
      this.n := n;
      this.dim := dim;
      this.nClusters := ISqrt(n);
      clustering := None;
      sortedIndices, sortedLabels, sortedVectors, offsets := [], [], [], [];
      vectors := [];
    }

    /**
     * The layout built from labels I and vectors vs: sortedIndices lists
     * every vector once, ordered by label; sortedLabels and sortedVectors
     * follow it; the offsets come from the label counts.
     */
    ghost predicate LayoutOf(I: seq<nat>, vs: seq<V>)
      reads this
    {
      && multiset(sortedIndices) == multiset(Range(|I|))
      && |sortedIndices| == |I| && |sortedLabels| == |I| && |sortedVectors| == |I|
      && |I| <= |vs|
      && (forall p :: 0 <= p < |I| ==> sortedIndices[p] < |I|)
      && (forall p :: 0 <= p < |I| ==> sortedLabels[p] == I[sortedIndices[p]])
      && (forall p :: 0 <= p < |I| ==> sortedVectors[p] == vs[sortedIndices[p]])
      && NonDecreasing(sortedLabels)
      && offsets == Offsets(sortedLabels)
    }

    ghost predicate Built()
      reads this
    {
      clustering.Some? && LayoutOf(clustering.value.labels, vectors)
    }

    /**
     * build_index: clusters vs unless a clustering is already present (the
     * given clustered stands for what the k-means library returns), then
     * installs the layout ArrangeByCluster computes from the labels.
     */
    method BuildIndex(vs: seq<V>, clustered: Clustering<V>) returns (r: Result<(), Error>)
      modifies this
      ensures clustering == if old(clustering).Some? then old(clustering) else Some(clustered)
      ensures var a := ArrangeByCluster(clustering.value.labels, vs);
        && sortedIndices == a.indices && sortedLabels == a.labels
        && sortedVectors == (if a.vectors.Some? then a.vectors.value else old(sortedVectors))
        && offsets == (if a.offsets.Some? then a.offsets.value else old(offsets))
        && r == a.outcome
      ensures vectors == vs
      ensures r.Ok? ==> Built()
    {
      var c := if clustering.Some? then clustering.value else clustered;
      var a := ArrangeByCluster(c.labels, vs);
      clustering, sortedIndices, sortedLabels := Some(c), a.indices, a.labels;
      if a.vectors.Some? {
        sortedVectors := a.vectors.value;
      }
      if a.offsets.Some? {
        offsets := a.offsets.value;
      }
      vectors := vs;
      r := a.outcome;
      if r.Ok? {
        LayoutEstablished();
      }
    }

    lemma LayoutEstablished()
      requires clustering.Some? && sortedIndices == ArgSortLabels(clustering.value.labels)
      requires sortedLabels == Gather(clustering.value.labels, sortedIndices)
      requires |sortedIndices| <= |vectors| && sortedVectors == Gather(vectors, sortedIndices)
      requires offsets == Offsets(sortedLabels)
      ensures Built()
    {
    }

    /**
     * save_to_file: the store after both arrays are written, or the
     * shape error raised before anything is written.
     */
    function SaveToFile(savepath: string, dataset: string, store: Store<V>): (r: Result<Store<V>, Error>)
      reads this
      ensures clustering.None? ==> r == Err(NoClustering)
      ensures clustering.Some? && ShapeCheck(clustering.value, n, dim, nClusters).Some? ==>
        r == Err(ShapeCheck(clustering.value, n, dim, nClusters).value)
      ensures r.Ok? ==> clustering.Some? && ShapeCheck(clustering.value, n, dim, nClusters).None?
      ensures r.Ok? ==> Lookup(r.value, savepath, dataset) == clustering
    {
      if clustering.None? then Err(NoClustering)
      else
        var check := ShapeCheck(clustering.value, n, dim, nClusters);
        if check.Some? then Err(check.value)
        else
          PersistLookup(store, savepath, dataset, clustering.value);
          Ok(Persist(store, savepath, dataset, clustering.value))
    }

    /**
     * load_from_file: fails before touching anything when a file is
     * missing; otherwise installs the loaded arrays and only then checks
     * their shapes, so a failed check leaves them installed.
     */
    method LoadFromFile(savepath: string, dataset: string, store: Store<V>) returns (r: Result<(), Error>)
      modifies this
      ensures Lookup(store, savepath, dataset).None? ==> r == Err(FilesMissing) && clustering == old(clustering)
      ensures Lookup(store, savepath, dataset).Some? ==>
        && clustering == Lookup(store, savepath, dataset)
        && (r.Ok? <==> ShapeCheck(clustering.value, n, dim, nClusters).None?)
        && (r.Err? ==> r.error == ShapeCheck(clustering.value, n, dim, nClusters).value)
      ensures sortedIndices == old(sortedIndices) && sortedLabels == old(sortedLabels)
      ensures sortedVectors == old(sortedVectors) && offsets == old(offsets) && vectors == old(vectors)
    {
      var found := Lookup(store, savepath, dataset);
      if found.None? {
        return Err(FilesMissing);
      }
      clustering := found;
      var check := ShapeCheck(found.value, n, dim, nClusters);
      if check.Some? {
        return Err(check.value);
      }
      r := Ok(());
    }

    /** A clustering that save_to_file accepts is restored by load_from_file without error. */
    lemma SaveLoadRoundTrip(savepath: string, dataset: string, store: Store<V>)
      requires SaveToFile(savepath, dataset, store).Ok?
      ensures Lookup(SaveToFile(savepath, dataset, store).value, savepath, dataset) == clustering
      ensures ShapeCheck(clustering.value, n, dim, nClusters).None?
    {
    }

    lemma {:induction false} ClusterBounds(c: nat)
      requires Built() && c + 1 < |offsets|
      ensures offsets[c] <= offsets[c + 1] <= |sortedIndices|
      ensures c < MaxPlusOne(sortedLabels)
    {
      OffsetsFacts(sortedLabels);
    }

    /** What Search promises for cluster c: ClusterAnswer over this index's layout. */
    ghost predicate IsClusterAnswer(ids: seq<nat>, c: nat, dist: V -> real, k: nat)
      reads this
      requires Built() && c + 1 < |offsets|
    {
      ClusterAnswer(clustering.value.labels, vectors, sortedIndices, offsets[c], offsets[c + 1], ids, c, dist, k)
    }

    /**
     * search: the first nearest centroid picks the cluster, which is
     * scanned for the k nearest vectors and padded as IsClusterAnswer says.
     */
    function Search(dist: V -> real, k: nat): (r: Result<seq<nat>, Error>)
      reads this
      requires Built()
      ensures |clustering.value.centroids.rows| == 0 ==> r == Err(EmptyArray)
      ensures |clustering.value.centroids.rows| > 0 ==>
        var c := ArgMin(clustering.value.centroids.rows, dist);
        && (c + 1 >= |offsets| ==> r == Err(IndexOutOfBounds))
        && (c + 1 < |offsets| ==>
              (r.Err? <==> k > 0 && offsets[c] == offsets[c + 1] == |sortedIndices|) &&
              (r.Ok? ==> IsClusterAnswer(r.value, c, dist, k)))
    {
      var rows := clustering.value.centroids.rows;
      if |rows| == 0 then Err(EmptyArray)
      else
        var c := ArgMin(rows, dist);
        if c + 1 >= |offsets| then Err(IndexOutOfBounds)
        else
          var start := offsets[c];
          var end := offsets[c + 1];
          ClusterBounds(c);
          if k > 0 && start == end && start == |sortedIndices| then Err(IndexOutOfBounds)
          else
            ClusterScan(c, dist, k);
            Ok(ScanCluster(sortedIndices, sortedVectors, start, end, dist, k))
    }

    /** Scanning cluster c of a built index gives its cluster answer. */
    lemma ClusterScan(c: nat, dist: V -> real, k: nat)
      requires Built() && c + 1 < |offsets|
      requires k > 0 && offsets[c] == offsets[c + 1] ==> offsets[c] < |sortedIndices|
      ensures offsets[c] <= offsets[c + 1] <= |sortedIndices| == |sortedVectors|
      ensures IsClusterAnswer(ScanCluster(sortedIndices, sortedVectors, offsets[c], offsets[c + 1], dist, k), c, dist, k)
    {
      ClusterReady(c);
      ScanCorrect(clustering.value.labels, vectors, sortedIndices, sortedVectors, offsets[c], offsets[c + 1], c, dist, k);
    }

    /** The layout of a built index is ready to be scanned, cluster by cluster. */
    lemma ClusterReady(c: nat)
      requires Built() && c + 1 < |offsets|
      ensures ScanReady(clustering.value.labels, vectors, sortedIndices, sortedVectors, offsets[c], offsets[c + 1], c)
    {
      ClusterBounds(c);
      LayoutDistinct();
      ClusterMembers(c);
    }

    /** Every id appears once in the layout. */
    lemma LayoutDistinct()
      requires Built()
      ensures forall p, q :: 0 <= p < q < |sortedIndices| ==> sortedIndices[p] != sortedIndices[q]
      ensures forall i :: 0 <= i < |clustering.value.labels| ==> i in sortedIndices
    {
      PermutationOfRange(sortedIndices, |clustering.value.labels|);
    }

    /** Layout slots [offsets[c], offsets[c + 1]) hold exactly the members of cluster c. */
    lemma ClusterMembers(c: nat)
      requires Built() && c + 1 < |offsets|
      ensures offsets[c] <= offsets[c + 1] <= |sortedIndices|
      ensures forall p :: offsets[c] <= p < offsets[c + 1] ==> clustering.value.labels[sortedIndices[p]] == c
      ensures forall i :: 0 <= i < |clustering.value.labels| && clustering.value.labels[i] == c ==>
        i in sortedIndices[offsets[c]..offsets[c + 1]]
    {
      ClusterBounds(c);
      var start, end := offsets[c], offsets[c + 1];
      forall p | start <= p < end ensures clustering.value.labels[sortedIndices[p]] == c {
        ClusterSlots(sortedLabels, c, p);
      }
      ClusterComplete(c);
    }

    /** Every member of cluster c sits in the cluster's slots. */
    lemma ClusterComplete(c: nat)
      requires Built() && c + 1 < |offsets|
      requires offsets[c] <= offsets[c + 1] <= |sortedIndices|
      ensures forall i :: 0 <= i < |clustering.value.labels| && clustering.value.labels[i] == c ==>
        i in sortedIndices[offsets[c]..offsets[c + 1]]
    {
      LayoutDistinct();
      ClusterBounds(c);
      SlotsComplete(clustering.value.labels, sortedIndices, sortedLabels, c, offsets[c], offsets[c + 1]);
    }
  }

  /**
   * The number of entries np.intersect1d(a, b, assume_unique=True)
   * returns: it sorts the concatenation and keeps every element equal to
   * its successor, that is every occurrence of a value after its first.
   */
  function Repeats(s: seq<int>): (r: nat)
    ensures r <= |s|
  {
    if s == [] then 0
    else Repeats(s[..|s| - 1]) + (if s[|s| - 1] in s[..|s| - 1] then 1 else 0)
  }

  lemma {:induction false} NoRepeats(s: seq<int>)
    requires NoDuplicates(s)
    ensures Repeats(s) == 0
  {
    if s != [] {
      NoRepeats(s[..|s| - 1]);
    }
  }

  /** On rows without repeated ids, intersect1d counts exactly the ground-truth ids found. */
  lemma {:induction false} RepeatsCountsHits(answer: seq<int>, truth: seq<int>)
    requires NoDuplicates(answer) && NoDuplicates(truth)
    ensures Repeats(answer + truth) == DistinctHits(truth, answer)
  {
    if truth == [] {
      assert answer + truth == answer;
      NoRepeats(answer);
    } else {
      var prior := truth[..|truth| - 1];
      var last := truth[|truth| - 1];
      RepeatsCountsHits(answer, prior);
      assert (answer + truth)[..|answer + truth| - 1] == answer + prior;
      assert last !in prior;
    }
  }

  /** Row i's score as calculate_recall computes it. */
  function RowRecall(answer: seq<int>, truth: seq<int>, k: nat): real
    requires k > 0
  {
    Repeats(answer[..Min(k, |answer|)] + truth[..Min(k, |truth|)]) as real / k as real
  }

  /**
   * The score the metric is meant to give: the ground-truth ids among the
   * first k found in the first k answer ids, over k; it lies between 0 and
   * 1 and is 1 exactly when all k ground-truth ids are distinct and found.
   */
  function IntendedRowRecall(answer: seq<int>, truth: seq<int>, k: nat): (r: real)
    requires k > 0
    ensures 0.0 <= r <= 1.0
    ensures r == 1.0 <==> DistinctHits(truth[..Min(k, |truth|)], answer[..Min(k, |answer|)]) == k
  {
    var found := DistinctHits(truth[..Min(k, |truth|)], answer[..Min(k, |answer|)]);
    Fraction(found, k);
    found as real / k as real
  }

  /** On rows that repeat no id the metric as written gives the intended score. */
  lemma RecallAgreesOnDistinctRows(answer: seq<int>, truth: seq<int>, k: nat)
    requires k > 0
    requires NoDuplicates(answer[..Min(k, |answer|)]) && NoDuplicates(truth[..Min(k, |truth|)])
    ensures RowRecall(answer, truth, k) == IntendedRowRecall(answer, truth, k)
  {
    RepeatsCountsHits(answer[..Min(k, |answer|)], truth[..Min(k, |truth|)]);
  }

  /**
   * A padded answer repeats an id, and intersect1d with assume_unique
   * credits every repeat: an answer row that found one of three
   * ground-truth ids, padded with it, scores 1 instead of 1/3.
   */
  lemma PaddedRowOvercounts()
    ensures RowRecall([5, 5, 5], [5, 6, 7], 3) == 1.0
    ensures IntendedRowRecall([5, 5, 5], [5, 6, 7], 3) == 1.0 / 3.0
  {
    var a: seq<int> := [5, 5, 5];
    var t: seq<int> := [5, 6, 7];
    assert a[..3] == a && t[..3] == t;
    var s := a + t;
    assert s == [5, 5, 5, 5, 6, 7];
    assert [5, 5, 5, 5, 6, 7][..5] == [5, 5, 5, 5, 6];
    assert [5, 5, 5, 5, 6][..4] == [5, 5, 5, 5];
    assert [5, 5, 5, 5][..3] == a;
    assert a[..2] == [5, 5] && [5, 5][..1] == [5] && [5][..0] == [];
    assert Repeats([5]) == 0;
    assert Repeats([5, 5]) == 1;
    assert Repeats(a) == 2;
    assert Repeats([5, 5, 5, 5]) == 3;
    assert Repeats([5, 5, 5, 5, 6]) == 3;
    assert Repeats(s) == 3;
    assert t[..2] == [5, 6] && [5, 6][..1] == [5] && [5][..0] == [];
    assert DistinctHits([5], a) == 1;
    assert DistinctHits([5, 6], a) == 1;
    assert DistinctHits(t, a) == 1;
  }

  /** The per-row scores of the first |answers| ground-truth rows. */
  function RowRecalls(answers: seq<seq<int>>, gnd: seq<seq<int>>, k: nat): (r: seq<real>)
    requires k > 0 && |gnd| >= |answers|
    ensures |r| == |answers|
  {
    seq(|answers|, i requires 0 <= i < |answers| => RowRecall(answers[i], gnd[i], k))
  }

  /**
   * calculate_recall: the mean row score over the answer rows. It fails
   * on the first answer row without a ground-truth row (IndexError), on
   * k = 0 (ZeroDivisionError) and is NaN when there are no answer rows.
   */
  method CalculateRecall(answers: seq<seq<int>>, gnd: seq<seq<int>>, k: nat) returns (r: Result<Ratio, Error>)
    ensures |answers| == 0 ==> r == Ok(NaN)
    ensures |answers| > 0 && |gnd| == 0 ==> r == Err(IndexOutOfBounds)
    ensures |answers| > 0 && |gnd| > 0 && k == 0 ==> r == Err(ZeroDivision)
    ensures |answers| > 0 && k > 0 ==> (r.Ok? <==> |gnd| >= |answers|)
    ensures |answers| > 0 && k > 0 && |gnd| >= |answers| ==> r == Ok(Finite(Mean(RowRecalls(answers, gnd, k))))
  {
    var recall: seq<real> := [];
    var i := 0;
    while i < |answers|
      invariant 0 <= i <= |answers|
      invariant i > 0 ==> k > 0 && |gnd| >= i
      invariant |recall| == i
      invariant forall j :: 0 <= j < i ==> recall[j] == RowRecall(answers[j], gnd[j], k)
    {
      if i >= |gnd| {
        return Err(IndexOutOfBounds);
      }
      if k == 0 {
        return Err(ZeroDivision);
      }
      recall := recall + [RowRecall(answers[i], gnd[i], k)];
      i := i + 1;
    }
    if |answers| == 0 {
      return Ok(NaN);
    }
    assert recall == RowRecalls(answers, gnd, k);
    r := Ok(Finite(Mean(recall)));
  }

  /** The first k ids of the answer row are the first k ground-truth ids, none repeated. */
  predicate ExactRowAnswer(answer: seq<int>, truth: seq<int>, k: nat) {
    |answer| >= k && |truth| >= k && answer[..k] == truth[..k] && NoDuplicates(answer[..k])
  }

  /** Rows whose first k ids match the ground truth and repeat nothing score a recall of 1. */
  lemma RecallOfExactAnswers(answers: seq<seq<int>>, gnd: seq<seq<int>>, k: nat)
    requires k > 0 && 0 < |answers| <= |gnd|
    requires forall i :: 0 <= i < |answers| ==> ExactRowAnswer(answers[i], gnd[i], k)
    ensures Mean(RowRecalls(answers, gnd, k)) == 1.0
  {
    var xs := RowRecalls(answers, gnd, k);
    forall i | 0 <= i < |xs| ensures xs[i] == 1.0 {
      ExactRow(answers[i], gnd[i], k);
    }
    MeanConst(xs, 1.0);
  }

  lemma ExactRow(answer: seq<int>, truth: seq<int>, k: nat)
    requires k > 0 && ExactRowAnswer(answer, truth, k)
    ensures RowRecall(answer, truth, k) == 1.0
  {
    var a := answer[..k];
    assert answer[..Min(k, |answer|)] == a && truth[..Min(k, |truth|)] == a;
    RepeatsCountsHits(a, a);
    DistinctHitsAll(a, a);
    Fraction(k, k);
  }

  /** The first k ids of the answer row repeat nothing and share nothing with the first k ground-truth ids. */
  predicate DisjointRowAnswer(answer: seq<int>, truth: seq<int>, k: nat) {
    var a, t := answer[..Min(k, |answer|)], truth[..Min(k, |truth|)];
    NoDuplicates(a) && NoDuplicates(t) && forall x :: x in t ==> x !in a
  }

  /** Rows that repeat nothing and share nothing with the ground truth score a recall of 0. */
  lemma RecallOfDisjointAnswers(answers: seq<seq<int>>, gnd: seq<seq<int>>, k: nat)
    requires k > 0 && 0 < |answers| <= |gnd|
    requires forall i :: 0 <= i < |answers| ==> DisjointRowAnswer(answers[i], gnd[i], k)
    ensures Mean(RowRecalls(answers, gnd, k)) == 0.0
  {
    var xs := RowRecalls(answers, gnd, k);
    forall i | 0 <= i < |xs| ensures xs[i] == 0.0 {
      DisjointRow(answers[i], gnd[i], k);
    }
    MeanConst(xs, 0.0);
  }

  lemma DisjointRow(answer: seq<int>, truth: seq<int>, k: nat)
    requires k > 0 && DisjointRowAnswer(answer, truth, k)
    ensures RowRecall(answer, truth, k) == 0.0
  {
    var a, t := answer[..Min(k, |answer|)], truth[..Min(k, |truth|)];
    assert DisjointRowAnswer(answer, truth, k);
    forall x | x in t ensures x !in a {
    }
    RepeatsCountsHits(a, t);
    DistinctHitsNone(t, a);
  }
}

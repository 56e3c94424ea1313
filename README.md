# Pacmann core, modelled in Dafny

Pacmann answers approximate nearest-neighbour queries privately. The
server holds a proximity graph whose vertices are database entries. Each
entry packs a vertex's vector and its neighbour list. The client walks the
graph, best first, and fetches every vertex it visits through Piano PIR,
a private information retrieval scheme with client-side hints. A
single-probe IVF index (one centroid per cluster, one cluster scanned per
query) is the baseline the system is compared against.

This project models the following parts and proves their properties:

- the IVF baseline (`cluster-search.py`): layout, persistence, search and the recall metric;
- the graph construction helpers (`graphann/build_graph.go`): robust pruning, the dedup, inbound-count and fill loops, and `ComputeRecall`;
- the best-first graph search (`graphann/search.go`): its heap, its visited set and its padded top-k output;
- the database entry codec and the private graph backend (`private-search.go`);
- the Piano PIR server and client (`pianopir/pir.go`): hints, query budget, refresh, cache, and the XOR cancellation that makes a query return the right entry;
- the batch PIR router (`pianopir/batch-pir.go`);
- the parameter, hash and PRF-input utilities (`pianopir/util.go`);
- the integer-matrix file formats of the graph loader (`graphann/loader.go`).

Distances are an uninterpreted function into the reals. The AES-based
PRF is an uninterpreted function of (tag, chunk). Random draws are
parameters. Files are a map from path to typed contents.

Modules, one per source file, plus shared helpers:

| module | file | models |
|---|---|---|
| Common | common.dfy | Option/Result, min, sums and means, floor square root, ceiling division |
| Sorting | sorting.dfy | sorting by key, argmin, argsort, ranges |
| Ids | ids.dfy | duplicate-free rows, distinct-hit counting, dedup |
| Bytes | bytes.dfy | words, bytes, little-endian packing, XOR and AND on 64-bit words |
| ClusterLayout | cluster_layout.dfy | bincount and cumulative offsets of the IVF layout |
| ClusterSearch | cluster_search.dfy | `cluster_search_index` and `calculate_recall` |
| BuildGraph | build_graph.dfy | `robustPrune`, `robustPruneWithOneExtra` |
| GraphCleanup | graph_cleanup.dfy | the dedup, inbound-count and fill loops of `CreateGraphBasedOnHNSW` |
| GraphRecall | graph_recall.dfy | `ComputeRecall` |
| GraphSearch | graph_search.dfy | `BasicGraphInfo`, `exploreQueue`, `SearchKNN`, `SearchKNNBatch` |
| EntryCodec | entry_codec.dfy | the entry byte layout and `Entry2VectorAndNeighbors` |
| PrivateSearch | private_search.dfy | `PIRGraphInfo`, `genRandomGraph`, `GetStartVertex` |
| PianoPir | pir.dfy | the PIR configuration and `PianoPIRServer` |
| PianoHints | pir_hints.dfy | hint sets, parities and the invariants the client keeps |
| PianoClient | pir_client.dfy | `PianoPIRClient` and `PianoPIR` |
| PianoBatch | batch_pir.dfy | `SimpleBatchPianoPIR` |
| PianoUtil | util.dfy | `GenParams`, `DefaultHash`, PRF input blocks, `RandKey128`, `xorSlices` |
| TextCodec | text_codec.dfy | `%d`, `strconv.Atoi`, `strings.Fields`, `bufio.ScanLines` |
| Loader | loader.dfy | the graph loaders and savers and their dispatch |

## Model

| member | source | states |
|---|---|---|
| Common.ISqrt | cluster-search.py:114 | the cluster count is the integer square root: its square is at most n and the next square exceeds n |
| Common.ISqrtUnique | cluster-search.py:114 | any r with r² ≤ n < (r+1)² is that square root, so the cluster count is determined by n |
| Common.MeanBounds | cluster-search.py:217 | the mean of per-row recalls that all lie in [lo, hi] lies in [lo, hi] |
| Sorting.ArgMin | cluster-search.py:173-174 | `np.argmin` returns a valid position whose key is no larger than any other and strictly smaller than every earlier one (first minimum wins) |
| Sorting.ArgSort | cluster-search.py:181 | `np.argsort` returns a permutation of the positions 0..n-1 along which the keys never decrease |
| Sorting.PermutationOfRange | cluster-search.py:122 | a permutation of 0..n-1 has n entries, all below n, pairwise distinct, covering every position |
| ClusterLayout.OffsetsFacts | cluster-search.py:126-131 | the offsets start at 0, end at the number of labels, grow by exactly the size of each cluster, never decrease, and offset c counts the labels below c |
| ClusterLayout.SumCountsIsCountBelow | cluster-search.py:126-130 | the running sum of `np.bincount` over the first c clusters is the number of labels below c |
| ClusterLayout.ClusterSlots | cluster-search.py:130-132 | in the label-sorted layout, slot p lies between the offsets of cluster c exactly when the label at p is c |
| ClusterSearch.ShapeCheck | cluster-search.py:147-150 | no error exactly when the centroid matrix is n_clusters × dim and there are n labels; a centroid mismatch is reported before a label mismatch |
| ClusterSearch.PersistLookup | cluster-search.py:152-153 | after saving, the centroid and label files of that dataset hold exactly the saved clustering |
| ClusterSearch.ClusterSearchIndex.constructor | cluster-search.py:111-116 | records n and dim, sets n_clusters to the integer square root of n, and holds no clustering yet |
| ClusterSearch.ArgSortLabels | cluster-search.py:122-123 | the sort order is a permutation of the vector positions that puts the labels in non-decreasing order |
| ClusterSearch.ArrangeByCluster | cluster-search.py:122-131 | the sorted indices, labels and vectors are the argsort and the two gathers along it; an empty label array fails at `np.min` and more labels than vectors fail at the gather, otherwise the offsets are the cumulative cluster sizes |
| ClusterSearch.ClusterSearchIndex.BuildIndex | cluster-search.py:118-131 | keeps an existing clustering, otherwise adopts the given one, then stores exactly the arrangement and error outcome of ArrangeByCluster; on success the layout invariant Built holds |
| ClusterSearch.ClusterSearchIndex.SaveToFile | cluster-search.py:143-153 | fails without a clustering or with a wrong shape (with that shape error); on success the store holds exactly the current clustering |
| ClusterSearch.ClusterSearchIndex.LoadFromFile | cluster-search.py:155-168 | a missing file fails and leaves the clustering alone; otherwise the loaded clustering is adopted and the call succeeds exactly when its shape is right; the layout is untouched |
| ClusterSearch.ClusterSearchIndex.SaveLoadRoundTrip | cluster-search.py:143-168 | a successful save followed by a load gives back the same clustering with a valid shape |
| ClusterSearch.ClusterSearchIndex.ClusterMembers | cluster-search.py:130-132 | the slots between offsets[c] and offsets[c+1] hold exactly the vectors labelled c, each of them somewhere in that range |
| ClusterSearch.TopKFacts | cluster-search.py:181-186 | the padded top-k offsets: k of them, valid and pairwise distinct while the cluster lasts, zeros after it, in non-decreasing distance, and none of the cluster's other vectors is closer |
| ClusterSearch.ScanCorrect | cluster-search.py:177-189 | scanning one cluster returns k database ids, all labelled c, distinct, sorted by distance, padded with the id at the cluster's start offset (the next cluster's first id when the cluster is empty), and no unreturned vector of cluster c is closer than a returned one |
| ClusterSearch.ClusterSearchIndex.Search | cluster-search.py:170-198 | probes the closest centroid; fails with an empty centroid set, with a centroid id past the offsets, or when padding an empty last cluster would read past the end; otherwise returns the top-k answer for that cluster |
| ClusterSearch.IntendedRowRecall | cluster-search.py:216 | the fraction of the k true neighbours that the answer row contains, in [0, 1] and equal to 1 exactly when all k are found |
| ClusterSearch.RecallAgreesOnDistinctRows | cluster-search.py:216 | when both rows hold no repeats, the `intersect1d(..., assume_unique=True)` count equals the intended recall |
| ClusterSearch.PaddedRowOvercounts | cluster-search.py:216 | a padded answer [5, 5, 5] against truth [5, 6, 7] scores 1.0 as written, though only one of three neighbours was found |
| ClusterSearch.CalculateRecall | cluster-search.py:207-217 | no queries gives NaN, queries with no ground truth an index error, k = 0 a division error, too few ground-truth rows an index error; otherwise the mean of the per-row recalls |
| ClusterSearch.RecallOfExactAnswers | cluster-search.py:207-217 | answers that hold every true neighbour score recall 1 |
| ClusterSearch.RecallOfDisjointAnswers | cluster-search.py:207-217 | answers that share nothing with the ground truth score recall 0 |
| BuildGraph.SortedCandidates | graphann/build_graph.go:162-172 | the candidates, keyed by their distance to u, are permuted into non-decreasing distance order |
| BuildGraph.RobustPrune | graphann/build_graph.go:156-223 | the loop computes exactly the pruning function Prune (short lists unchanged, otherwise the alpha scan and the top-up) |
| BuildGraph.AlphaTest | graphann/build_graph.go:179-186 | a candidate passes exactly when no accepted neighbour w has dist(w, v)·alpha < dist(u, v) |
| BuildGraph.TopUpLoop | graphann/build_graph.go:200-213 | the discarded candidates are appended in order until m neighbours are reached or they run out |
| BuildGraph.ScanSplits | graphann/build_graph.go:176-195 | the scan moves each candidate it reaches into exactly one of accepted or discarded, stops only when m are accepted or the candidates are exhausted, and never accepts more than m |
| BuildGraph.ScanKeepsRule | graphann/build_graph.go:181-194 | every accepted candidate passed the alpha test against the ones accepted before it, and every discarded one failed it against some accepted one |
| BuildGraph.ScanKeepsOrder | graphann/build_graph.go:170-194 | accepted and discarded lists both stay in non-decreasing distance to u |
| BuildGraph.PruneLength | graphann/build_graph.go:157-159 | at most m candidates are returned unchanged; with more than m (and m > 0) exactly m neighbours are returned |
| BuildGraph.PruneFromCandidates | graphann/build_graph.go:162-222 | the result is a sub-multiset of the candidates: pruning never invents or duplicates a neighbour |
| BuildGraph.PruneNearestFirst | graphann/build_graph.go:170-189 | when pruning happens, the first neighbour kept is a candidate nearest to u |
| BuildGraph.PruneSelects | graphann/build_graph.go:174-213 | the result is the alpha-selected prefix followed by discarded candidates only; the selection obeys the alpha rule and both parts are distance-sorted |
| BuildGraph.CloseCount | graphann/build_graph.go:257-261 | the prefix of neighbours strictly closer to u than v, stopping at the first one at least as far |
| BuildGraph.RobustPruneWithOneExtra | graphann/build_graph.go:226-298 | the loops compute exactly PruneWithOneExtra, including the final order check (None stands for the panic) |
| BuildGraph.InDistanceOrder | graphann/build_graph.go:286-296 | the order check succeeds exactly when the list is in non-decreasing distance to u |
| BuildGraph.RefillFacts | graphann/build_graph.go:277-283 | the refill only appends neighbours that come after the close prefix and that v does not alpha-dominate, and stops at m |
| BuildGraph.RefillDistinct | graphann/build_graph.go:277-283 | neighbours appended by the refill are pairwise distinct when the list was |
| BuildGraph.RefillOrdered | graphann/build_graph.go:277-283 | the refill keeps the list in non-decreasing distance to u |
| BuildGraph.PruneWithOneExtraAdds | graphann/build_graph.go:231-283 | when the list changes, v was absent, passed the alpha test against every closer neighbour, and the close count was not m; the result starts with those closer neighbours then v, has at most m entries when the list had, holds only v and old neighbours, and stays duplicate-free |
| BuildGraph.SortedNeighborsNeverPanic | graphann/build_graph.go:286-296 | when the neighbour list is sorted by distance to u the order check never panics |
| GraphCleanup.AddRow | graphann/build_graph.go:581-583 | each vertex's inbound count grows by the number of times the row names it, and the total grows by the row's length |
| GraphCleanup.CountInbounds | graphann/build_graph.go:627-632 | the count of every vertex is its in-degree, and the counts add up to the number of edges |
| GraphCleanup.DedupRow | graphann/build_graph.go:569-579 | the seen-set compaction yields the row's first occurrences in order |
| GraphCleanup.DedupAndCount | graphann/build_graph.go:566-584 | every row is deduplicated and the inbound counts are the in-degrees of the deduplicated graph |
| GraphCleanup.DedupCleans | graphann/build_graph.go:566-579 | deduplicated rows hold no repeats, keep exactly the same neighbours, and keep ids in range and self-loops absent |
| GraphCleanup.KeepRow | graphann/build_graph.go:589-596 | the sampling loop keeps exactly the edges the (random) coin accepts, in order |
| GraphCleanup.KeptFromRow | graphann/build_graph.go:589-596 | the kept edges are a sub-multiset of the row |
| GraphCleanup.SampleEdges | graphann/build_graph.go:587-603 | every row becomes the robust pruning of its kept edges (pruning leaves m or fewer edges unchanged) |
| GraphCleanup.SampleKeeps | graphann/build_graph.go:587-603 | sampling only removes edges, leaves at most m per row, and keeps ids in range, no self-loops and no repeats |
| GraphCleanup.FillRow | graphann/build_graph.go:607-624 | a short row is extended to exactly m by vertices in range, other than the vertex itself and not already present; a full row is unchanged |
| GraphCleanup.FreshAppend | graphann/build_graph.go:612-623 | appending such fresh vertices keeps a row repeat-free and free of self-loops |
| GraphCleanup.FillGraph | graphann/build_graph.go:605-625 | every row is extended as FillRow states |
| GraphCleanup.FillCompletes | graphann/build_graph.go:605-625 | after filling, every vertex has at least m out-neighbours, with ids in range, no self-loops and no repeats preserved |
| GraphCleanup.CleanUp | graphann/build_graph.go:566-632 | after dedup, sampling and filling, every row has at least m distinct in-range neighbours, self-loops stay absent, and the final inbound counts are the in-degrees |
| GraphRecall.RowHitCount | graphann/build_graph.go:822-843 | the hit loop counts the distinct ids among the first k answers that occur among the first k ground-truth ids |
| GraphRecall.ComputeRecall | graphann/build_graph.go:809-851 | the accumulated value is the mean per-row score hits/k; no queries or k = 0 give NaN |
| GraphRecall.ScoreBounds | graphann/build_graph.go:845 | each row's score lies in [0, 1] |
| GraphRecall.RecallBounds | graphann/build_graph.go:809-851 | the recall is NaN exactly when k = 0 or there are no queries, and otherwise lies in [0, 1] |
| GraphRecall.RepeatsCountOnce | graphann/build_graph.go:824-834 | repeated answers are skipped, so hits are counted over the deduplicated first k answers and never exceed their number |
| GraphRecall.PaddedRowScoresOnce | graphann/build_graph.go:824-834 | the padded answer [5, 5, 5] against [5, 6, 7] scores one hit, not three |
| GraphRecall.PerfectRecall | graphann/build_graph.go:809-851 | answers whose first k are exactly distinct true neighbours score recall 1 |
| GraphRecall.NoHitRecall | graphann/build_graph.go:809-851 | answers that miss every true neighbour score recall 0 |
| GraphSearch.RootIsNearest | graphann/search.go:92-111 | in a heap-ordered explore queue the root is no farther than any element |
| GraphSearch.ExploreQueue.Push | graphann/search.go:101-104 | `heap.Push` keeps the heap order and adds exactly the new item |
| GraphSearch.ExploreQueue.Pop | graphann/search.go:105-111 | `heap.Pop` keeps the heap order, removes exactly one item, and that item is nearest of all |
| GraphSearch.ExploreQueue.Down | graphann/search.go:94-100 | sifting down restores the heap order below n and only permutes the items |
| GraphSearch.GetVertexInfo | graphann/search.go:43-49 | the i-th vertex returned carries the i-th requested id, its neighbour row and its vector |
| GraphSearch.GetStartVertex | graphann/search.go:51-65 | the start vertices are vertices 0 .. ⌊√n⌋-1, in order, with their rows and vectors |
| GraphSearch.Frontend.Preprocess | graphann/search.go:74-81 | the frontend stores exactly those start vertices |
| GraphSearch.Seed | graphann/search.go:128-148 | at most `parallel` start vertices enter the queue, with distinct ids, each recorded as known at step 0; either the queue is full or every start is known; a known start is no farther than itself and every queued start is no farther than any start left out |
| GraphSearch.CollectBatch | graphann/search.go:153-171 | `parallel` rounds each pop the nearest queued vertex and append its neighbours, or append m random ids once the queue is empty or when benchmarking; popped vertices come out nearest first and nothing else leaves the queue |
| GraphSearch.CollectDone | graphann/search.go:153-171 | after the rounds, the batch is the neighbour lists of the min(parallel, queue size) popped vertices followed by the random ids |
| GraphSearch.HasNonZero | graphann/search.go:193-199 | the scan finds a non-zero neighbour exactly when the list is not all zeros |
| GraphSearch.Absorb | graphann/search.go:187-207 | every fetched vertex that is new and has a non-zero neighbour becomes known at this step and is queued; known vertices and their steps never change; only fetched vertices are added, and every newly known vertex sits in the queue with its distance |
| GraphSearch.KnownIds | graphann/search.go:211-218 | the known ids listed once each, nothing else |
| GraphSearch.Rank | graphann/search.go:210-233 | the first min(k, known) entries are distinct known ids in non-decreasing distance with no unlisted known vertex closer; the rest are -1, and each step entry is that id's reach step or -1 |
| GraphSearch.SearchKNN | graphann/search.go:114-234 | returns such a top-k of the known vertices, and every known vertex is either a start vertex reached at step 0 or a fetched vertex with a non-zero neighbour reached at an earlier step; step s fetched exactly the neighbour lists of the vertices it popped (nearest first, each known) followed by its random ids, and every fetched vertex with a non-zero neighbour became known; unless benchmarking (with `parallel` and k positive), the first answer is known and no farther than any start vertex; benchmarking returns all -1 and knows nothing |
| GraphSearch.WalkStep | graphann/search.go:150-208 | one step of the walk keeps the walk state: the queue agrees with the known vertices, provenance holds, the start vertices stay covered and the record of every earlier step stays true, with this step's batch and popped vertices appended |
| GraphSearch.SeedCovers | graphann/search.go:128-148 | after seeding, every start vertex has a known vertex at most as far from the query |
| GraphSearch.CoversKept | graphann/search.go:187-207 | absorbing a batch keeps that cover, since known vertices never change |
| GraphSearch.CoversRank | graphann/search.go:210-233 | when the start vertices are covered, the first ranked answer is known and no farther than any start vertex |
| GraphSearch.WalkDone | graphann/search.go:150-209 | after the last step the walk state gives the per-step record, provenance up to maxStep and the cover of the starts |
| GraphSearch.ProvenanceStep | graphann/search.go:187-207 | one absorb step keeps that provenance invariant |
| GraphSearch.SearchKNNBatch | graphann/search.go:236-245 | each query's answer is a top-k of its own known vertices, with provenance, a per-step record of its walk over that query's random draws, and a first answer no farther than any start vertex, all for that query's distance |
| Bytes.ValueOfLeBytes | private-search.go:373-389 | reading back k little-endian bytes of a value below 256^k gives the value |
| Bytes.LeBytesOfValue | private-search.go:417-431 | writing the value of a byte string back as little-endian bytes gives the same bytes |
| Bytes.Le32OfUint32 | private-search.go:425-431 | `PutUint32` after `Uint32` reproduces the four bytes |
| Bytes.Le64OfUint64 | private-search.go:417-420 | `PutUint64` after `Uint64` reproduces the eight bytes |
| Bytes.XorLaws | pianopir/pir.go:66-76 | XOR on 64-bit words is commutative and associative, self-cancelling and has 0 as identity |
| Bytes.AndMask | pianopir/pir.go:318 | AND with 2^j - 1 keeps the low j bits: it is the remainder modulo 2^j |
| EntryCodec.EntryBytes | private-search.go:369-384 | an entry is 4·(dim + m) bytes |
| EntryCodec.EntryLayout | private-search.go:369-390 | bytes 4j..4j+4 hold the j-th float bit pattern, bytes 4(dim+j).. hold the j-th neighbour truncated to 32 bits, and word w is the little-endian value of bytes 8w..8w+8 |
| EntryCodec.Entry2VectorAndNeighbors | private-search.go:415-436 | returns dim vector components and m neighbours, every neighbour a non-negative 32-bit value |
| EntryCodec.DecodePacked | private-search.go:415-436 | decoding words whose bytes are the packed vector then the packed neighbours gives back exactly those two lists |
| EntryCodec.EntryRoundTrip | private-search.go:366-436 | when 4·(dim + m) is a multiple of 8 and every neighbour fits in 32 bits, decoding an encoded entry gives back its first dim components and first m neighbours |
| EntryCodec.OddEntryLosesLastNeighbour | private-search.go:360-393 | when dim + m is odd the entry keeps only ⌊bytes/8⌋ words, so its last four bytes (the last neighbour) are lost and the decoder's length requirement fails |
| EntryCodec.Uint32sInRange | private-search.go:380 | the `uint32` conversion leaves in-range ids unchanged |
| EntryCodec.EncodeRow | private-search.go:369-390 | the byte and word loops produce exactly the encoded entry |
| EntryCodec.CopyAt | private-search.go:393 | `copy` overwrites exactly the target window and leaves the rest of the array unchanged |
| PrivateSearch.EntryInside | private-search.go:366-393 | every entry's window lies inside the raw database of n·bytes/8 words |
| PrivateSearch.EvenEntriesTile | private-search.go:366-393 | with an even entry width the i-th entry starts at word i·(bytes/8), so the entries tile the database |
| PrivateSearch.PIRGraphInfo.constructor | private-search.go:333-350 | stores the graph, vectors and mode, with an empty database and zero counters |
| PrivateSearch.PIRGraphInfo.Preprocess | private-search.go:352-400 | sets the entry width to 4·(dim + m), the total to n times it, allocates n·bytes/8 words and places every vertex's encoded entry at word offset i·bytes/8; counters unchanged |
| PrivateSearch.SameNeighbors | private-search.go:487-496 | the check succeeds exactly when the decoded neighbours equal the stored row's prefix |
| PrivateSearch.DecodeResponses | private-search.go:477-500 | each response becomes the vertex with the requested id and the decoded vector and neighbours, and the success count is the number of responses whose neighbours match the stored row |
| PrivateSearch.CollectStored | private-search.go:443-450 | non-private mode returns each requested vertex's stored row and vector |
| PrivateSearch.PIRGraphInfo.GetVertexInfo | private-search.go:438-503 | adds the batch size to the query counter; non-private mode returns stored vertices; a PIR error is passed through; otherwise returns the decoded vertices and adds the number of correct responses |
| PrivateSearch.HonestResponsesSucceed | private-search.go:477-500 | when every response is the stored entry of its id (even entry width, 32-bit ids), every query counts as a success and each decoded vertex is the stored one |
| PrivateSearch.PIRGraphInfo.GetStartVertex | private-search.go:505-528 | returns ⌊√n⌋ distinct vertices, each an id below n with its stored row and vector |
| PrivateSearch.GenRandomGraph | private-search.go:54-69 | n rows of m neighbours, each below n and never the row's own id (the redraw loop cannot end when n = 1 and m > 0) |
| PianoPir.EntryXorLaws | pianopir/pir.go:258-265 | XOR of entries is commutative and associative, cancels itself and has the zero entry as identity |
| PianoPir.EntryXorCancel | pianopir/pir.go:450-453 | XORing the same entry in twice removes it |
| PianoPir.XorAllUpdate | pianopir/pir.go:429-453 | replacing one member of an XOR sum changes the sum by XORing out the old entry and XORing in the new one |
| PianoPir.Server.Entry | pianopir/pir.go:59-60 | entry j is the dbEntrySize words starting at word j·dbEntrySize |
| PianoPir.NonePrivateQuery | pianopir/pir.go:41-62 | returns entry idx (zeros for a padding index), with an error exactly when idx is beyond the padded size chunkSize·setSize |
| PianoPir.PrivateQuery | pianopir/pir.go:65-88 | never fails and returns the XOR of the entries at offset[i] + i·chunkSize over all chunks i, skipping indices past the database |
| PianoPir.XorEntryInto | pianopir/pir.go:79-80 | the word loop XORs entry idx into the buffer |
| PianoPir.XorMemberInto | pianopir/pir.go:73-81 | one round XORs in chunk i's entry of the query set, which is zero for an index past the database |
| PianoPir.MemberEntry | pianopir/pir.go:72-73 | the i-th term of a query is the entry at offset[i] + i·chunkSize |
| PianoPir.OffsetsRecoverMembers | pianopir/pir.go:443-448 | sending each member's offset within its own chunk lets the server rebuild exactly the client's query set |
| PianoHints.Mask | pianopir/pir.go:406 | `& (ChunkSize - 1)` is the remainder modulo the power-of-two chunk size |
| PianoHints.HintOffset | pianopir/pir.go:318 | a hint's offset in every chunk lies inside the chunk |
| PianoHints.FirstHit | pianopir/pir.go:404-414 | the first hint whose offset in the chunk is the wanted one and whose program point is unset or in another chunk; none before it qualifies |
| PianoHints.HitNamesIndex | pianopir/pir.go:404-427 | a hit hint's member in the index's chunk is exactly the index |
| PianoHints.ChunkOfIndex | pianopir/pir.go:393-396 | every database index lies in one of the setSize chunks and differs from the unset program point |
| PianoHints.MarkerCollides | pianopir/pir.go:405-433 | with 2^31 entries, a hint programmed at index 0x7fffffff still hits in that index's chunk and names another index there |
| PianoHints.ProgramPointKept | pianopir/pir.go:405-433 | with every index below the marker, a hint programmed at an index names it in its chunk and never hits in that chunk again |
| PianoHints.AnswerCancels | pianopir/pir.go:439-453 | XORing the server's answer for the set with the replacement, the replacement entry and the hint's parity leaves exactly the wanted entry |
| PianoHints.RefreshKeeps | pianopir/pir.go:460-463 | a backup hint of chunk c XORed with entry idx is a valid primary hint programmed at idx |
| PianoHints.ProgrammedMember | pianopir/pir.go:424-433 | a programmed hint's member in the programmed chunk is the program point; elsewhere it is the PRF-selected entry |
| PianoHints.InitialTagsDistinct | pianopir/pir.go:220-250 | the consecutive tag counter gives every backup hint its own tag, all above the primary tags |
| PianoHints.ChunkSlotEntry | pianopir/pir.go:281-298 | slot off of chunk i of the raw database is entry i·chunkSize + off |
| PianoHints.HintNext | pianopir/pir.go:316-339 | folding one more chunk (other than the skipped one) into a parity extends the XOR over the PRF row by that chunk's selected entry |
| PianoHints.GroupPartialDone | pianopir/pir.go:281-300 | after every chunk, each parity is the XOR of its tag's selected entries over all chunks but the skipped one |
| PianoHints.ReplacementIndex | pianopir/pir.go:346-347 | a drawn replacement index lies in chunk chunkId with the drawn offset |
| PianoHints.ReplacementDrawn | pianopir/pir.go:345-349 | a replacement value is the entry stored at its replacement index |
| PianoHints.PrepNext | pianopir/pir.go:303-352 | one UpdatePreprocessing step extends every primary and backup parity by one chunk and fills that chunk's replacements |
| PianoHints.PrepDone | pianopir/pir.go:267-301 | after all chunks, every primary hint is valid and unprogrammed and every backup hint and replacement is valid |
| PianoHints.MembersInChunks | pianopir/pir.go:424-439 | the query set holds exactly one member per chunk |
| PianoHints.HintsOkAfterRefresh | pianopir/pir.go:460-463 | replacing one primary hint with a valid one keeps every primary hint valid |
| PianoHints.GroupsOkAfterUse | pianopir/pir.go:436-467 | consuming the next backup and replacement of a chunk uses valid ones and keeps the rest valid |
| PianoHints.RefreshedHintsOk | pianopir/pir.go:460-463 | the refresh keeps every primary hint valid |
| PianoHints.HintAnswerOk | pianopir/pir.go:421-454 | for a hit hint, the decoded response is exactly the database entry at idx |
| PianoHints.ServedQueryOk | pianopir/pir.go:435-468 | a served query keeps the client invariant: valid hints, valid unconsumed backups and replacements, and a cache of true entries |
| PianoClient.XorHintsWithChunk | pianopir/pir.go:316-325 | the primary loop computes exactly the chunk-folded parities |
| PianoClient.ChunkAt | pianopir/pir.go:282-299 | the chunk is the raw database's slice for that chunk, zero-padded past the end |
| PianoClient.XorBackupsWithChunk | pianopir/pir.go:329-339 | the backup loop folds the chunk into every other chunk's backup parities |
| PianoClient.DrawReplacements | pianopir/pir.go:345-349 | the replacement row is the drawn indices in this chunk and their entries |
| PianoClient.InitialPrimary | pianopir/pir.go:222-231 | primary tags 0..p-1, zero parities, every program point unset |
| PianoClient.InitialBackups | pianopir/pir.go:233-251 | unset replacement indices, zero values and parities, and backup tags continuing the counter chunk by chunk |
| PianoClient.HintIndices | pianopir/pir.go:424-427 | the k-th index of a hint's set is k·chunkSize plus its offset in chunk k |
| PianoClient.PianoPirClient.constructor | pianopir/pir.go:130-175 | stores the configuration, budget and hint counts, with zero-filled tables, an empty cache and no queries made |
| PianoClient.PianoPirClient.Initialization | pianopir/pir.go:203-255 | installs a fresh key, resets the counter, histogram and cache, and lays out the initial primary and backup tables |
| PianoClient.PianoPirClient.UpdatePreprocessing | pianopir/pir.go:303-352 | folds the chunk into every primary parity and into every other chunk's backup parities, and replaces this chunk's replacements with fresh draws |
| PianoClient.PianoPirClient.Preprocessing | pianopir/pir.go:267-301 | after a reset, with skipPrep the tables stay initial; otherwise, on a database of the configured size, the client invariant holds (all hints valid) |
| PianoClient.PianoPirClient.FindHit | pianopir/pir.go:402-419 | returns the first hit hint, or the unset marker exactly when no hint hits |
| PianoClient.PianoPirClient.BuildQuerySet | pianopir/pir.go:421-439 | the set is the hint's members, the programmed point enforced, with the index's own chunk replaced |
| PianoClient.PianoPirClient.QueryOffsets | pianopir/pir.go:443-446 | each offset is the member modulo the chunk size |
| PianoClient.PianoPirClient.HintAnswer | pianopir/pir.go:421-454 | under the client invariant the decoded response is the entry at idx |
| PianoClient.PianoPirClient.RefreshHint | pianopir/pir.go:459-468 | the hit hint takes the next backup's tag, its parity XOR the response and idx as program point; histogram, counter and cache advance |
| PianoClient.PianoPirClient.Query | pianopir/pir.go:354-471 | a dummy query returns zeros and changes nothing; a cached index is answered from the cache; otherwise it succeeds exactly when budget, chunk quota and a hit hint allow; an error returns zeros and changes nothing; under the invariant a successful answer is the true entry and the invariant is kept |
| PianoClient.PianoPirClient.FetchEntry | pianopir/pir.go:385-470 | the real-query path: success exactly when the client can serve the index, followed by the refresh |
| PianoClient.PianoPirSystem.constructor | pianopir/pir.go:479-514 | sizes the chunks and sets by the NewPianoPIR rule, with the given database and budget |
| PianoClient.SystemConfig | pianopir/pir.go:480-504 | the configuration satisfies the sizing rule, and every padded index and hint tag fits in 64 bits |
| PianoClient.PianoPirSystem.Preprocessing | pianopir/pir.go:516-518 | the client is prepared against the server's database; without skipPrep the client invariant holds |
| PianoClient.PianoPirSystem.DummyPreprocessing | pianopir/pir.go:520-523 | the client is reset to its initial tables and marked skipPrep |
| PianoClient.PianoPirSystem.Query | pianopir/pir.go:525-533 | an exhausted budget triggers fresh preprocessing first; the invariant is then kept and a successful real answer is the true entry |
| PianoBatch.MakeConfig | pianopir/batch-pir.go:55-75 | batchSize/2 partitions of ⌈dbSize / partitions⌉ entries each, which together cover the database |
| PianoBatch.CeilCovers | pianopir/batch-pir.go:64 | (d + n - 1) / n is the least s with s·n ≥ d |
| PianoBatch.Range | pianopir/batch-pir.go:79-85 | the (clipped) entry range of a partition stays inside the database |
| PianoBatch.RangesTile | pianopir/batch-pir.go:79-85 | the ranges start at 0, end at dbSize and each begins where the previous one ends |
| PianoBatch.PartitionOf | pianopir/batch-pir.go:180 | every database index lies in the range of partition index / partitionSize |
| PianoBatch.RangeAsWrittenValid | pianopir/batch-pir.go:80-81 | the unclipped start is at most the end exactly when i·partitionSize ≤ dbSize, and then it agrees with the clipped range |
| PianoBatch.TrailingRangeInverted | pianopir/batch-pir.go:80-81 | with dbSize 5 and batchSize 8, partition 3 gets start 6 and end 5 as written, so `end - start` underflows; clipped it is the empty range (5, 5) |
| PianoBatch.SubDbEntry | pianopir/batch-pir.go:84 | entry j of a partition's database is entry start + j of the whole database |
| PianoBatch.PartitionDbs | pianopir/batch-pir.go:79-85 | the loop cuts exactly one sub-database per partition |
| PianoBatch.ArrivalsMember | pianopir/batch-pir.go:178-182 | a partition's queue holds exactly the batch indices that fall in that partition |
| PianoBatch.ArrivalPosition | pianopir/batch-pir.go:178-182 | each index's position in its partition queue is the number of earlier arrivals there (first come, first served) |
| PianoBatch.Padded | pianopir/batch-pir.go:193-198 | a short queue is padded with DefaultValue up to the quota, a long one is unchanged |
| PianoBatch.IssuedServed | pianopir/batch-pir.go:189-216 | a real index is issued to partition i exactly when it belongs there and arrived within the quota |
| PianoBatch.SinglePartitionBatch | pianopir/batch-pir.go:175-216 | when a batch of distinct indices all fall in one partition only the first len/partitions of them are served |
| PianoBatch.FullBatchQuota | pianopir/batch-pir.go:175 | a full batch gives each partition a quota of QueryPerPartition queries |
| PianoBatch.Output | pianopir/batch-pir.go:224-235 | each output slot is the recorded response for its index, or a zero entry when none was recorded |
| PianoBatch.ResponsesKeys | pianopir/batch-pir.go:189-216 | the responses map holds exactly the served indices |
| PianoBatch.ResponsesCorrect | pianopir/batch-pir.go:201-216 | when every sub-query answer is the partition's entry at the local offset, every recorded response is the true database entry |
| PianoBatch.BatchOutputs | pianopir/batch-pir.go:170-248 | an unserved index gets a zero entry; with correct sub-answers a served index gets its true entry |
| PianoBatch.Route | pianopir/batch-pir.go:178-182 | the routing loop builds each partition's arrival queue |
| PianoBatch.Pad | pianopir/batch-pir.go:193-198 | the padding loop computes Padded |
| PianoBatch.QueryPartition | pianopir/batch-pir.go:201-215 | the sub-query loop records the answer for every real issued index within the quota |
| PianoBatch.Collect | pianopir/batch-pir.go:189-216 | the partition loop builds exactly the responses map |
| PianoBatch.Gather | pianopir/batch-pir.go:224-235 | the output loop computes Output |
| PianoBatch.BatchAnswers | pianopir/batch-pir.go:175-235 | the whole answer path: zero entries for unserved indices and, with correct sub-answers, true entries for served ones |
| PianoBatch.SimpleBatchPianoPir.constructor | pianopir/batch-pir.go:55-93 | builds the configuration by MakeConfig, keeps the database and starts with zero counters |
| PianoBatch.SimpleBatchPianoPir.RecordStats | pianopir/batch-pir.go:110-117 | the supported batch count is the sub-PIR budget over QueryPerPartition |
| PianoBatch.SimpleBatchPianoPir.Preprocessing | pianopir/batch-pir.go:119-155 | resets the batch and query counters and records the stats |
| PianoBatch.SimpleBatchPianoPir.DummyPreprocessing | pianopir/batch-pir.go:157-166 | records the stats and leaves the counters |
| PianoBatch.SimpleBatchPianoPir.Query | pianopir/batch-pir.go:170-248 | returns the batch answers as above; once the partition query count reaches MaxQueryNum - 2 (wrapping below 2) it re-preprocesses and resets the counters, otherwise the counters advance by whole batches and by the quota |
| PianoUtil.TargetChunkSize | pianopir/util.go:98 | the target chunk size is ⌊2√n⌋: its square is at most 4n and the next square exceeds 4n |
| PianoUtil.ChunkParams | pianopir/pir.go:487-494 | the chunk size is the least power of two at least the target, and the set size is ⌈n / chunk⌉ rounded up to a multiple of 4, so the chunks cover the database |
| PianoUtil.ChunkSizeLeast | pianopir/util.go:99-102 | no smaller power of two reaches the target |
| PianoUtil.GenParams | pianopir/util.go:97-107 | the same sizing rule in 32-bit arithmetic, which never overflows |
| PianoUtil.FnvFoldAppend | pianopir/util.go:135-141 | FNV-1a over a concatenation continues from the hash of the first part |
| PianoUtil.DefaultHashLastByte | pianopir/util.go:135-141 | keys that differ only in their most significant byte hash differently |
| PianoUtil.NonSafePrfMask | pianopir/util.go:143-145 | the non-safe PRF is symmetric in key and input and blind to XORing both by the same value |
| PianoUtil.PrfInputInjective | pianopir/util.go:157-165 | tags below 2^29 and inputs below 2^35 give distinct PRF input blocks |
| PianoUtil.PrfInputCollisions | pianopir/util.go:161-162 | outside those bounds distinct (tag, input) pairs collide |
| PianoUtil.RandKey128 | pianopir/util.go:25-31 | the key's two little-endian halves are the two draws |
| PianoUtil.XorSlices | pianopir/util.go:173 | the first n words of dst are XORed with src, the rest unchanged |
| PianoUtil.XorPrefixTwice | pianopir/util.go:173 | XORing the same words twice restores dst |
| TextCodec.Decimal | graphann/loader.go:341 | the digits %d writes: non-empty, all decimal digits, no leading zero |
| TextCodec.DecimalValue | graphann/loader.go:341 | reading back the digits of x gives x |
| TextCodec.FormatInt | graphann/loader.go:341 | %d of an int is a non-empty run of digits and a minus sign |
| TextCodec.Atoi | graphann/loader.go:271 | strconv.Atoi accepts only an optional sign followed by digits whose value fits an int |
| TextCodec.AtoiFormatInt | graphann/loader.go:271 | Atoi reads back exactly the int that %d wrote |
| TextCodec.AtoiNeedsDigits | graphann/loader.go:271-274 | a sign alone or a sign before a non-digit is an error |
| TextCodec.FieldAt | graphann/loader.go:265 | a field is the longest space-free prefix, ended by a space or the end of the line |
| TextCodec.Fields | graphann/loader.go:265 | strings.Fields yields non-empty space-free words |
| TextCodec.FieldsAppend | graphann/loader.go:265 | text that ends in a space splits independently of what follows it |
| TextCodec.FieldsOfWord | graphann/loader.go:341 | a formatted token "x " is exactly one field |
| TextCodec.LineEnd | graphann/loader.go:262-263 | a scanned line stops at the first newline, or at the end of the input |
| TextCodec.LinesCons | graphann/loader.go:262-263 | a line ended by a newline is scanned as itself, followed by the lines of the rest |
| Loader.Ext | graphann/loader.go:288 | the extension is empty or a suffix of the name starting with '.' |
| Loader.ExtOfName | graphann/loader.go:288 | a name ending in ".ext" (no '.' or '/' after the dot) has extension ".ext" |
| Loader.FloatReaderFor | graphann/loader.go:197-215 | a float matrix reader is chosen exactly for .bvecs, .fvecs, .txt and .npy |
| Loader.TxtGraphShape | graphann/loader.go:250-285 | a loaded text graph has n rows; row i is line i parsed for i below the line count, later rows are zero rows of length m |
| Loader.ParseLinesOk | graphann/loader.go:260-283 | loading succeeds exactly when every one of the first rows parses |
| Loader.ParseLineOk | graphann/loader.go:265-275 | a line parses exactly when it has m fields and each one is an int |
| Loader.ParseFieldsOk | graphann/loader.go:268-275 | the fields parse exactly when every one is accepted by Atoi |
| Loader.FirstBadLine | graphann/loader.go:265-275 | loading reports the error of the first line that fails to parse |
| Loader.NpyRows | graphann/loader.go:238-245 | the npy data is cut into n rows of m entries |
| Loader.Wrap32 | graphann/loader.go:313 | the int32 conversion keeps values in the int32 range |
| Loader.NpyData | graphann/loader.go:310-316 | the saved npy buffer holds rows·m int32 entries |
| Loader.NpyRoundTrip | graphann/loader.go:217-248 | reading the first n rows of a saved buffer gives back each row's first m entries, converted to int32 |
| Loader.TxtRoundTrip | graphann/loader.go:250-285 | loading saved text gives the first min(n, rows) rows, then zero rows up to n |
| Loader.GraphTextLines | graphann/loader.go:328-347 | the saved text scans as one line per row |
| Loader.LinesSnoc | graphann/loader.go:262-263 | a newline-terminated line appended to newline-ended text adds exactly that line |
| Loader.RowFields | graphann/loader.go:265 | the fields of a saved row are its formatted numbers |
| Loader.ParseFormatted | graphann/loader.go:268-275 | the formatted numbers of a row parse back to the row |
| Loader.ParseGraphLines | graphann/loader.go:260-283 | the saved lines parse back to the graph's rows |
| Loader.UnknownEverywhere | graphann/loader.go:287-304 | an unknown extension is an error for the graph loader, the float loader and the saver alike |
| Loader.SaveLoadRoundTrip | graphann/loader.go:287-364 | saving a rectangular graph and loading n of its rows with the same width gives back those rows (for .npy when the values fit int32) |
| Loader.NpySaveLoad | graphann/loader.go:217-248 | the .npy case of the round trip |
| Loader.TxtSaveLoad | graphann/loader.go:250-285 | the .txt case of the round trip |
| Loader.LoadGraphFromTxtFile | graphann/loader.go:250-285 | the scanning loop computes the text graph, or the first parse error |
| Loader.ParseRow | graphann/loader.go:268-275 | the field loop computes ParseFields, stopping at the first bad field |
| Loader.LoadGraphFromNpyFile | graphann/loader.go:217-248 | the copy loop cuts the first n rows of m entries, with a shape error unless the array is two-dimensional with at least n rows and exactly m columns |
| Loader.LoadIvecsFile | graphann/loader.go:91-116 | the ivecs rows, converted to ints |
| Loader.LoadGraphFromFile | graphann/loader.go:287-304 | dispatches on the extension to the npy, txt and ivecs loaders, an error otherwise |
| Loader.SaveGraphToTxtFile | graphann/loader.go:328-347 | writes the graph as text, each entry followed by a space, each row by a newline |
| Loader.SaveGraphToNpyFile | graphann/loader.go:306-326 | writes the graph as an int32 npy array of shape rows by the first row's width |
| Loader.SaveGraphToFile | graphann/loader.go:349-364 | dispatches on the extension to the npy and txt savers, an error otherwise |

## Left out

- Distances, vectors, `np.linalg.norm`, `L2Dist` and the float32 recall arithmetic are not modelled as floating point: a distance is an uninterpreted function into the reals, and a vector an opaque value.
- k-means clustering is a parameter (the centroids and labels it produced); `brute_force_search` is not part of this model.
- The AES-based PRF, its key expansion and the MMO construction are an uninterpreted function of (tag, chunk) under the current key; the FNV-1a hash behind `nonSafePRFEval` is modelled exactly.
- Randomness (`rand.Intn`, `rng.Uint64`, time-based seeds, the `rand.Float64() < prob` coin of the edge-sampling pass at graphann/build_graph.go:587-603) is a parameter or a draw function supplied by the caller, except in the fill loop (graphann/build_graph.go:607-623), whose `rand.Intn(n)` draws are an unconstrained choice of an acceptable id in GraphCleanup.FillRow; rejected draws are not modelled.
- GraphCleanup.FillRow: requires m < n. With m >= n the source's fill loop never ends on a short row without a self-loop: a draw is appended only when it is neither i nor already in the row, so the row stops growing at n - 1 < m ids and every later draw is rejected. The model does not capture that hang. GraphCleanup.FillGraph and GraphCleanup.CleanUp carry the same requirement.
- Concurrency is not modelled: the goroutines that the batch `Preprocessing` starts, one per partition, are modelled as running one after another.
- `math.Sqrt` is modelled as the integer floor square root; the float formulas of `NewPianoPIRClient` for the query budget, the primary hint count and the per-chunk query limit are taken as parameters.
- `log.Fatalf` and panics become preconditions of the member that would stop; the text of error messages is abstract (an error constructor per cause).
- `LocalStorageSize`, `PrintInfo`, `PrintStorageBreakdown`, the `CommCost` accounting and `GetMetadata`, `PreprocessingTime` and the timing arguments only report statistics and are left out, as are the `Config()` accessors.
- PianoBatch.SimpleBatchPianoPir.Query: the sub-PIR instances are abstracted to an answer function per partition, so the contract states correctness only under the hypothesis that each sub-query returns its partition's entry; their own state is not threaded through. The single-PIR client proves its answer correct only when its query succeeds, and it can fail (query budget spent, too many queries in the chunk, no hint hit: pianopir/pir.go:385-418).
- PianoBatch.SimpleBatchPianoPir.Query: a failed sub-query is not modelled; as written the error is discarded (pianopir/batch-pir.go:205) and the zero reply is recorded as that index's response, so the answer-function hypothesis does not cover that case.
- PianoBatch.SimpleBatchPianoPir.Query: indices must lie below the database size; the code accepts any index below PartitionNum · PartitionSize, and an index past the database size has no stored entry to compare the answer with.
- PrivateSearch.PIRGraphInfo.Preprocess: the PIR set-up at its end (NewSimpleBatchPianoPIR and then Preprocessing or DummyPreprocessing, private-search.go:401-408) is not part of this method; the PIR is a parameter of GetVertexInfo, and PrivateSearch.HonestResponsesSucceed is the bridge to the batch PIR's correctness.
- PrivateSearch.PIRGraphInfo.GetVertexInfo: the outcome of the PIR batch query (`g.PIR.Query`, private-search.go:460 and 469) is a parameter (an error or one entry per id) rather than a call; PrivateSearch.HonestResponsesSucceed states what the method returns when the PIR answers with the stored entries.
- PianoUtil.XorSlices: the assembly xorSlices (declared at pianopir/util.go:173, its body is not part of this model) is taken to XOR exactly the first n words for every n; the restriction documented above PianoPir.EntryXor (pianopir/pir.go:257, entry sizes must be a multiple of 4) is not modelled, so PianoPir.EntryXor, PianoPir.ValidConfig and the client's correctness chain (PianoHints.AnswerCancels, PianoHints.HintAnswerOk, PianoClient.PianoPirClient.Query, PianoBatch.BatchAnswers) are stated for every entry size, including sizes such as the (Dim+M)/2 words of private-search.go:360-366 that the routine does not document as supported.
- PianoPir.ValidConfig: the database size is bounded by the DefaultProgramPoint marker 0x7fffffff, which NewPianoPIR does not check (it takes any uint64 size); larger databases are the marker collision listed under Findings.
- PianoClient.SystemConfig: requires the same marker bound on the database size, which the code does not check.
- PianoClient.PianoPirSystem.constructor: requires the same marker bound on the database size, which NewPianoPIR does not check.
- PianoBatch.MakeConfig: `DBSize + PartitionNum - 1` is computed on unbounded integers, so a 64-bit overflow of that sum is not modelled.
- Counters (`FinishedQueryNum`, `FinishedBatchNum`, `QueriesMadeInPartition`, `totalQueryNum`) are unbounded; only the `MaxQueryNum - 2` comparison is written with its unsigned wrap-around.
- The float matrix loaders (`.bvecs`, `.fvecs`, text and npy float readers) are left out; only their extension dispatch is modelled, and their npy shape rule is the same as the integer one in `Loader.ShapeOk`.
- Files are a map from path to typed contents: text is a sequence of characters (UTF-8 decoding is not modelled), an npy file is its shape and int32 data, an ivecs file its decoded rows. A file of the wrong kind is reported as unreadable.
- Loader.LoadIvecsFile: the ivecs decoder is abstracted to its decoded rows; its panic on a short file becomes a precondition.
- `os.Create` failures, write errors and the scanner's token-size limit (`scanner.Err`) are not modelled.
- `ann.go`, `ngt-search.go` and the command-line `main` functions are not part of this model.

## Findings

| source | as written | input that shows it | evidently intended | confidence | as-written member | corrected member |
|---|---|---|---|---|---|---|
| cluster-search.py:216 | `intersect1d(..., assume_unique=True)` counts every repeat of an id, and `search` pads short clusters with repeats of the cluster's first member (line 184) | answer row [5, 5, 5] against truth [5, 6, 7] with k = 3 scores 1.0 | the fraction of distinct true neighbours found, here 1/3 | not executed | ClusterSearch.PaddedRowOvercounts | ClusterSearch.IntendedRowRecall |
| pianopir/pir.go:462 | `primaryProgramPoint[hitId] = idx` stores the index in a field whose value 0x7fffffff means not programmed (lines 409 and 430) and NewPianoPIR puts no bound on DBSize | DBSize = 2^31 (chunks of 2^17 and 2^14 chunks) and a query for idx = 0x7fffffff: its hint then reads as unprogrammed; it counts as a hit in that index's own chunk again and names the PRF's index there instead of idx | no database index equals the marker: DBSize at most 0x7fffffff or a marker outside the index range | not executed | PianoHints.MarkerCollides | PianoHints.ProgramPointKept |
| pianopir/batch-pir.go:80-84 | `start := i * PartitionSize` is not clipped to `DBSize`, so a trailing partition can start past the end; `end - start` then wraps around and the slice of `rawDB` panics | DBSize = 5 and BatchSize = 8 give 4 partitions of size 2; partition 3 has start 6 and end 5 | every partition gets the range [min(i·size, DBSize), min((i+1)·size, DBSize)), which is empty at the tail | not executed | PianoBatch.TrailingRangeInverted | PianoBatch.RangesTile |

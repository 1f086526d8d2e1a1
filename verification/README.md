# A Dafny model of OctaSoma

OctaSoma stores embeddings with byte payloads and answers similarity queries. This project
models the parts of it whose correctness is not visible from any single function, and proves
what those parts promise. `dafny verify dfyconfig.toml` checks everything.

What is modelled, component by component:

* **Spatial index** (`Geometry`, `Cells`, `Routing`, `Octree`, `Knn`, `Descent`,
  `CanonicalTree`, `Fractal`). The bucket octree is a class over a node array with links, leaf
  buckets, items and a payload arena, updated in place by insertion, world growth and
  subdivision. A ghost list of item ids per node ties the array to one mathematical tree that
  depends on the stored items alone. The k-nearest-neighbour descent is proved against a linear
  scan, and the zoom functions against the items of a region.
* **Crash-safe saves** (`Faults`, `GenerationNumbers`, `Pruning`, `Generations`,
  `GenerationStore`, `StoreHistory`, `StoreText`). The directory is a value; each filesystem call
  is one step that works, fails or crashes as an arbitrary schedule says. The theorems are about
  every history of saves and prunes. Digests are an injective function of file contents.
* **Global sharded snapshots** (`ShardedStore`, `ShardedHistory`), on the same footing, with
  the five phases at which a save can be told to fail, and with pruning.
* **Logical records** (`Bytes`, `Utf8`, `Records`, `RecordCodec`, `RecordStore`, `Traversal`): the RECS
  binary format, lifecycle and filters, and bounded relation traversal.
* **Precision tier and certificates** (`Vectors`, `Ranking`, `Conformal`,
  `PrecisionTier`, `SketchStore`, `Quantize`, `Kernel`): Hamming shortlists with exact rerank,
  risk-controlling calibration, adaptive radii, split-conformal quantiles and guaranteed recall.
* **Coupled and sharded memories** (`HybridMemory`, `Compaction`, `RecallLimits`,
  `SpatialCompaction`, `FilteredRecalls`, `ShardedHybrid`): octree and sketch index in step, query
  strategies, filtered recall, compaction and purging.
* **Work-stealing PCA reduction** (`ParallelPca`): threads that race on a chunk
  cursor, over an addition about which nothing is assumed.
* **Request framing** (`Framing`): bounded newline-delimited input over any chunking.

Supporting modules: `Wrappers` (option and result), `Sorting` (a stable sort), `ItemIds`, `Reals`, `Digits`
(repeated division).

## Reading notes

Reals stand for `f32` and `f64`, so every comparison below is exact and every value is finite.
The exception is the PCA part, where addition and multiplication are arbitrary functions.
Missing values stand for plus infinity in the conformal code. Counts are unbounded except where
a width decides an outcome: `u32` and `u64` fields of the formats, the saturating `u32` radius,
the 32-bit accumulator of the integer dot product, the largest generation number.

Embeddings are `highDim` reals; the embedder and the text it embeds are vector arguments. The
function that extracts a record id from an index payload is a parameter everywhere.

A method that runs under a schedule of faults says what holds wherever its calls fail or stop,
and that it succeeds when none does. A step of a history is any pair of states that satisfies such
a contract, so the history theorems cover every place a crash can fall. A counterexample about
saves is a method that runs them: from every state its precondition describes, it crashes the
operation at one named call.

## What the proofs found

Where the code and its own documentation disagree, the model follows the code.

* `HybridMemory::open_dir` documents that the highest generation is recovered when a crash
  precedes pointer publication (src/hybrid.rs:401-404). The code opens what the earlier pointer
  names, and refuses a store in which none is visible. So a v0.4 store is unprotected during its
  first save: `StoreHistory.HideLegacy` makes any such store unreadable by stopping right after the
  generation directory is in place, and `StoreHistory.OnlyLegacyVanishes` shows that a readable
  store becomes unreadable only from there, with no pointer and no generation before the save.
  The sharded root is protected, because it names its legacy layout first.
* Off Unix, publishing the sharded pointer removes the moved-aside copy before anything else, so
  a store whose only pointer is that copy can lose it. A save can lose the readers' pointer exactly
  in the states `ShardedStore.CanLosePointer` describes (the clause of
  `ShardedStore.ShardedDir.SaveDir` one way, `ShardedHistory.LosePointer` the other), and can make
  a readable store unreadable exactly in those of them without a legacy layout
  (`ShardedHistory.UnreadableOnlyAtRisk`). `ShardedHistory.TwoCrashesLosePointer` reaches the loss
  by two interrupted saves from any published store without a legacy layout. On Unix, and in the
  unsharded store on every system, no crash loses a pointer.
* Off Unix, a store upgraded from the legacy layout gets stuck instead: a save that stops between
  the two renames leaves it without CURRENT, and every later save is refused even when nothing
  fails, because a legacy manifest and a generation are both there. `ShardedHistory.Strand` runs
  into this from each such store, `ShardedHistory.StuckOnlyOffUnix` shows that there is no other
  way, and `ShardedHistory.StuckForever` that nothing changes afterwards. Readers keep the
  moved-aside pointer.
* The sharded prune accepts `keep = 0`, which the unsharded one refuses. It then lowers the highest
  number exactly when CURRENT does not name it (`ShardedHistory.PruneLowersHighest`), and a later
  save gives the number out again: `ShardedHistory.ReuseNumber`. While no
  prune does that a number is used once (`ShardedHistory.NeverReused`).
* `certify_shortlist` documents that nothing certifies when the sketch is too weak. The last
  grid point is the whole corpus, whose risk is zero, so a calibration with valid queries fails
  exactly when the slack alone exceeds `alpha` (`SketchStore.SketchIndex.CertifyShortlist`).
* The lambda grid of the adaptive calibration ends exactly for sketches narrower than 2^32 - 1
  bits (`PrecisionTier.GridEndsIff`); the tier's well-formedness condition says so.
* `recall_related` describes a deterministic expansion order, but its first frontier comes out
  of a hash set. The model leaves that order open, and the theorems hold for every order.
* A RECS file may list ids out of order, or list one id again with a newer generation. Such a
  file decodes but is not what the encoder writes; `RecordStore.EncodeDecode` gives the exact
  condition.
* A compacted region indexes normalised vectors in its octree where the original indexed the
  raw ones (`ShardedHybrids.Rebuild`). An entry keeps its place exactly when its vector is zero, of
  norm one or projected to the origin (`SpatialCompaction.SamePlaceIff`), and
  `SpatialCompaction.GatheredChanges` gives two vectors for which the spatial strategy gathers
  another candidate after a compaction that keeps both. The precise path, which every filtered
  recall uses, is the one the compaction theorems cover. A region of a product-quantized store is
  rebuilt on the F32 tier.
* Filtered recall overfetches so that hidden entries do not leave an answer short
  (src/hybrid.rs:753-757). They do when more of them rank ahead than the overfetch allows for:
  `RecallLimits.FullIff` gives the exact number, for every region size, `k` and shortlist.
* A compaction drops only entries that no later or narrower recall could return
  (`FilteredRecalls.NarrowerAdmitsNoMore`), yet it can make such a recall worse. Entries it kept
  that have expired since still take up the fetch, and one that the compaction brought into the
  shortlist can push an answer out of it. This can happen exactly when the shortlist is larger
  than the fetch and smaller than the region (`RecallLimits.NeverWorseIff`): at the default
  shortlist of 256, for up to 82 hits and from 257 entries on. `FilteredRecalls.LaterRecallLost`
  builds the case from one tombstone and one expiry time. A recall at the compaction's own time and scope is never worse, and one that sees the whole region
  never changes (`ShardedHybrids.CompactionRecall`).
* Purging before compacting brings tombstoned entries back into recall, because ids without a
  record are admitted (`FilteredRecalls.PurgeFirstResurrects`). A purge leaves
  what a filter admits in a region alone exactly when it purges no record of an entry there
  (`FilteredRecalls.PurgeSparesRegion`). After a compaction that is so as long as the records stay
  as they were (`ShardedHybrids.PurgeKeepsRecall`); the entry of a record that is tombstoned in
  between and then purged comes back.

## Model

| member | source | states |
|---|---|---|
| `Geometry.CubeBoundAdmissible` | src/lib.rs:575-584 | the cube bound never exceeds the squared distance to any point of the cube, so pruning on it is sound |
| `Geometry.CubeBoundAttained` | src/lib.rs:575-584 | and is exact: some point of the cube is that far away, so for a cube of size zero it is the distance to the centre |
| `Geometry.Dist2Meaning` | src/lib.rs:563-568 | the squared distance is zero exactly between equal points, the square of the difference along one axis, and the sum of those of two legs at a right angle |
| `Geometry.AxesAlike` | src/lib.rs:563-568 | it does not change when two axes of both points are exchanged |
| `Geometry.OctantBits` | src/lib.rs:812-824 | the octant has one bit per axis, and a point on a dividing plane is on its upper side |
| `Geometry.OctantContains` | src/lib.rs:812-835 | a point of a cube lies in the closed child cube of its octant |
| `Geometry.ChildCubeInside` | src/lib.rs:828-835 | each of the eight child cubes lies inside its parent |
| `Geometry.HalvingDecreases` | src/lib.rs:894-925 | halving a cube above the minimum size strictly lowers the depth budget that bounds routing |
| `Octree.Grow` | src/lib.rs:882-890 | repeated doubling ends in a world that is no smaller and reaches the coordinate |
| `Octree.GrowIsFirst` | src/lib.rs:882-890 | the grown world is the first doubling of the old one that reaches the coordinate |
| `CanonicalTree.GrowTwice` | src/lib.rs:882-890 | growing for two coordinates one after the other is growing once for the larger |
| `CanonicalTree.WorldIsOneGrowth` | src/lib.rs:845-890 | the world after any sequence of insertions depends on the largest coordinate only, not on the order |
| `Octree.FractalMemory3D.constructor` | src/lib.rs:721-780 | a fresh engine is valid, empty, with world 1 |
| `Octree.FractalMemory3D.ResetRoot` | src/lib.rs:774-780 | leaves a single empty leaf over the whole world |
| `Octree.ProjectInChunks` | src/lib.rs:519-559 | the accumulation four products at a time gives the dot products with the three matrix rows; nothing on a dimension mismatch or a short matrix |
| `Octree.FractalMemory3D.Insert` | src/lib.rs:845-878 | appends exactly this item and payload, grows the world by the least sufficient doubling and indexes every item, or refuses the dimension and changes nothing |
| `Octree.FractalMemory3D.GrowTo` | src/lib.rs:882-890 | doubles the world until it reaches the coordinate and rebuilds a tree that indexes every item again |
| `Octree.FractalMemory3D.Route` | src/lib.rs:894-925 | extends the set of indexed items by exactly one, keeping the tree invariant; terminates on halvings left |
| `Octree.FractalMemory3D.Descend` | src/lib.rs:894-925 | moves an item one level down, creating the child on first use, with strictly less depth left |
| `Octree.FractalMemory3D.NewLeaf` | src/lib.rs:928-934 | appends one empty leaf with its own new bucket and changes nothing else |
| `Octree.FractalMemory3D.Subdivide` | src/lib.rs:938-957 | empties the bucket of an overfull leaf into one child per non-empty octant, each id to its octant, in order |
| `Octree.FractalMemory3D.FileInChild` | src/lib.rs:942-956 | files one id into the child of its octant, creating it on first use |
| `Routing.BeginRouting` | src/lib.rs:894-899 | adding an id to the root's item set starts a routing that only the root does not yet satisfy |
| `Routing.DescendKeepsPending` | src/lib.rs:900-924 | stepping into an existing child keeps the routing invariant |
| `Routing.CreateKeepsPending` | src/lib.rs:900-924 | stepping into a newly created child keeps the routing invariant |
| `Routing.PushCompletes` | src/lib.rs:900-910 | pushing the id into a leaf with room, or at minimum size, completes the tree invariant |
| `Routing.SplitKeepsPending` | src/lib.rs:938-957 | subdividing the current leaf keeps the routing invariant |
| `Routing.AppendKeepsIndex` | src/lib.rs:845-878 | storing a new item does not disturb the index of the earlier ones |
| `CanonicalTree.TreeIsCanonical` | src/lib.rs:845-957 | after any history, the node array stores exactly the octree that the items alone determine: leaves that fit or are minimal, and one child per non-empty octant otherwise |
| `CanonicalTree.ItemHasOnePlace` | src/lib.rs:894-957 | an id is in exactly one bucket, once: that of the leaf its octants lead to, whose closed cube contains its point; internal nodes keep none |
| `Octree.PayloadsKept` | src/lib.rs:1044-1051 | an insertion stores its payload and leaves every earlier payload readable and unchanged |
| `Octree.FractalMemory3D.GetPayload` | src/lib.rs:1044-1051 | exactly the stored items have a payload, of the length recorded |
| `Knn.OfferedIsBest` | src/lib.rs:1311-1328 | offering an unseen item keeps the set the k closest of everything offered |
| `Knn.PrunedIsBest` | src/lib.rs:1001-1013 | skipping items no closer than the worst of a full set changes nothing |
| `Knn.KBestUnique` | src/lib.rs:976-1027 | two k-best sets in ascending order have equal distances, and equal ids below the last distance |
| `Knn.KnnSet.Offer` | src/lib.rs:1311-1328 | appends while there is room, then replaces the first worst entry only by something strictly closer |
| `Knn.KnnSet.Worst` | src/lib.rs:1301-1309 | is infinite while there is room and the largest distance held afterwards |
| `Knn.KnnSet.IntoSorted` | src/lib.rs:1330-1333 | returns the entries held, in ascending distance |
| `Octree.FractalMemory3D.Nearest` | src/lib.rs:976-983 | the pruned descent returns the k nearest of all items: distinct ids, own distances, ascending, and no other item nearer than one returned |
| `Octree.FractalMemory3D.NnDescend` | src/lib.rs:985-1014 | leaves the set the k best of what it held together with everything below the node |
| `Octree.FractalMemory3D.ChildOrder` | src/lib.rs:995-1006 | lists every existing child exactly once with its lower bound, nearest cube first and equally near ones by octant |
| `Octree.FractalMemory3D.NearestBruteforce` | src/lib.rs:1018-1027 | the linear scan answers the same question |
| `Descent.NearestWritten` | src/lib.rs:973-1027 | what both answer, with the arithmetic written out: min(k, n) distinct ids in ascending order of their summed squared coordinate differences, and no item left out that is nearer than one returned |
| `CanonicalTree.DescentMatchesScan` | src/lib.rs:973-1027 | descent and scan return equally many hits with equal distances, and the same ids below the k-th distance |
| `CanonicalTree.NearestIsRankingPrefix` | src/lib.rs:971-983 | the distances are those of the first min(k, n) entries of the fully sorted item list |
| `Descent.AllCovered` | src/lib.rs:985-1014 | the items below an internal node are exactly those below its children |
| `Descent.SkipIsSound` | src/lib.rs:1001-1013 | skipping a child whose bound reaches the worst held distance loses nothing |
| `Fractal.ZoomIsPathEnd` | src/fractal.rs:38-80 | zooming to a level ends at the last region of the zoom path to that level |
| `Fractal.DeeperPathExtends` | src/fractal.rs:50-80 | the path to a level is a prefix of the path to any deeper level |
| `Fractal.PathNarrows` | src/fractal.rs:50-80 | along the path half sizes exactly halve, depths count up and the item sets only shrink |
| `Fractal.ZoomedMembers` | src/fractal.rs:82-98 | a zoomed region holds exactly the items whose octants agree with the query's on every level passed |
| `Fractal.ZoomStops` | src/fractal.rs:82-98 | a zoom ends at the level asked for, or earlier in a region that fits a bucket, is too small or has nothing in the octant of the point |
| `Fractal.ZoomGoesOn` | src/fractal.rs:82-98 | and leaves every region where none of these holds |
| `Fractal.ViewSummarises` | src/fractal.rs:100-156 | every field of a view: level, cube, number of items, coordinate sums over the count, first payloads in walking order |
| `Fractal.CountSplits` | src/fractal.rs:100-156 | the count of a divided region is the sum of the counts of its eight octants |
| `Fractal.VisitPermutes` | src/fractal.rs:126-156 | the tree walk visits each item of a region exactly once |
| `Fractal.CentroidInside` | src/fractal.rs:100-124 | the centroid of a non-empty region lies in its cube |
| `Fractal.ZoomCentroidInside` | src/fractal.rs:38-124 | so does the centroid of every non-empty region zooming reaches |
| `Fractal.DescendAlong` | src/fractal.rs:82-98 | the loop over the node array ends at the region the items determine |
| `Fractal.CollectRegion` | src/fractal.rs:126-156 | adds the region's count, coordinate sums and first payloads to the tallies |
| `Fractal.TallyBucket` | src/fractal.rs:126-156 | the same for one leaf bucket |
| `Fractal.Summarize` | src/fractal.rs:100-124 | returns count, centroid and samples of exactly the region's items; the cube centre when empty |
| `Fractal.Zoom` | src/fractal.rs:38-45 | summarises the region zooming ends at, field by field; nothing on a dimension mismatch |
| `Fractal.ZoomPath` | src/fractal.rs:50-80 | one summary per region of the path, coarse to fine, each field by field |
| `GenerationStore.StoreDir.Do` | src/generation_store.rs:58-125 | one filesystem call takes effect entirely or not at all |
| `GenerationNumbers.HighestGeneration` | src/generation_store.rs:430-445 | finds the largest published number in any directory order |
| `GenerationStore.StoreDir.Save` | src/generation_store.rs:58-125 | wherever it stops, old generations are untouched, at most the next number appears and is complete, and the pointer is the old one or names the new save; without faults it succeeds unless the numbers are used up |
| `GenerationStore.StoreDir.StageAndPublish` | src/generation_store.rs:80-118 | the same for the body of a save |
| `GenerationStore.StoreDir.Stage` | src/generation_store.rs:82-108 | writes both components and a manifest that binds their digests, visible to no reader |
| `GenerationStore.StoreDir.RemoveStaging` | src/generation_store.rs:119-125 | cleaning up touches staging only, even when it fails half way |
| `GenerationStore.StoreDir.PublishCurrent` | src/generation_store.rs:344-387 | at every step readers find the old pointer or the new one, on both publication paths |
| `GenerationStore.StoreDir.Prune` | src/generation_store.rs:456-511 | keeps exactly the newest `keep` generations and the one CURRENT names; an interrupted prune keeps at least those and leaves at most part of the others; refuses keep 0 and a missing pointer, and without faults nothing else |
| `GenerationStore.StoreDir.RemoveBeyond` | src/generation_store.rs:486-510 | the deletion loop, newest first, which completes without faults |
| `GenerationStore.StoreDir.RemoveGeneration` | src/generation_store.rs:495-503 | removes one directory, or stops with any of its files gone and the others as they were |
| `Generations.NamedOpens` | src/generation_store.rs:157-342 | a named generation opens to exactly the tree, sketch and shortlist saved, for every request that fits, and for no other |
| `Generations.OpenedIsBound` | src/generation_store.rs:214-342 | whatever opens has the component digests its manifest names and the manifest digest its pointer names |
| `Generations.ReadersPointer` | src/generation_store.rs:157-212 | readers obey CURRENT; a moved-aside pointer counts off Unix only, and there only while CURRENT is missing |
| `Generations.LegacyOpensIff` | src/hybrid.rs:418-444 | without pointer and generation a store opens exactly to a v0.4 tree and sketch of the asked dimension, with shortlist 256 and never under a fingerprint |
| `StoreHistory.StepServes` | src/generation_store.rs:58-125 | a save or prune keeps serving the same save or switches to the one it writes |
| `StoreHistory.HistoryServesOneSave` | src/generation_store.rs:58-125 | after any history readers see one complete save, no older than the last acknowledged one |
| `StoreHistory.HistoryOpens` | src/generation_store.rs:157-212 | so every fitting request opens exactly that save, never a mix and never an unpublished generation |
| `StoreHistory.StepNumbers` | src/generation_store.rs:67-78 | a step adds no number up to the highest seen, never lowers the highest, rewrites nothing published |
| `StoreHistory.NumbersOnlyGrow` | src/generation_store.rs:67-78 | the highest number never decreases over a history |
| `StoreHistory.NeverReused` | src/generation_store.rs:67-78 | a number once at or below the highest is never published again, and its directory is never rewritten; only an interrupted prune takes files out of it |
| `StoreHistory.PruneInvisible` | src/generation_store.rs:456-511 | pruning, interrupted or not, changes no reader's result |
| `StoreHistory.HideLegacy` | src/generation_store.rs:110-116 | from any store without pointer and generation, a save stopped right after the directory rename leaves nothing any reader accepts |
| `StoreHistory.OnlyLegacyVanishes` | src/generation_store.rs:157-212 | no save attempt makes a readable store unreadable unless it had neither pointer nor generation |
| `StoreHistory.LegacyNeverReturns` | src/generation_store.rs:190-212 | over any history, once a generation exists the v0.4 files are never read again |
| `StoreHistory.LegacyAfterSave` | src/generation_store.rs:157-212 | what a reader of such a store finds after a save attempt: the old layout while no generation exists, a refusal with a generation and no pointer, the new save with a pointer |
| `StoreText.GenerationNameRoundTrip` | src/generation_store.rs:513-523 | a printed generation name parses back to its number |
| `StoreText.FixedAt` | src/generation_store.rs:513-523 | digit by digit what a padded number looks like, most significant first |
| `StoreText.DecimalMeans` | src/generation_store.rs:525-559 | an unpadded number has the same digits and no leading zero |
| `StoreText.NumberRoundTrip` | src/generation_store.rs:655-662 | printed numbers parse back, for all of `u64` |
| `StoreText.NumberAccepted` | src/generation_store.rs:655-662 | digits up to the largest `u64`, with or without one plus sign, parse to their value, and nothing without digits does |
| `StoreText.CurrentRoundTrip` | src/generation_store.rs:344-359 | a printed pointer file parses back to its generation and manifest digest |
| `StoreText.CurrentText` | src/generation_store.rs:344-348 | the pointer file written out as text |
| `StoreText.CurrentAccepted` | src/generation_store.rs:642-653 | a pointer file is accepted exactly when its lines are the ones a writer prints for some generation and a digest of 64 lower-case hexadecimal digits |
| `StoreText.CurrentLength` | src/generation_store.rs:642-653 | a printed pointer file fits the size bound of its reader |
| `StoreText.ManifestRoundTrip` | src/generation_store.rs:525-640 | both manifest versions parse back to every field, with or without a fingerprint |
| `StoreText.ManifestAccepted` | src/generation_store.rs:562-640 | an accepted manifest is line by line the printed form of what is read, but for the way its numbers are written; its shortlist is not zero, its digests are hexadecimal and its fingerprint is valid |
| `StoreText.LinesOfUnlines` | src/generation_store.rs:561-593 | splitting joined lines gives the lines back |
| `StoreText.LinesMean` | src/generation_store.rs:562-569 | either line ending ends a line, and the last line may lack it |
| `ShardedStore.SnapshotOpens` | src/hybrid.rs:1168-1315 | a directory holding a snapshot opens to its regions and records, all from that save |
| `ShardedStore.NamedOpens` | src/hybrid.rs:1168-1315 | so does the snapshot a pointer names |
| `ShardedStore.OpensIff` | src/hybrid.rs:1168-1315 | for current and legacy manifests alike, what a directory opens to: exactly the listed regions, each as its own store opens, and the records; a current manifest binds every region pointer and the records, a legacy one nothing |
| `ShardedStore.PointerOpensIff` | src/hybrid.rs:1168-1315 | a pointer opens to what its target holds, if the manifest there is the one it names |
| `ShardedStore.ReadersPointer` | src/hybrid.rs:1497-1519 | which pointer a reader obeys, on Unix and off it |
| `ShardedStore.ShardedDir.SaveDir` | src/hybrid.rs:1077-1158 | failing at any of the five phases or crashing anywhere leaves old snapshots and the legacy layout intact, adds at most one complete snapshot, moves the pointer only once it is in place, and loses it only from the states that can lose it; without faults it succeeds exactly unless the store is stuck or the numbers are used up |
| `ShardedStore.ShardedDir.SaveNamed` | src/hybrid.rs:1083-1158 | the same for a store that has a pointer or no legacy layout |
| `ShardedStore.ShardedDir.StageAndPublish` | src/hybrid.rs:1092-1158 | the same for the staged part of a save |
| `ShardedStore.ShardedDir.StageSnapshot` | src/hybrid.rs:1099-1145 | the whole snapshot is written where no reader sees it |
| `ShardedStore.ShardedDir.Commit` | src/hybrid.rs:1145-1158 | the rename of the directory and the pointer switch, with every place they can stop at |
| `ShardedStore.ShardedDir.StageRegions` | src/hybrid.rs:1099-1123 | writes each region as its own nested store and records the digest of its pointer |
| `ShardedStore.ShardedDir.StageRecordsAndManifest` | src/hybrid.rs:1124-1144 | completes the snapshot with records and a manifest binding both |
| `ShardedStore.ShardedDir.PublishCurrent` | src/hybrid.rs:1445-1476 | readers find the old pointer or the new one, except from the state where only a moved-aside pointer is left, off Unix |
| `ShardedStore.ShardedDir.ReplaceAside` | src/hybrid.rs:1462-1474 | off Unix a crash before the second rename leaves the moved-aside pointer, or none if CURRENT was missing |
| `ShardedStore.ShardedDir.EnsureLegacyCurrent` | src/hybrid.rs:1426-1443 | names a legacy layout that has no pointer before the first snapshot, refuses exactly when a snapshot exists already, and changes nothing otherwise |
| `ShardedStore.ShardedDir.PruneGlobal` | src/hybrid.rs:1590-1625 | keeps exactly the newest `keep` snapshots and the one CURRENT names; an interrupted prune keeps at least those; without faults it completes exactly when CURRENT names a generation with the manifest it binds |
| `ShardedStore.ShardedDir.RemoveUnretained` | src/hybrid.rs:1611-1624 | the deletion loop, newest first |
| `ShardedStore.ShardedDir.RemoveGeneration` | src/hybrid.rs:1619-1622 | removes one snapshot, or stops with any of its entries gone |
| `ShardedHistory.StepServes` | src/hybrid.rs:1077-1158 | a save or prune keeps what is served or switches to the snapshot it writes; only a save from a state that can lose the pointer leaves readers without one |
| `ShardedHistory.HistoryServesOneSave` | src/hybrid.rs:1077-1158 | after any history readers are served one save's snapshot, no older than the last acknowledged one; or none, and then no save was acknowledged or a save lost the pointer from a state that can lose it; the legacy layout is untouched |
| `ShardedHistory.HistoryOpens` | src/hybrid.rs:1168-1315 | after any history whatever opens is exactly one save, never a mix and no older than the last acknowledged one, or the legacy layout the store started from |
| `ShardedHistory.ServedOpens` | src/hybrid.rs:1168-1315 | reopening returns regions and records of one and the same save, exactly for the requests that fit it |
| `ShardedHistory.PruneInvisible` | src/hybrid.rs:1590-1625 | pruning, interrupted or not, changes no reader's result |
| `ShardedHistory.LegacyNeverReturns` | src/hybrid.rs:1497-1519 | over any history, once a snapshot exists the legacy layout is never chosen by default, nor by a pointer that was not there already |
| `ShardedHistory.UnreadableOnlyAtRisk` | src/hybrid.rs:1445-1476 | a save makes a readable store unreadable only off Unix, from a lone moved-aside pointer, without a legacy layout |
| `ShardedHistory.LosePointer` | src/hybrid.rs:1462-1465 | from every state that can lose the pointer a crashing save does; readers are then refused, or get the legacy layout |
| `ShardedHistory.TwoCrashesLosePointer` | src/hybrid.rs:1445-1476 | off Unix, two interrupted saves from any published store without a legacy layout leave no pointer |
| `ShardedHistory.StuckOnlyOffUnix` | src/hybrid.rs:1426-1436 | a store comes to refuse every save only by an interrupted save off Unix beside a legacy layout |
| `ShardedHistory.Strand` | src/hybrid.rs:1426-1436 | from each such store one interrupted save gets there, and the next save is refused although nothing fails |
| `ShardedHistory.StuckForever` | src/hybrid.rs:1426-1436 | from then on no save and no prune succeeds or changes anything |
| `ShardedHistory.StepNumbers` | src/hybrid.rs:1083-1092 | a step adds no number up to the highest, lowers the highest only as a prune that keeps none while CURRENT does not name it, and rewrites nothing |
| `ShardedHistory.NeverReused` | src/hybrid.rs:1083-1092 | over any history without such a prune a number is used once |
| `ShardedHistory.PruneLowersHighest` | src/hybrid.rs:1608-1622 | a completed prune lowers the highest number exactly when it keeps none and CURRENT does not name it |
| `ShardedHistory.ReuseNumber` | src/hybrid.rs:1590-1625 | a failed save, a prune that keeps none and another save give one number to two snapshots |
| `Bytes.LpStringRoundTrip` | src/fileguard.rs:217-234 | a length-prefixed string is read back with exactly the bytes after it |
| `Bytes.LpStringExact` | src/fileguard.rs:217-228 | whatever is accepted as such a string is what the writer writes for it |
| `Bytes.LittleEndianAt` | src/fileguard.rs:231-234 | byte i of an integer is its i-th digit to base 256, least significant first |
| `Utf8.ValidMeans` | src/fileguard.rs:226-228 | bytes are accepted as text exactly when they encode some sequence of Unicode scalar values, by section 3 of RFC 3629 |
| `Utf8.BlankMeans` | src/record.rs:14-20 | a text counts as blank exactly when all its code points are white space |
| `Bytes.OptTextRoundTrip` | src/record_store.rs:526-539 | optional strings are read back |
| `Bytes.OptU64RoundTrip` | src/record_store.rs:534-539 | optional numbers are read back |
| `RecordCodec.RecordRoundTrip` | src/record_store.rs:208-319 | every valid record within the limits is read back field by field, leaving the bytes after it |
| `RecordCodec.RecordExact` | src/record_store.rs:331-483 | an accepted record is valid, within the limits, and re-encodes to the same bytes |
| `RecordCodec.RecordLength` | src/record_store.rs:331-360 | an encoded record has at least the 54 bytes the count guard assumes |
| `RecordStore.DecodeEncode` | src/record_store.rs:208-483 | decoding an encoded store gives the store back, for every valid store within the limits |
| `RecordStore.DecodesIff` | src/record_store.rs:331-374 | an encoded store is accepted exactly when its bytes, its records and its payloads keep within the three limits, and then to itself |
| `RecordStore.EncodeDecode` | src/record_store.rs:208-483 | re-encoding what a file decodes to gives the file exactly when its ids ascend strictly |
| `RecordStore.EncodedInjective` | src/record_store.rs:208-319 | different stores have different encodings |
| `RecordStore.HeaderBytes` | src/record_store.rs:208-212 | the first sixteen bytes written out |
| `RecordStore.HeaderAccepted` | src/record_store.rs:331-358 | a header is accepted exactly within the file and record limits, and when the bytes after it can hold the declared count at 54 bytes each |
| `RecordStore.Decode` | src/record_store.rs:331-483 | the guarded reading loop computes the decoding function |
| `RecordStore.RecordStore.Encode` | src/record_store.rs:208-319 | the appending loop computes the encoding function |
| `RecordStore.RecordStore.PutRecord` | src/record_store.rs:141-152 | refuses exactly a generation that is not newer; otherwise changes exactly this id and returns the previous record |
| `RecordStore.RecordStore.TombstoneRecord` | src/record_store.rs:156-162 | needs a stored record and a newer generation; changes exactly its status and generation |
| `RecordStore.RecordStore.PurgePurgeableAt` | src/record_store.rs:166-184 | removes exactly the inactive records past their retention floor and counts them |
| `Records.PutMeaning` | src/record_store.rs:141-152 | a put keeps ids in order, stores the record and changes no other lookup |
| `Records.LessMeans` | src/record_store.rs:34-36 | the id order: the first differing byte decides, and a proper prefix comes first |
| `Records.LookupMeans` | src/record_store.rs:100-103 | a lookup finds the one stored record with that id |
| `Records.LifecycleWritten` | src/record.rs:348-413 | every field of the record each lifecycle operation makes, and every refusal |
| `Records.PurgeableMeans` | src/record.rs:265-269 | purgeable are exactly the tombstoned and superseded records past their retention floor |
| `Records.AdmitsRecordMeans` | src/record_store.rs:77-135 | a filter admits exactly the active, not yet expired records of the tenant, workspace and agent it fixes that are no more sensitive than its clearance, level by level |
| `Records.LifecycleStep` | src/record.rs:348-413 | tombstone, supersede and upsert keep identity and validity, move the generation strictly forward, are accepted by the store and cannot be replayed; inactive records are hidden from every filter |
| `Traversal.RelatedIds` | src/record_store.rs:191-205 | the edges are exactly an admitted record's own relations to admitted targets |
| `Traversal.RelatedInOrder` | src/record_store.rs:185-205 | each as often as it is recorded, in the record's own order |
| `Traversal.LayerIsDistance` | src/hybrid.rs:862-939 | a key is in layer h exactly when a path of h admitted edges through indexed keys joins it to a direct hit and none shorter does |
| `Traversal.RelatedReach` | src/hybrid.rs:862-939 | no row is more than two hops out, nor more than asked for, and with budget left nothing within that many hops is missing |
| `Traversal.ResolveLast` | src/hybrid.rs:862-939 | where several entries carry one key, the last of them is the one returned |
| `Traversal.FirstScoreIs` | src/hybrid.rs:862-939 | a row inherits the score of the first row with its parent's key |
| `Traversal.ExpandRelated` | src/hybrid.rs:862-939 | at most the budget of rows, with pairwise distinct keys none of which is a direct hit, each at its breadth-first distance of at most two, with its parent's edge and score; all such rows when the budget is not used up, and all one-hop rows before any two-hop row |
| `Traversal.ExpandLayer` | src/hybrid.rs:906-935 | one hop adds rows of the next layer only, and all of it when the budget is not reached |
| `Traversal.ExpandParent` | src/hybrid.rs:913-933 | one parent's admitted edges are all processed, in its record's order |
| `Traversal.VisitKeeps` | src/hybrid.rs:914-932 | handling one edge keeps the expansion invariant, marking a target seen even when it cannot be returned |
| `Ranking.TopNested` | src/sketch.rs:913-948 | larger shortlists contain smaller ones |
| `Ranking.HitsAreKept` | src/sketch.rs:950-1026 | what a shortlist and rerank finds of the exact answer is exactly the part of the answer the shortlist kept |
| `Ranking.LargerSetDominates` | src/sketch.rs:1155-1183 | the best of a larger candidate set are, place by place, at least as good |
| `Ranking.ListingUnique` | src/sketch.rs:935-948 | a candidate set has one ranking, whatever order its members arrive in |
| `Ranking.TopSize` | src/sketch.rs:924-934 | the k best of a set are min(k, n) many |
| `Ranking.TopSeparates` | src/sketch.rs:924-933 | whatever is kept has a smaller key than whatever is not, or the same key and a smaller id |
| `Ranking.SelectSmallest` | src/sketch.rs:927-934 | selection and truncation keep exactly the m best |
| `Ranking.RankTop` | src/sketch.rs:936-948 | sorting and truncation list exactly the k best, best first |
| `Conformal.ConformalQuantile` | src/conformal.rs:70-84 | with the arithmetic written out: at least (n + 1)(1 - alpha) scores are at or below the quantile and fewer are strictly below it, and there is none exactly when that number exceeds n |
| `Conformal.QuantileRankReached` | src/conformal.rs:70-84 | at least the corrected rank of scores are at or below the quantile |
| `Conformal.LeaveOneOutCoverage` | src/conformal.rs:58-84 | of any n + 1 scores at least ceil((n + 1)(1 - alpha)) lie within the quantile of the other n |
| `Conformal.CoverageShare` | src/conformal.rs:58-84 | and so at least the share 1 - alpha of the scores is covered by the quantile of the others |
| `Conformal.CoveredMeans` | src/conformal.rs:58-84 | a score is covered exactly when no quantile of the others is below it |
| `Conformal.RcpsSelect` | src/conformal.rs:46-56 | the backward scan finds the start of the longest controlling tail, and none exactly when the last candidate does not control |
| `Conformal.SelectsSmallest` | src/conformal.rs:33-56 | on a non-increasing family the controlling candidates are exactly the selected one and the larger ones |
| `PrecisionTier.RiskShrinks` | src/sketch.rs:963-1030 | the empirical risk never rises along a nested family |
| `PrecisionTier.RiskOfAll` | src/sketch.rs:963-1030 | it is zero once the candidates cover every exact answer |
| `PrecisionTier.LossMeans` | src/sketch.rs:1013-1030 | the loss of a query is the share of its exact answer that was missed |
| `PrecisionTier.CosineScore` | src/sketch.rs:935-948 | the score of the exact tier is the cosine: times both norms it is the dot product of the raw vectors |
| `PrecisionTier.RadiusHoldsTop` | src/sketch.rs:1141-1183 | everything within the m-th smallest distance includes the m best |
| `PrecisionTier.SizeGrid` | src/sketch.rs:1003-1011 | the doubling grid ascends strictly and ends at the corpus size |
| `PrecisionTier.SizeGridAt` | src/sketch.rs:1003-1011 | point i of the grid is the first one times two to the i, but for the last, which is the corpus |
| `PrecisionTier.LambdaGrid` | src/sketch.rs:1085-1095 | the lambda grid starts at the given value, ascends strictly and ends past the sketch width |
| `PrecisionTier.LambdaGridAt` | src/sketch.rs:1085-1095 | point i of the grid from zero is what the loop holds after i rounds |
| `PrecisionTier.LambdaAfterIs` | src/sketch.rs:1085-1095 | which is two to the i, cut at 2^32 - 1 |
| `PrecisionTier.GridEndsIff` | src/sketch.rs:1085-1095 | the saturating loop ever passes the sketch width exactly when the width is below 2^32 - 1 |
| `PrecisionTier.PipelineLoss` | src/sketch.rs:1013-1030 | the loss measured on the answers is the loss of the shortlist |
| `PrecisionTier.AdaptiveLoss` | src/sketch.rs:1097-1120 | the loss the adaptive calibration counts is the recall loss of its answers |
| `PrecisionTier.MoreCandidatesBetter` | src/sketch.rs:935-948 | answers from more candidates are at least as long and place by place at least as good |
| `PrecisionTier.AdaptiveNeverWorse` | src/sketch.rs:1151-1183 | at every lambda the adaptive answer is place by place at least the fixed size-k one, and past the sketch width it is the exact ranking |
| `PrecisionTier.AdaptiveHoldsShortlist` | src/sketch.rs:1155-1183 | at every lambda, zero included, the adaptive candidates include the fixed size-k shortlist |
| `PrecisionTier.RankingUnique` | src/sketch.rs:942-948 | the ranked answer over a candidate set is one definite list |
| `SketchStore.SketchIndex.Insert` | src/sketch.rs:728-760 | stores sketch of the raw vector, normalised vector and payload, or refuses the dimension and stores nothing |
| `SketchStore.SketchIndex.NearestIdsWithSketch` | src/sketch.rs:913-948 | the k best by score of a shortlist of the clamped size, written out: whatever is shortlisted differs from the query sketch in fewer bits than whatever is not, or in as many with a smaller id; each hit has its own score; nothing on any failed guard |
| `SketchStore.SketchIndex.NearestIds` | src/sketch.rs:906-911 | the same with the query's own sketch |
| `SketchStore.EqualSketchFirst` | src/sketch.rs:913-948 | an entry with the query's own sketch is shortlisted before any entry with another one |
| `Vectors.HammingMeans` | src/sketch.rs:126-128 | the Hamming distance is the number of positions at which two sketches differ |
| `Vectors.HammingMetric` | src/sketch.rs:126-128 | it is zero exactly between equal sketches, symmetric and subject to the triangle inequality |
| `Vectors.SketchBit` | src/sketch.rs:81-98 | a sketch bit says on which side of its hyperplane a vector is; on the plane is the positive side |
| `SketchStore.SketchIndex.ExactTopIds` | src/sketch.rs:954-961 | the k best by score of the whole corpus |
| `SketchStore.SketchIndex.Rerank` | src/sketch.rs:1212-1230 | the k best by score of the listed ids in range, each with its own score; an id listed twice is ranked twice |
| `SketchStore.SketchIndex.HammingRank` | src/sketch.rs:1235-1255 | the m closest by sketch of the listed ids in range |
| `SketchStore.SketchIndex.KthSketchDistance` | src/sketch.rs:1141-1149 | the k-th smallest distance, k clamped to the corpus; zero for an empty store or k = 0 |
| `SketchStore.SketchIndex.WithinRadius` | src/sketch.rs:1160-1177 | exactly the ids within the query's own radius, ties included |
| `SketchStore.SketchIndex.NearestAdaptive` | src/sketch.rs:1155-1183 | the k best by score within that radius |
| `SketchStore.SketchIndex.ShortlistRisk` | src/sketch.rs:1013-1030 | running the pipeline on every query measures exactly the mean loss of the shortlists |
| `SketchStore.SketchIndex.CertifyShortlist` | src/sketch.rs:983-1043 | certifies the smallest grid size that controls the risk; every larger size, on the grid or off it, controls it too, and no smaller grid size does; nothing certifies exactly without valid queries, items or k, or when the slack exceeds alpha |
| `SketchStore.SketchIndex.CalibrateAdaptiveRadius` | src/sketch.rs:1063-1131 | the same for the adaptive radius |
| `SketchStore.SizeRiskShrinks` | src/sketch.rs:963-982 | a larger shortlist never has more risk |
| `SketchStore.RadiusRiskShrinks` | src/sketch.rs:1045-1062 | a larger radius never has more risk |
| `Vectors.NormalizeTwice` | src/sketch.rs:144-152 | normalising a normalised vector changes nothing |
| `Vectors.NormalizedMeans` | src/sketch.rs:144-152 | a vector of positive norm is scaled to norm one, a zero vector is left alone |
| `Vectors.SketchOfNormalized` | src/sketch.rs:733-740 | normalising keeps every sign of a sketch |
| `Quantize.CodeError` | src/sketch.rs:347-358 | every int8 code fits without clamping and decodes to within half a step |
| `Quantize.LargestIsExact` | src/sketch.rs:347-358 | the largest component gets code 127 or -127 and decodes exactly |
| `Quantize.RoundMeans` | src/sketch.rs:347-358 | rounding is to the nearest integer, a half away from zero |
| `Quantize.ZeroCodes` | src/sketch.rs:347-358 | a zero vector has zero codes |
| `Quantize.Wrap32Means` | src/sketch.rs:418-425 | the accumulator holds the representative of the sum in the range of an i32 |
| `Quantize.Idot` | src/sketch.rs:418-425 | the loop computes the integer dot over the shared prefix modulo 2^32 |
| `Quantize.IdotExact` | src/sketch.rs:415-425 | up to dimension 133144 it is the exact integer dot |
| `Quantize.BeyondSafeDim` | src/sketch.rs:415-425 | one dimension more and it can wrap around |
| `Quantize.NearestLevel` | src/sketch.rs:394-405 | the 4-bit code is the first nearest level |
| `Quantize.Pack` | src/sketch.rs:391-406 | packed codes are all read back, low nibble first |
| `Kernel.MemoryKernel.RecallSet` | src/kernel.rs:298-338 | returns the best memories inside the calibrated radius, written out: none with 1 - score above the radius by more than 1e-6, guaranteed exactly when a radius exists and fewer than 16 or fewer than 4 top-k memories lie inside; the radius is the quantile of the calibration scores; falls back to the first top-k otherwise |
| `Kernel.MemoryKernel.SemanticScored` | src/kernel.rs:214-228 | returns a prefix of the exact full ranking |
| `Kernel.GuaranteedIsComplete` | src/kernel.rs:298-338 | a guaranteed recall is exactly every stored memory within the radius, ranked |
| `Kernel.CompleteIffPoolHolds` | src/kernel.rs:318-326 | a recall is complete exactly when no more than a pool lies within the radius |
| `Kernel.TruncationTest` | src/kernel.rs:322-326 | the truncation test is true exactly when at least a pool lies within the radius |
| `Kernel.RecalledWritten` | src/kernel.rs:298-338 | what a recall returns, with its pool size and tolerance written out |
| `Kernel.CoveredTargetReturned` | src/kernel.rs:117-133 | a held-out target covered by the quantile of the others is returned by a guaranteed recall |
| `Kernel.MemoryKernel.Feedback` | src/kernel.rs:349-363 | records the in-range labels of the last recall and never moves the calibration scores |
| `Kernel.LabelsMean` | src/kernel.rs:349-363 | one label for each in-range index, in order, on the memory and score recalled there |
| `Kernel.MemoryKernel.RecordRecallGroundTruth` | src/kernel.rs:371-384 | refuses scores outside [-1, 1]; a relevant target adds exactly its nonconformity |
| `Kernel.LabelsDoNotCalibrate` | src/feedback.rs:137-147 | no sequence of candidate labels changes the calibration scores |
| `Kernel.NonconformityMeans` | src/feedback.rs:137-147 | the calibration scores are 1 - score of the relevant ground-truth entries, in log order |
| `HybridMemories.HybridMemory.Insert` | src/hybrid.rs:296-306 | inserts into both layers or neither; both hold the same insertions under the same ids and payloads |
| `HybridMemories.HybridMemory.Query` | src/hybrid.rs:325-350 | reranks exactly the candidates of the chosen strategy and returns the k best with their scores |
| `HybridMemories.HybridMemory.SpatialHits` | src/hybrid.rs:328-336 | the spatial strategy reranks the nearest neighbours of the projected query |
| `HybridMemories.HybridMemory.PreciseHits` | src/hybrid.rs:337 | the precise strategy reranks the Hamming shortlist |
| `HybridMemories.HybridMemory.CascadeHits` | src/hybrid.rs:338-348 | the cascade prunes four shortlists of neighbours by sketch and reranks one |
| `HybridMemories.HybridMemory.CalibrateShortlist` | src/hybrid.rs:264-274 | a certified size becomes the default; without one the default stays |
| `HybridMemories.HybridMemory.SetShortlist` | src/hybrid.rs:253-256 | a shortlist of zero becomes one |
| `HybridMemories.GatheredSize` | src/hybrid.rs:325-350 | each strategy hands a full shortlist of stored items to the rerank |
| `HybridMemories.StrategiesAgree` | src/hybrid.rs:325-350 | when the shortlist covers the store all strategies return the identical list, the exact ranking |
| `HybridMemories.NeverAboveExact` | src/hybrid.rs:325-350 | otherwise each answer has full length and place by place no score above the exact one |
| `ShardedHybrids.ShardedHybrid.InsertRaw` | src/hybrid.rs:554-582 | adds one entry to a region, created on first use; a rejected vector changes nothing and leaves no empty region |
| `ShardedHybrids.ShardedHybrid.RememberWithPayload` | src/hybrid.rs:689-710 | stores record and entry together or neither; a stale generation is refused before anything is indexed |
| `ShardedHybrids.ShardedHybrid.Relate` | src/hybrid.rs:815-849 | needs two stored records, a newer generation and two different ids; adds exactly one edge |
| `ShardedHybrids.ShardedHybrid.RecallFiltered` | src/hybrid.rs:780-810 | the k best admitted of the overfetched precise recall; every hit whose key has a record is active, not expired, of the scope the filter fixes and within its clearance; k of them, or all the filter admits, wherever the overfetch makes up for the hidden ones |
| `ShardedHybrids.FirstAdmitted` | src/hybrid.rs:794-809 | the early-exit loop returns exactly those |
| `ShardedHybrids.HitsShown` | src/hybrid.rs:780-810 | what a filter hides never comes back from a recall, with the conditions on the record written out |
| `FilteredRecalls.AdmitsMeans` | src/record_store.rs:117-139 | an entry is admitted exactly when its record, if it has one, meets them |
| `ShardedHybrids.ShardedHybrid.RecallRelated` | src/hybrid.rs:862-939 | filtered recall followed by the bounded expansion over the region's own keys |
| `ShardedHybrids.ShardedHybrid.CompactFiltered` | src/hybrid.rs:984-1035 | the region becomes exactly its admitted rows in their old order, or disappears; the count is what was dropped; records and other regions stay |
| `ShardedHybrids.Rebuild` | src/hybrid.rs:1013-1033 | re-inserting stable rows reproduces them in the new sketch index, and the new octree indexes the stored vectors |
| `SpatialCompaction.SamePlaceIff` | src/hybrid.rs:1013-1033 | an entry keeps its place in the rebuilt octree exactly when its vector is zero, of norm one or projected to the origin |
| `SpatialCompaction.GatheredChanges` | src/hybrid.rs:325-336 | two vectors for which the spatial strategy gathers another candidate after a compaction that keeps both |
| `ShardedHybrids.ShardedHybrid.PurgePurgeableAt` | src/hybrid.rs:944-946 | removes exactly the purgeable records and leaves every region alone |
| `ShardedHybrids.CompactionRecall` | src/hybrid.rs:773-779 | a recall that admits nothing the compaction dropped, at whatever time and under whatever filter, is never shorter and never lower at any place afterwards if it admits all that was kept or the fetch suffices, and is identical when it would have seen the whole region |
| `ShardedHybrids.RecallIsFull` | src/hybrid.rs:753-757 | an answer has k entries, or all the filter admits, wherever the overfetch makes up for the hidden ones |
| `RecallLimits.FullIff` | src/hybrid.rs:753-757 | for every k, region size, number of hidden entries and shortlist, no answer is ever short exactly when the region has at most 3k + 8 entries, or at most 2k + 8 of them are hidden, or all are |
| `RecallLimits.NeverWorseIff` | src/hybrid.rs:780-810 | for every k, region size n and shortlist, a rebuild never makes a later recall worse exactly when the shortlist is at least n or at most 3k + 8 |
| `FilteredRecalls.LaterRecallLost` | src/hybrid.rs:960-1000 | otherwise a compaction can leave a later recall under its own filter without its one answer |
| `FilteredRecalls.NarrowerAdmitsNoMore` | src/hybrid.rs:773-779 | every later and every narrower recall admits only what a compaction keeps |
| `Records.NarrowerAdmitsLess` | src/record_store.rs:122-139 | what a filter hides it hides at every later time and from every narrower filter |
| `ShardedHybrids.PurgeKeepsRecall` | src/hybrid.rs:941-964 | after a compaction a purge, at any time, changes no recall of the region under any filter if no record of an entry has become purgeable since, and none has while the records are unchanged |
| `FilteredRecalls.PurgeExposes` | src/record_store.rs:122-184 | what a purge newly admits is exactly the ids of purged records |
| `FilteredRecalls.PurgeSparesRegion` | src/record_store.rs:122-184 | a purge leaves what a filter admits in a region alone exactly when it purges no record of an entry there |
| `FilteredRecalls.PurgeFirstResurrects` | src/record_store.rs:122-184 | purging without compacting brings a tombstoned entry back |
| `Compaction.RankingCommutes` | src/hybrid.rs:984-1035 | the full ranking of a rebuilt region is the admitted subsequence of the old one, tie order included |
| `Compaction.ShortlistKept` | src/hybrid.rs:984-1035 | every admitted entry of an old Hamming shortlist is in the rebuilt region's shortlist |
| `Compaction.RecallNeverWorse` | src/hybrid.rs:780-810 | the same comparison as above, on keys |
| `Compaction.RecallUnchanged` | src/hybrid.rs:780-810 | entries, scores and order are unchanged when the fetch covers the region, whatever the later recall admits of what was kept |
| `Compaction.F32Stable` | src/hybrid.rs:957-961 | re-inserting a stored F32 row stores the same vector and the same sketch |
| `ParallelPca.ChunksTile` | src/lib.rs:252-258 | the chunks cover all rows in order without gap, overlap or empty chunk, min(64, n) of them |
| `ParallelPca.ChunksBalanced` | src/lib.rs:252-258 | every chunk is non-empty and at most one row larger than the average |
| `ParallelPca.RangeAt` | src/lib.rs:252-258 | chunk c of k spans the rows from c n / k to (c + 1) n / k |
| `ParallelPca.ComputePartial` | src/lib.rs:285-309 | a chunk's partial is the fixed left-to-right sum of its rows |
| `ParallelPca.MatVecMul` | src/lib.rs:217-240 | the sequential product is the partial of the whole range, and every entry is a sum of products written out |
| `ParallelPca.RowProduct` | src/lib.rs:217-240 | entry i is the last of the running sums of data[i d + j] v[j] over j, from zero |
| `ParallelPca.ColumnProduct` | src/lib.rs:217-240 | for the transpose, entry j is the last of the running sums of data[i d + j] v[i] over i |
| `ParallelPca.RunKeepsInv` | src/lib.rs:280-313 | under any interleaving every claimed chunk is with exactly one thread or written exactly once |
| `ParallelPca.EveryScheduleFillsSlots` | src/lib.rs:266-313 | for any thread count and interleaving that finishes, each chunk is computed exactly once and every slot holds its own partial |
| `ParallelPca.StepsCountDown` | src/lib.rs:280-313 | every step of a running thread uses up exactly one of the threads + 2 chunks units of work |
| `ParallelPca.StepsAtStart` | src/lib.rs:280-313 | there are threads + 2 chunks units at the start |
| `ParallelPca.WholeRun` | src/lib.rs:280-313 | a run in which only running threads take turns has at most threads + 2 chunks steps, and every thread is done exactly after that many |
| `ParallelPca.RunsToTheEnd` | src/lib.rs:280-313 | and every such run can be carried on to its end |
| `ParallelPca.NoStepsLeftMeansDone` | src/lib.rs:280-313 | no work is left exactly when every thread is done |
| `ParallelPca.MatVecMulParallel` | src/lib.rs:266-336 | every finishing schedule returns the same value, the fixed fold in chunk order |
| `ParallelPca.ParallelWritten` | src/lib.rs:266-336 | its entries written out: the running sums of the sequential product for rows, and for the transpose the running sum of the chunks, each itself a running sum over its rows |
| `ParallelPca.Combine` | src/lib.rs:315-335 | the slots are added, or stitched, in chunk order |
| `ParallelPca.RowsMatchSequential` | src/lib.rs:260-265 | the row case equals the sequential product exactly |
| `ParallelPca.ColumnsMatchUpToAssociation` | src/lib.rs:260-265 | the transposed case equals it when addition is associative |
| `ParallelPca.AssociationMatters` | src/lib.rs:260-265 | and can differ, for two rows already, when it is not |
| `Framing.Reader.ReadInputLine` | octacore/src/mcp.rs:73-102 | the result depends on the next physical line only, however the source is chunked, and the reader is left at the start of the following line; too long exactly when the line with its line feed exceeds the limit |
| `Framing.Reader.ReadUntilNewline` | octacore/src/mcp.rs:74-78 | takes the line, or the limit, whichever is shorter |
| `Framing.Reader.DiscardUntilNewline` | octacore/src/mcp.rs:54-71 | skips through the next line feed or to the end |
| `Framing.Reader.ReadAll` | octacore/src/mcp.rs:853-968 | one result per physical line, in order, then the end of the stream |
| `Framing.FramesOfLines` | octacore/src/mcp.rs:54-102 | whole lines written in sequence are read back one by one, so a bad line disturbs no neighbour |
| `Framing.FramedMeans` | octacore/src/mcp.rs:73-102 | a line of more than 1048576 bytes is too long, and any other is read as its text without one line feed and then one carriage return |
| `Framing.LinesJoin` | octacore/src/mcp.rs:54-102 | framing loses and invents no byte |
| `Framing.LineShape` | octacore/src/mcp.rs:54-102 | a physical line has no line feed but its last byte, and lacks that only at the end of the stream |
| `Framing.RequestRoundTrip` | octacore/src/mcp.rs:73-102 | a valid text without line breaks within the limit is read back under either line ending |

## Left out

- Rounding, infinities and NaN: reals are used, so `is_finite` checks and total orders on floats do not appear, and "bit-exact" claims are claims about real values.
- `u32` wrap-around of node and item links (the engine stops being usable near 2^32 items).
- Square roots: vector norms are any function that behaves like the Euclidean norm, and the Hoeffding slack is a function of the number of queries, non-negative or not.
- The probabilistic reading of the certificates; what is proved is the deterministic selection, counting and coverage they rest on.
- PCA convergence, clustered routing, k-means, product-quantization training, temperature fitting and calibration error.
- LZ4, the FRAC and SKCH byte formats and the vector file layouts; RECS is modelled in full.
- SHA-256 itself, symbolic-link checks, size limits on manifest and pointer files beyond the pointer's own, durability of unsynced writes, collisions of temporary names, and several writers at once.
- Pruning of the old per-region layout, which runs the unsharded prune in each region of a legacy root.
- The directory of a region inside a snapshot that is being pruned goes in one step, and a staging directory in at most two.
- Seeds, sketch widths and product-quantization fields of the sharded manifest.
- Global recall across regions: its merge of per-region answers has no promised tie order.
- Sketch-only recall, whole-corpus score lists and the mapping of ids to payloads in the public sketch queries: they follow from the ranked ids.
- The kernel's lazy rebuild of its semantic tier after a reload, autosave and context formatting.
- JSON, HTTP, the command line, viewer export, GPU and SIMD paths.
- Read errors inside the framing loop: the source passes them up and the session ends.
- `Octree.FractalMemory3D.Insert`: takes the projection matrix as given; the seeded random projection is not modelled.
- `Generations.NamedOpens`: reading a directory is one step; a reader racing with a prune is not modelled.
- `RecordStore.RecordStore.PutRecord`: the ordered map is a sequence in ascending id order, and records are values, so a mutation through `get_mut` is a replacement in the store.
- `RecordCodec.RecordRoundTrip`: a record is appended to the buffer in one piece and its nested lists are read by recursion; the outer loops over records are loops.
- `SketchStore.SketchIndex.Insert`: rows are sequences of rows and sketches are bit lists; the flat arrays, word packing and the payload arena of the sketch index are not modelled.
- `SketchStore.SketchIndex.CertifyShortlist`: the confidence level enters only through the slack it gives for the number of valid queries.
- `ShardedHybrids.ShardedHybrid.InsertRaw`: a new region enters the map once its first entry is in, where the source adds it first and takes it back out on failure.
- `ShardedHybrids.ShardedHybrid.CompactFiltered`: each surviving row goes to octree then sketch, where the source inserts them the other way round; neither can fail.
- `ParallelPca.MatVecMulParallel`: a thread's local computation and the write of its slot are one step; claims are separate steps.
- `Traversal.ExpandRelated`: which rows fill an exhausted budget is left open, since the frontier starts from a hash set.
- `Quantize.Pack`: the scale stored with 4-bit codes needs a square root and is left out.

# ltsearch protocols, index format and ranking: a Dafny model

This project models the parts of ltsearch whose correctness spans functions, files or processes, and proves what
they promise. One module stands for one component:

- **Publishing.** `ObjectStore` is the bucket with its create-only uploads and compare-and-swap, the conditional
  writes of sections 13.1.1 and 13.1.2 of RFC 9110. `Publisher` and `VersionHistory` run any number of publishers,
  rollbacks and queue workers over it, one object operation a step, with crashes anywhere. `StaticActivation` does the
  same for static release activation and the reader's sync together; `UploadRelease` and `ArtifactSync` are one
  uninterrupted upload and one uninterrupted sync. `PublishProgress`, `ActivationProgress` and `SyncProgress` say what
  each process gets done in any state of those protocols when nobody disturbs it.
- **Local installs.** `ModelAssets` is the cold-start provisioning of model files, stopped at any point; `ForeignMarker`
  looks at bundles that list the marker file itself, and `ProvisionSuccess` says when a run succeeds.
- **Quantisation.** `LinearAlgebra`, `HaarRotation`, `QrUniqueness`, `Codebook`, `BitPacking`, `TurboProd` and
  `LegacyCodec` are the TurboQuant arithmetic over exact reals: in-place Householder QR, threshold counting, packed
  lookup scoring and its error.
- **Ranking.** `TopK`, `RetrievalCommon`, `FetchedPrefix`, `CutTies`, `KeywordSearch`, `Ranker` and `ContextBuilder`,
  each a fast path proved against a plain specification; `Orders` holds the sorting facts they share.
- **Release format.** `Bytes`, `TurboHeader`, `ReleaseRecords`, `CodecAssets`, `CodecConfig`, `ReleaseManifest`,
  `StaticRelease`, `MmapIndex`, `ReleaseReadBack` and `ReleaseVerify`: the byte-level writer, loader and verifier, and
  the streams behind every digest; `ByteLayouts` gives the offset of every field, `ReleaseFacts` the file names and the
  assets a loader accepts. `VerifiedDirectory` joins the verifier to the activation protocol.
- **Snapshot and cache.** `SnapshotReplay` replays the write-ahead log; `QueryCache` is the shared handler cache under
  concurrent requests and moving pointers, `QueryProgress` when a request is answered.

Code that updates state is written as methods over classes, arrays, sequences and maps, each proved against a
specification; protocols are total step functions folded over event lists, and their theorems hold for every list.

## What the proofs found

- `static_activate.rs` says that a different manifest under one content-addressed id is impossible. It is not: the id
  leaves out `source`, so the same content built from another dataset path has the same id and another manifest
  (`ReleaseVerify.SameIdOtherSource`), and `UploadRelease.UploadAll` rejects it.
- Record lengths are cut to 32 bits when written, so text, title, doc_id and metadata read back exactly when they are
  shorter than 2^32 bytes (`ReleaseReadBack.ReleaseReadsBack`).
- A query answer's pair of pointers need not have been the active pair at any moment. It always was exactly in the
  histories in which every release active while a version is away has also stood beside it by the time it is back
  (`QueryCache.PairsExistExactly`): without a rollback, for one, but not if both pointers move on and back.
- The doubling fetch loop may return other ids than the complete ranking when equal scores are on both sides of the cut:
  with one hit per doc_id exactly then (`CutTies.DistinctHitsExactly`), with repeated hits exactly when a fetch can fill
  up before a tied document's hits (`CutTies.LoopIsCompleteExactly`).
- A snapshot depends on the order of its segments exactly when, for some doc_id, the last records with its newest
  timestamp in two segments disagree (`SnapshotReplay.SegmentOrderMattersExactly`); ties inside one segment, as a batch
  that writes a doc_id twice makes, do not matter (`SnapshotReplay.BatchTie`).
- The head names only complete versions exactly as long as no artifact directory has an uploadable file under the
  pointer key or passing for a version's manifest (`Publisher.SafeLayoutsExactly`); the publisher does not check for it.
- The size-only warm check is sound for a bundle that does not list `manifest.json` exactly if no two entries of one
  name and size differ in hash, or it can never be installed and ready (`ModelAssets.AlwaysSoundExactly`). It may be
  unsound for one that does (`ModelAssets.MarkerEntryIsUnsound`), and `ForeignMarker.SoundUnlessTakenOver` says exactly
  when; the provisioning code accepts both.
- The comment on `score_breakdown` speaks of d/4 index bytes; the code, followed here, takes the ceiling.

## Model

| member | source | states |
|---|---|---|
| `HaarRotation.ReflectUndoes` | src/index/rotation.rs:278-306 | every reflector the QR builds is its own inverse |
| `HaarRotation.ReflectKeepsDot` | src/index/rotation.rs:278-306 | and keeps every inner product |
| `HaarRotation.Apply` | src/index/rotation.rs:308-313 | applying in place overwrites one column from the reflector's first row down with H times it and nothing else |
| `HaarRotation.ZeroBelowFirst` | src/index/rotation.rs:287-306 | the chosen reflector sends the column to a multiple of the first basis vector, written over the column; a zero column gets the identity |
| `HaarRotation.Eliminate` | src/index/rotation.rs:236-242 | one elimination step multiplies every column by the same valid reflector and makes one more column upper triangular |
| `HaarRotation.HouseholderQr` | src/index/rotation.rs:234-258 | for every d and every d by d real matrix: Q·R is the input, Q has orthonormal columns, R is upper triangular |
| `HaarRotation.AccumulateQ` | src/index/rotation.rs:245-257 | accumulating from the right over the trailing columns only yields the product of all reflectors |
| `HaarRotation.FlipKeepsProduct` | src/index/rotation.rs:260-276 | flipping a column of Q with the row of R leaves Q·R unchanged |
| `HaarRotation.FlipKeepsOrthonormal` | src/index/rotation.rs:260-276 | and leaves Q orthonormal |
| `HaarRotation.MakeRDiagonalPositive` | src/index/rotation.rs:264-276 | flips exactly the columns of Q and rows of R with a negative diagonal, a zero one staying as it is; the diagonal ends non-negative |
| `HaarRotation.Rotation.Generate` | src/index/rotation.rs:104-127 | from any matrix: an orthonormal rotation whose product with the R left behind is that matrix, R upper triangular with a non-negative diagonal |
| `HaarRotation.Rotation.Rotate` | src/index/rotation.rs:130-139 | writes the matrix-vector product into the output buffer |
| `HaarRotation.Rotation.InverseRotate` | src/index/rotation.rs:141-154 | adding whole weighted rows computes the transpose product |
| `HaarRotation.Rotation.RotationIsIsometry` | src/index/rotation.rs:130-154 | rotation keeps inner products, hence norms, and the inverse rotation undoes it |
| `QrUniqueness.UniqueQr` | src/index/rotation.rs:260-263 | with a positive diagonal the factorisation is the only one: two of the same matrix have equal Q and equal R |
| `Codebook.ThresholdIsLeast` | src/index/codebook.rs:266-277 | rounding the midpoint to nearest and stepping up if it fell below gives the least representable value at or above the midpoint |
| `Codebook.ThresholdActsAsMidpoint` | src/index/codebook.rs:222-229 | a representable value reaches the threshold exactly when it reaches the midpoint |
| `Codebook.ThresholdsAscend` | src/index/codebook.rs:162-175 | thresholds of strictly ascending centroids strictly ascend |
| `Codebook.EncodeIsNearest` | src/index/codebook.rs:222-235 | counting thresholds finds the nearest centroid of every representable value, the upper one on a tie |
| `Codebook.DecodeUndoesEncode` | src/index/codebook.rs:230-244 | every centroid encodes to its own index |
| `BitPacking.ReadAfterPutIdx` | src/index/turbo_codec.rs:218-230 | writing a two-bit slot of a cleared slot reads back, and changes no other slot |
| `BitPacking.ReadAfterPutSign` | src/index/turbo_codec.rs:232-240 | the same for a sign bit |
| `BitPacking.WriteIdx` | src/index/turbo_codec.rs:218-223 | the in-place write sets exactly its slot |
| `BitPacking.WriteSignBit` | src/index/turbo_codec.rs:232-236 | the in-place write sets exactly its bit |
| `BitPacking.SlotsSpellByte` | src/index/turbo_codec.rs:218-230 | a byte is its four slots, the first of them the least significant two bits |
| `BitPacking.BitsSpellByte` | src/index/turbo_codec.rs:232-240 | and its eight sign bits, the first of them the least significant |
| `TurboProd.QuantizeInPlace` | src/index/turbo_prod.rs:219-225 | packs the nearest index of every rotated coordinate, padding slots zero, and leaves the residual in place |
| `TurboProd.EncodeSigns` | src/index/qjl.rs:133-143 | bit j is the sign of row j times the residual; padding bits are clear |
| `TurboProd.Encode` | src/index/turbo_prod.rs:192-242 | fails exactly on a length mismatch; otherwise the result is the code of the vector: norm, indices, signs of the projected residual, residual norm |
| `TurboProd.PrepareQuery` | src/index/turbo_prod.rs:247-264 | fails exactly on a length mismatch; otherwise the table, projection and scale of the rotated query |
| `TurboProd.LookUp` | src/index/turbo_prod.rs:396-402 | summing looked-up products over packed bytes is the inner product with the unpacked centroids, for every dimension |
| `TurboProd.SignedSum` | src/index/qjl.rs:260-279 | the byte-wise signed sum is the inner product with the unpacked plus and minus ones, for every sign count |
| `TurboProd.Score` | src/index/turbo_prod.rs:387-409 | the score is the norm times the sum over coordinates of query and unpacked centroid, plus gamma times scale times the inner product of the projected query and the unpacked signs |
| `TurboProd.ScoreError` | src/index/turbo_prod.rs:19-22 | score minus the true inner product is the norm times the difference of gamma times scale times the signed projections and the residual's true product |
| `TurboProd.QjlTermBound` | src/index/qjl.rs:255-279 | the sketch term is at most gamma times scale times the sum of the projections' magnitudes |
| `TurboProd.SketchOfResidual` | src/index/qjl.rs:255-279 | a query whose rotation is the code's own residual attains that bound with a positive sign |
| `TurboProd.ScoreIsLinear` | src/index/turbo_prod.rs:387-409 | each term of the score is linear in the query |
| `TurboProd.ScoreErrorBound` | src/index/turbo_prod.rs:19-22 | the error is at most norm times gamma times (scale times the sum of magnitudes plus the query's norm) |
| `TurboProd.ZeroScoresZero` | src/index/turbo_prod.rs:206-208 | a zero vector scores 0 against every query |
| `LegacyCodec.NearestCentroid` | src/index/turbo_codec.rs:194-212 | the first centroid at minimum distance |
| `LegacyCodec.PackIndices` | src/index/turbo_codec.rs:126-133 | packs every nearest index; each reads back; the residuals are what they leave |
| `LegacyCodec.PackSigns` | src/index/turbo_codec.rs:135-139 | packs every projected sign; each reads back |
| `LegacyCodec.EncodeVector` | src/index/turbo_codec.rs:119-184 | rejects exactly the tables of other dimensions, with the first mismatch; otherwise the code of the vector: indices, signs and residual norm of one consistent residual |
| `LegacyCodec.Score` | src/index/turbo_codec.rs:89-117 | scoring packed bytes equals the formula over what reads back |
| `LegacyCodec.ScoreError` | src/index/turbo_codec.rs:89-117 | score minus the true inner product is gamma times the signed sum less the residual's true product |
| `ObjectStore.Bucket.UploadFile` | src/adapters/s3_publish.rs:79-112 | create-only succeeds exactly when the key is absent and then only adds it |
| `ObjectStore.Bucket.Swap` | src/adapters/s3_publish.rs:152-179 | writes exactly when the stored tag is the expected one, or the key is absent if none is expected |
| `ObjectStore.SwapSucceedsIffUnchanged` | src/adapters/s3_publish.rs:152-179 | a swap guarded by the tag of what was read succeeds exactly when the object is still what was read |
| `Publisher.PublishVersion` | src/indexing/publisher.rs:108-205 | succeeds if and only if time and version are valid, the head well formed, expected and lower, the manifest the version's, and every key free; the store then holds files, manifest and head besides what it held; says which failures are conflicts, and a failure leaves the head as it was; it does what the protocol's process does alone |
| `Publisher.RollbackVersion` | src/indexing/publisher.rs:207-269 | succeeds exactly when the request is valid, the head is the expected one and the target's manifest is stored intact; it changes the head alone, or nothing |
| `PublishProgress.PublishSucceeds` | src/indexing/publisher.rs:108-205 | in any state of the protocol an undisturbed publish of a publishable request ends done, with files, manifest and head stored and nothing else changed |
| `PublishProgress.WorkerPublishes` | src/build_worker.rs:39-52 | a queue worker nobody disturbs publishes one above the head it finds |
| `PublishProgress.WorkerTakesNextVersion` | src/build_worker.rs:39-52 | it takes a job exactly if that is numbered one above a well-formed head and expects it |
| `PublishProgress.WorkerRetriesOnce` | src/build_worker.rs:108-142 | after a first conflict it starts over from the head as it is then, after a second it does not |
| `PublishProgress.RollbackSucceedsExactly` | src/indexing/publisher.rs:207-269 | in any state an undisturbed rollback ends done exactly if request, head and target manifest are in order; it swaps the head alone, or nothing |
| `Publisher.StepUploadCompletes` | src/indexing/publisher.rs:167-176 | manifest last: a version whose manifest was created has every listed file stored with the uploaded bytes |
| `Publisher.StepSwapKeepsInv` | src/indexing/publisher.rs:178-205 | the pointer moves only to a completely installed version |
| `Publisher.RunKeepsInv` | src/indexing/publisher.rs:108-269 | the invariant survives every interleaving of publishes, rollbacks and crashes |
| `Publisher.HeadNamesCompleteVersion` | src/indexing/publisher.rs:108-269 | whenever the head names a version, its manifest and every file its creator listed are stored with the uploaded bytes, and no later event changes them |
| `Publisher.SafeLayoutsExactly` | src/indexing/publisher.rs:142-176 | a set of directory shapes keeps the head naming complete versions in every run, whatever else is requested, if and only if none of them has an uploadable file under the pointer key or passing for a version's manifest |
| `Publisher.HeadPlanted` | src/indexing/publisher.rs:142-176 | an uploadable file under the pointer key becomes the head and names nothing complete |
| `Publisher.ManifestPlanted` | src/indexing/publisher.rs:207-269 | an uploadable file passing for a version's manifest is activated by a rollback to that version |
| `Publisher.ArtifactsAreHarmless` | src/indexing/builder.rs:444-458 | the builder's layout, shard directories of artifacts only, is one of the safe ones |
| `Publisher.LayoutIsNeeded` | src/indexing/publisher.rs:142-176 | instance: one file `index/_head` naming version 7 |
| `VersionHistory.EachVersionPublishedOnce` | src/indexing/publisher.rs:118-140 | over any run at most one publish of a version succeeds and each success raises the head it replaced |
| `VersionHistory.WorkersCountUp` | src/build_worker.rs:39-52 | with queue workers as the only publishers the head history is exactly 1, 2, 3, … with no gap |
| `VersionHistory.WorkerSwapSucceeds` | src/build_worker.rs:108-142 | a worker that created its manifest wins the swap |
| `VersionHistory.WorkerNeverLoses` | src/build_worker.rs:108-142 | in every run of workers no worker with a created manifest loses the swap |
| `StaticActivation.StepCheckOk` | src/bin/static_activate.rs:286-324 | a create-only conflict is passed only if the stored object has the manifest's size and sha256 |
| `StaticActivation.ManifestCompletes` | src/bin/static_activate.rs:227-277 | the release is complete once its manifest is stored |
| `StaticActivation.StagingComplete` | src/adapters/s3_artifact_sync.rs:151-210 | a fully listed and downloaded staging directory of a complete release is complete |
| `StaticActivation.PageKeepsStaged` | src/adapters/s3_artifact_sync.rs:294-360 | following the continuation token misses no needed object, whatever is uploaded meanwhile |
| `StaticActivation.StepSyncLocal` | src/adapters/s3_artifact_sync.rs:89-210 | each filesystem step of a sync keeps local releases complete and the local pointer naming one |
| `StaticActivation.RunKeepsInv` | src/bin/static_activate.rs:187-326 | the invariant survives every interleaving of activators and syncs, stopped anywhere |
| `StaticActivation.HeadsNameCompleteReleases` | src/indexing/static_publisher.rs:438-479 | end to end, with objects planted anywhere under the release prefixes: the store's pointer names only a release whose listed files all match, the reader's pointer only a complete local directory, and both stay so |
| `ActivationProgress.SwapDecides` | src/indexing/static_publisher.rs:464-479 | from its swap an activator ends activated exactly if the head is still what it read; then the head names its release and nothing else changes, otherwise it is rejected and nothing does |
| `ActivationProgress.ActivatesExactly` | src/bin/static_activate.rs:148-176 | in any state an undisturbed activator of a verified directory ends activated exactly if nothing stored contradicts the release and the head is well formed; then the head names the release, which is complete, and stays what it is |
| `ActivationProgress.ActivatePointer` | src/indexing/static_publisher.rs:438-479 | run alone, the pointer is swapped exactly if it is absent or well formed; the store then differs in the pointer alone |
| `ActivationProgress.ActivateRelease` | src/bin/static_activate.rs:148-176 | uploading and then moving the pointer, with the same outcome as the protocol's undisturbed activator |
| `SyncProgress.SyncsExactly` | src/adapters/s3_artifact_sync.rs:89-210 | in any state an undisturbed sync of a named release ends synced exactly if the release is installed, or stored with its manifest and its name free; then the local pointer names it and a new installation is the store's objects, otherwise nothing local changes |
| `ArtifactSync.SyncPrefixTo` | src/adapters/s3_artifact_sync.rs:294-360 | following continuation tokens to the end stages exactly the objects under the prefix |
| `ArtifactSync.PullReleaseViaStaging` | src/adapters/s3_artifact_sync.rs:151-210 | installs the release exactly when its manifest is stored and the name is free or already holds a complete release; states what is left in releases and staging in every case |
| `ArtifactSync.SyncStaticRelease` | src/adapters/s3_artifact_sync.rs:89-115 | succeeds exactly when the store has no pointer, or its release is installed, or it is complete enough to pull and its name is free; then the local pointer names it and a new installation is the store's objects; on failure pointer and releases are as they were |
| `UploadRelease.UploadAll` | src/bin/static_activate.rs:187-280 | succeeds exactly when nothing already stored contradicts the release; then the stored release is complete; nothing stored changes, only the release's keys appear, a failure writes no manifest |
| `UploadRelease.UploadFile` | src/bin/static_activate.rs:201-225 | creates one file, or accepts the existing one exactly when it matches its manifest entry |
| `UploadRelease.WithFilesKeeps` | src/bin/static_activate.rs:201-225 | create-only uploads keep what was there and add only the listed files |
| `ModelAssets.BundleDir.ProvisionWith` | src/embedding/model_assets.rs:193-259 | the sequence of removals, downloads, renames and the final marker, stopped by any fault, leaves exactly the specified directory |
| `ProvisionSuccess.ColdSucceedsExactly` | src/embedding/model_assets.rs:193-259 | a directory that is not ready is provisioned exactly if nothing stops the run, the served manifest parses and every listed file is served with its size and hash; the marker is then that manifest |
| `ProvisionSuccess.WarmIsFree` | src/embedding/model_assets.rs:64-76 | a ready directory succeeds without a fetch or a change |
| `ModelAssets.ProvisionLeaves` | src/embedding/model_assets.rs:193-259 | one run, stopped anywhere, leaves the directory as it was, or no marker, or a marker whose listed files that are there are each as one of their entries says, if what an entry named `manifest.json` installs does not read as a manifest |
| `ModelAssets.SuccessIsReady` | src/embedding/model_assets.rs:193-259 | a run that reports success leaves a ready directory if and only if no listed name is removed as a partial file later and repeated names, and the marker, agree in size; every hash then holds if and only if repeated names agree in hash and the marker is not listed |
| `ModelAssets.ReadyMeansIntact` | src/embedding/model_assets.rs:64-76 | with the invariant, the size-only check implies every listed hash |
| `ModelAssets.ProvisionKeepsStrong` | src/embedding/model_assets.rs:193-259 | one run, failing anywhere, keeps the invariant; with the packaging script's names a reported success leaves every listed file intact |
| `ModelAssets.WarmCheckIsSound` | src/embedding/model_assets.rs:64-76 | over any runs, faults, deletions and changes between bundles without conflict: ready implies every listed file has the on-disk manifest's sha256 |
| `ModelAssets.AlwaysSoundExactly` | src/embedding/model_assets.rs:64-76 | for a bundle that installs nothing under `manifest.json` that reads as a manifest, in particular one that does not list it: the warm check is sound in every sequence of runs and deletions serving it if and only if it is not conflicted: installable, its names lasting and agreeing in size, and two entries of one name, or the marker and its entry, differing in hash |
| `ModelAssets.ConflictWarmsUp` | src/embedding/model_assets.rs:193-259 | a conflicted bundle, served whole, warms up with a file that is not as listed |
| `ModelAssets.TwoEntries` | src/embedding/model_assets.rs:193-259 | one name listed twice is a conflict if and only if the sizes agree and the hashes differ |
| `ForeignMarker.SoundUnlessTakenOver` | src/embedding/model_assets.rs:193-259 | for a bundle that lists `manifest.json` once among distinct, whole names: the warm check is sound in every sequence of runs and deletions if and only if neither a readable manifest its entry can install, its files supplied by other entries and leftover partial files, nor its own manifest can pass for a bundle whose hashes do not hold |
| `ForeignMarker.RunLeaves` | src/embedding/model_assets.rs:193-259 | whatever such runs leave: every file is an entry's content or a partial file, and a marker has none of the partial files before it |
| `ForeignMarker.DeceivingRuns` | src/embedding/model_assets.rs:193-259 | for every readable manifest that can deceive, runs stopped at ever earlier entries that make the warm check believe it |
| `ModelAssets.MarkerEntryIsUnsound` | src/embedding/model_assets.rs:193-259 | instance: an entry named `manifest.json` leaves foreign content as the marker when the run stops, and the warm check believes it |
| `TopK.BoundedHeap.PushBounded` | src/query/turbo_searcher.rs:271-286 | a best k of the candidates so far becomes a best k with one more |
| `TopK.TopOfTops` | src/query/turbo_searcher.rs:263-268 | a best k of one part and of another's best k is a best k of both |
| `TopK.FoldPart` | src/query/turbo_searcher.rs:250-262 | folding a part leaves a best k of it |
| `TopK.MergeInto` | src/query/turbo_searcher.rs:263-268 | pushing one heap into another leaves a best k of both |
| `TopK.ScanTopK` | src/query/turbo_searcher.rs:242-269 | whatever the splits and merges, the heap is a best min(k, n) of the records |
| `TopK.TopIsSortPrefix` | src/query/turbo_searcher.rs:288-293 | with distinct ids a best k, ordered, is exactly the first min(k, n) of the full sort by score then doc_id |
| `TopK.RankedByScore` | src/query/turbo_searcher.rs:288-293 | what a sorted best k is, in scores and ids |
| `TopK.Search` | src/query/turbo_searcher.rs:242-293 | for every split tree: neighbours by descending score and ascending doc_id on a tie, at most k of the records and no fewer than there are, and every record left out below every returned one |
| `TopK.TopsRankAlike` | src/query/turbo_searcher.rs:288-293 | with distinct ids any two best k of the records order to one answer |
| `TopK.SearchTwice` | src/index/static_release.rs:348-353 | records the builder accepted rank the same however the scan is split |
| `DocIdChecks.DetectDuplicateDocIds` | src/index/static_release.rs:533-543 | accepts exactly pairwise different doc_ids |
| `DocIdChecks.DetectHashCollisions` | src/index/static_release.rs:549-564 | accepts exactly when equal hashes come from equal doc_ids |
| `DocIdChecks.CheckIds` | src/index/static_release.rs:348-353 | together: accepts exactly when no two records share a hashed id |
| `RetrievalCommon.DedupeBestByDocId` | src/query/retrieval_common.rs:62-81 | different doc_ids by descending score and ascending doc_id, each with the first of its best results; a doc_id is left out only if all k places go to results before it |
| `FetchedPrefix.PrefixBests` | src/query/keyword_searcher.rs:136-160 | in a list by score a fetched prefix already holds the best of each doc_id it meets, and they outscore the rest |
| `FetchedPrefix.ScoresAgree` | src/query/keyword_searcher.rs:136-160 | ranking a best part gives the scores of ranking all |
| `FetchedPrefix.EnoughFetched` | src/query/keyword_searcher.rs:155-157 | when the loop may stop, length and scores are those of the complete deduplicated ranking, and the ids too if no tie crosses the cut |
| `KeywordSearch.SearchShard` | src/query/keyword_searcher.rs:136-161 | the doubling loop terminates with what its first sufficient fetch gives, with that length and those scores |
| `CutTies.LoopIsCompleteExactly` | src/query/keyword_searcher.rs:136-161 | the loop returns the complete ranking's first entries for every order of equal scores if and only if no document within the cut straddles: its score is on both sides of the cut and some fetch has room for the documents that fill the cut while all its hits are behind |
| `CutTies.StraddlingIsMissed` | src/query/keyword_searcher.rs:155-157 | for every straddling document there is an order of the hits, still by score, with which the loop misses it |
| `CutTies.DistinctHitsExactly` | src/query/keyword_searcher.rs:155-157 | with one hit per doc_id: the loop is complete for every order if and only if no tie crosses the cut |
| `KeywordSearch.TieAcrossCutMatters` | src/query/keyword_searcher.rs:155-157 | instance: two documents of one score, one result wanted |
| `Ranker.MergeMetadata` | src/query/ranker.rs:78-93 | the union of two maps in which existing values win, whatever the iteration order |
| `Ranker.Accumulate` | src/query/ranker.rs:27-47 | the maps end with the exact sum of 1/(k+rank) and the merged payload of every id |
| `Ranker.Fuse` | src/query/ranker.rs:22-68 | for every iteration order: the ids of both lists, each once, by descending score and ascending id on a tie, each score the sum of its scores in the two lists |
| `Ranker.OneEntryPerId` | src/query/ranker.rs:49-57 | one entry per id of the union |
| `Ranker.OneTerm` | src/query/ranker.rs:17-20 | with distinct ids the score in a list is 1 over k plus the id's place counted from one |
| `Ranker.OneListOnly` | src/query/ranker.rs:36-47 | an id in one list only keeps that list's score |
| `Ranker.BetterRankedComesFirst` | src/query/ranker.rs:59-65 | an id at least as well ranked in both lists and better in one comes first |
| `Ranker.VectorBiasedUnion` | src/query/ranker.rs:71-93 | metadata of an id in both lists is the union with the vector result's values; its citation is kept if it has one |
| `Ranker.MissingMetadata` | src/query/ranker.rs:71-93 | without metadata on one side the other side's is kept |
| `ContextBuilder.BuildContext` | src/query/context_builder.rs:7-24 | the pushes build header, numbered blocks and question |
| `ContextBuilder.BlockShows` | src/query/context_builder.rs:141-147 | blocks that look alike have the same label, number, title and text, if titles are single lines |
| `ContextBuilder.DecimalReads` | src/query/context_builder.rs:141-147 | numbers are written in decimal digits without leading zeros and read back |
| `ContextBuilder.OneOfEach` | src/query/context_builder.rs:7-24 | the whole text for a titled statute and an untitled document |
| `ContextBuilder.LaterBlocks` | src/query/context_builder.rs:124-147 | labels of the corpus types, and numbers of later blocks |
| `ContextBuilder.EstimateTokens` | src/query/context_builder.rs:87-96 | one token per CJK character and one per four others rounded up |
| `ContextBuilder.CjkIsBlocks` | src/query/context_builder.rs:149-165 | the seven Unicode blocks whose characters count as one token each |
| `ContextBuilder.EstimateOfParts` | src/query/context_builder.rs:83-96 | cutting a text never lowers its estimate |
| `ContextBuilder.EstimateOfContext` | src/query/context_builder.rs:83-86 | block estimates sum to at least the whole context's estimate |
| `ContextBuilder.KeptCounts` | src/query/context_builder.rs:50-74 | the loop's counts follow the drop rule, fit the budget or are zero; putting the last dropped block back exceeds it; a trimmed non-empty group lags by at most one block dropped from it |
| `ContextBuilder.EqualCosts` | src/query/context_builder.rs:62-70 | on equal costs the longer group loses a block, and between groups of one length the dynamic one |
| `ContextBuilder.BuildContextBounded` | src/query/context_builder.rs:32-81 | the result is the context of a prefix of each group with those properties, within the token budget |
| `ContextBuilder.AmpleBudgetDropsNothing` | src/query/context_builder.rs:55-57 | a budget the block costs meet drops nothing |
| `SnapshotReplay.MaterializeLatestSnapshot` | src/indexing/builder.rs:381-405 | an error exactly if some record is malformed; otherwise exactly the documents of latest upserts, and none for a doc_id whose latest record is a delete |
| `SnapshotReplay.SnapshotIsExact` | src/indexing/builder.rs:381-405 | that list is strictly ascending by doc_id and holds exactly the documents whose latest record, maximum timestamp and last on ties, is an upsert |
| `SnapshotReplay.LiveAreUpserts` | src/indexing/builder.rs:395-401 | a document is live exactly if a latest record is the upsert that carries it |
| `SnapshotReplay.OrderMattersExactlyOnTies` | src/indexing/builder.rs:387-392 | the snapshot is the same for every order of the single records if and only if the newest records of each doc_id agree |
| `SnapshotReplay.DifferentTimestampsSettle` | src/indexing/builder.rs:387-392 | in particular when no doc_id repeats a timestamp |
| `SnapshotReplay.SegmentOrderMattersExactly` | src/build_worker.rs:90-103 | the snapshot, or the error, is the same for every order of the segments if and only if some record is invalid or, for each doc_id, the last records with its maximum timestamp in the segments that have one leave the same |
| `SnapshotReplay.SnapshotIgnoresSegmentOrder` | src/build_worker.rs:90-103 | the sufficient half, for any two orders |
| `SnapshotReplay.SettledSegments` | src/build_worker.rs:90-103 | records that replay alike in every order of their own replay alike in every order of their segments |
| `SnapshotReplay.BatchTie` | src/write/api.rs:134-147 | not conversely: one segment with two different records of one doc_id and timestamp |
| `SnapshotReplay.SnapshotWalKeys` | src/build_worker.rs:96-103 | every listed segment and the message's own, each exactly once, ascending |
| `SnapshotReplay.KeysAreDetermined` | src/build_worker.rs:96-103 | two listings of the same segments give the same list |
| `QueryCache.QueryService.ResolveVersionedHandler` | src/query_service.rs:95-119 | a handler built for the loaded key if that is cached, then unchanged, or its version is still active and the handler builds, then cached; otherwise an error and the cache as it was |
| `QueryCache.QueryService.ResolveWithRetry` | src/query_service.rs:123-140 | one retry exactly when the version moved under the first bootstrap; the answer carries the last attempt's pair |
| `QueryCache.QueryService.CachedPair` | src/query_service.rs:63-73 | both halves come from one entry |
| `QueryCache.RunKeepsInv` | src/query_service.rs:95-140 | the invariant survives every interleaving of requests and pointer moves |
| `QueryCache.AnswersAreOfTheirKey` | src/query_lambda.rs:224-274 | the cached handler is built for its key, at most one request bootstraps, and every answer carries exactly the pair its last attempt loaded, each half read after that attempt began |
| `QueryProgress.AnsweredExactly` | src/query_service.rs:95-140 | in any state with the mutex free an undisturbed request is answered with the current pair exactly if both pointers are read and that pair is cached or built; otherwise it fails, and the mutex is free |
| `QueryProgress.RetriesOnce` | src/query_service.rs:123-140 | a version that moved under the bootstrap sends a first attempt back to loading and fails a second |
| `QueryCache.PairsExistExactly` | src/query_lambda.rs:178-183 | a history of the two pointers lets no run accept or answer a pair that has not been active if and only if whenever one version is active at two moments, each release active between them has by then stood beside it |
| `QueryCache.TornAnswer` | src/query_lambda.rs:224-274 | for every history the run that loads the version at one moment, the release at a second and is built at a third |
| `QueryCache.AnsweredPairExisted` | src/query_lambda.rs:178-183 | in particular: if the version pointer never moves down, the answered pair was the active pair at one moment |
| `QueryCache.RollbackBesideOneRelease` | src/query_lambda.rs:178-183 | and if the release pointer does not move, whatever the version pointer does |
| `QueryCache.TornPairAfterRollback` | src/query_lambda.rs:178-183 | instance: both pointers move on and back, and the answer carries a pair that never was |
| `Bytes.LeReadsBack` | src/index/header.rs:229-240 | little-endian integers read back |
| `Bytes.SplitLenPrefixed` | src/index/release_manifest.rs:229-233 | a length-prefixed field and what follows it split in one way |
| `Bytes.CopyFromSlice` | src/index/header.rs:229-240 | copying a slice at an offset replaces exactly those bytes |
| `Bytes.TextLeMeans` | src/index/release_manifest.rs:218-219 | texts order byte by byte, a prefix first |
| `ReleaseManifest.ContentDigest` | src/index/release_manifest.rs:155-168 | the hasher is fed the rows' stream |
| `ReleaseManifest.ContentStreamDecodes` | src/index/release_manifest.rs:151-168 | equal content streams come from equal rows |
| `ReleaseManifest.DeriveReleaseId` | src/index/release_manifest.rs:183-227 | the hasher is fed version, profile, codec, digest and the outputs by name |
| `ReleaseManifest.ReleaseIdStreamDecodes` | src/index/release_manifest.rs:183-227 | equal id streams, codec matching the version and 64-byte hashes, come from equal version, profile, codec, digest and outputs |
| `ReleaseManifest.HashSizeIsNeeded` | src/index/release_manifest.rs:218-224 | without the fixed hash size two different output lists share a stream |
| `ReleaseManifest.ReleaseIdIgnoresOrder` | src/index/release_manifest.rs:218-219 | the id ignores the order of distinctly named outputs |
| `CodecConfig.IdentifiersReadBack` | src/index/codec_config.rs:53-150 | codes and names identify codec and policy both ways |
| `CodecConfig.V4MetadataRoundTrip` | src/index/codec_config.rs:293-340 | each metadata conversion undoes the other wherever either succeeds, which is on the valid v4 configs |
| `CodecConfig.V3MetadataExactly` | src/index/codec_config.rs:236-291 | which configs validate and which have v3 metadata, and what that is |
| `CodecConfig.WriteCanonicalBytes` | src/index/codec_config.rs:344-355 | the buffer holds every field at its fixed width in order |
| `CodecConfig.CanonicalBytesDecode` | src/index/codec_config.rs:344-355 | equal canonical bytes come from equal configs |
| `CodecConfig.Fingerprint` | src/index/codec_config.rs:375-391 | the first eight bytes of the digest of domain, config and asset hashes by name |
| `CodecConfig.FingerprintStreamDecodes` | src/index/codec_config.rs:357-391 | equal fingerprint streams come from equal configs and equal sets of name and content hash |
| `CodecConfig.FingerprintIgnoresOrder` | src/index/codec_config.rs:367-368 | the fingerprint ignores the order of distinctly named files |
| `TurboHeader.ToBytes` | src/index/header.rs:229-240 | the 32 header bytes, zero after byte 20 before v4 |
| `TurboHeader.HeaderReadsBack` | src/index/header.rs:242-289 | parsing a written header gives it back, whatever follows |
| `TurboHeader.HeaderWritesBack` | src/index/header.rs:242-289 | an accepted v4 header is exactly what writing it gives; v2 and v3 ignore the last twelve bytes |
| `ReleaseRecords.RecordReadsBack` | src/index/record.rs:25-61 | a code record's 208 bytes read back field by field, the norm only in v4 |
| `ReleaseRecords.MetaReadsBack` | src/index/meta.rs:12-20 | a meta record's 40 bytes read back |
| `ReleaseRecords.MetaExtReadsBack` | src/index/meta_ext.rs:8-13 | a meta ext record's 24 bytes read back |
| `ByteLayouts.HeaderLayout` | src/index/header.rs:11-24 | offset and meaning of every header field |
| `ByteLayouts.RecordLayout` | src/index/record.rs:25-61 | offset and meaning of every code record field |
| `ByteLayouts.MetaLayout` | src/index/meta.rs:12-20 | and of every meta record field |
| `ByteLayouts.MetaExtLayout` | src/index/meta_ext.rs:8-13 | and of every meta ext record field |
| `ByteLayouts.ConfigLayout` | src/index/codec_config.rs:344-355 | and of every byte of a canonical config |
| `ByteLayouts.ReleaseIdLayout` | src/index/release_manifest.rs:183-227 | the bytes of a release id stream around its codec section |
| `ByteLayouts.RowLayout` | src/index/release_manifest.rs:151-168 | the bytes of a content row |
| `CodecAssets.CentroidsReadBack` | src/index/assets.rs:111-142 | centroid table files read back |
| `CodecAssets.ProjectionReadsBack` | src/index/assets.rs:198-229 | projection files read back |
| `CodecAssets.RotationReadsBack` | src/index/rotation.rs:156-197 | rotation files read back |
| `CodecAssets.CodebookReadsBack` | src/index/codebook.rs:177-220 | codebook files read back |
| `CodecAssets.QjlReadsBack` | src/index/qjl.rs:160-203 | QJL matrix files read back |
| `MmapIndex.CheckMetaRanges` | src/index/mmap_index.rs:289-314 | accepts exactly when every text and title range lies in its blob |
| `MmapIndex.CheckMetaExtRanges` | src/index/mmap_index.rs:348-380 | accepts exactly when every doc_id and metadata range lies in its blob |
| `MmapIndex.LoadProdCodec` | src/index/mmap_index.rs:667-710 | the codec of the assets, exactly when they parse, agree, fit the record and have the header's fingerprint |
| `ReleaseFacts.ProdLoadsExactly` | src/index/mmap_index.rs:667-710 | the v4 assets load exactly if all are of 512 dimensions, the codebook is the committed one, the signs fill 64 bytes, one generator version drew both matrices, and the header carries the fingerprint of the config they name |
| `ReleaseFacts.LegacyLoadsExactly` | src/index/mmap_index.rs:601-655 | the legacy assets exactly if both are for the header's dimensions, with four centroids each |
| `MmapIndex.Load` | src/index/mmap_index.rs:229-406 | succeeds on exactly the directories some header and layout describe, and keeps their bytes |
| `MmapIndex.LoadedIsValid` | src/index/mmap_index.rs:289-291 | in a loaded index every accessor's range is in its blob |
| `MmapIndex.CheckUtf8` | src/index/mmap_index.rs:453-461 | succeeds exactly when every text, title, doc_id and metadata entry is UTF-8 |
| `StaticRelease.Buffers.Append` | src/index/static_release.rs:369-430 | one turn of the pass appends the chunk to every file, with offsets where its entries start |
| `StaticRelease.AppendAll` | src/index/static_release.rs:359-430 | the pass succeeds exactly when every embedding has a fitting code |
| `StaticRelease.CollectOutputs` | src/index/static_release.rs:581-598 | name, hash and size of every listed file, in list order |
| `ReleaseFacts.OutputNamesAscend` | src/index/static_release.rs:45-89 | the file list of every version ascends strictly by name |
| `StaticRelease.BuildRelease` | src/index/static_release.rs:294-524 | builds exactly when the checks pass; then files and manifest are as specified |
| `StaticRelease.GeneratesExactly` | src/index/record.rs:44-48 | the v4 configs that can be built |
| `StaticRelease.DigestCovers` | src/index/release_manifest.rs:140-168 | two releases hash the same content stream exactly if their chunks agree in order on doc_id, embedding, text and metadata JSON; the title column is not covered |
| `ReleaseReadBack.SameFingerprint` | src/index/mmap_index.rs:697-701 | builder and loader list the asset files in different orders and compute one fingerprint |
| `ReleaseReadBack.ProdLoads` | src/index/mmap_index.rs:667-710 | a written v4 codec loads back |
| `ReleaseReadBack.LegacyLoads` | src/index/mmap_index.rs:601-655 | a written v3 codec loads back |
| `ReleaseReadBack.WrittenReleaseLoads` | src/index/mmap_index.rs:229-406 | every written release loads with its header, layout and codec |
| `ReleaseReadBack.ReleaseReadsBack` | src/index/mmap_index.rs:420-567 | every code reads back; text, title, doc_id and metadata read back if and only if shorter than 2^32 bytes; an empty title reads as none |
| `ReleaseVerify.CheckOutputs` | src/indexing/static_publisher.rs:190-243 | accepts exactly the version's files in order, each with its size and hash on disk |
| `ReleaseVerify.VerifyReleaseDir` | src/indexing/static_publisher.rs:109-368 | accepts exactly the directories meeting every step |
| `ReleaseVerify.WrittenReleaseVerifies` | src/indexing/static_publisher.rs:109-368 | a written release whose every text entry is UTF-8 and shorter than 2^32 bytes verifies if and only if its source, profile and the caller's expectations are coherent |
| `ReleaseVerify.BuildThenVerify` | src/indexing/static_publisher.rs:109-368 | built from such entries and then verified, the same for whatever the builder returns |
| `VerifiedDirectory.AcceptedIsVerified` | src/bin/static_activate.rs:148-162 | a directory the byte-level verifier accepts is what an activation starts from: complete for its manifest's id, the manifest in no entry |
| `ReleaseVerify.SameIdOtherSource` | src/bin/static_activate.rs:241-262 | the same content from another source has the same files and id and a different manifest |

## Left out

- Publisher.HeadNamesCompleteVersion: for jobs whose artifact files are harmless; `SafeLayoutsExactly` says that this is exactly what it takes.
- Publisher.PublishVersion: the checks of the shard paths and trees before the first upload only reject and are left out; the read of the head after a lost swap, which words the error, is too.
- ModelAssets.WarmCheckIsSound: for any mix of bundles without conflict that install nothing under `manifest.json` that reads as a manifest; a cut-off manifest is taken not to parse as another one, and asset names are plain file names.
- ForeignMarker.SoundUnlessTakenOver: not for bundles that install a readable manifest under `manifest.json` and besides repeat a name or list a partial one.
- ReleaseVerify.WrittenReleaseVerifies: for entries shorter than 2^32 bytes, beyond which the stored lengths are cut, and UTF-8, as every string of the builder is.
- QueryCache.PairsExistExactly: each event moves one pointer, and the release pointer, once set, is never removed, as activation and sync leave it.
- RetrievalCommon.DedupeBestByDocId: one integer order stands for both f32 `>=` and `total_cmp`, which differ on -0.0 and NaN; those are not values here.
- ArtifactSync.SyncPrefixTo: the bucket does not change during the loop, and the validation of listed keys and nested keys are not modelled.
- HaarRotation.HouseholderQr: exact reals with a square root, not f64 rounding; columns are addressed as `a[column, row]` instead of offsets into one flat buffer.
- HaarRotation.Rotation.Generate: the matrix entries are not rounded to f32, and the seeded Gaussian sampler that fills the input is not modelled.
- TurboProd.Encode: does not model the rejection of non-finite input and of a norm that overflows f32, which exact reals cannot express.
- TurboProd.ScoreErrorBound: exact arithmetic; no bound on f32 rounding, and nothing statistical (unbiasedness, variance).
- Codebook.EncodeIsNearest: f32 is any set of representable reals with its rounding and successor, and the f64 midpoint of two centroids is taken as exact; NaN is not a value.
- TopK.Search: scores stand for their position in `total_cmp`'s order; the heap is its multiset with some worst element, not the array of a binary heap.
- KeywordSearch.SearchShard: the text index is the list of hits it would return; a fetch of n is its first n.
- Ranker.Fuse: scores are exact sums, not f32.
- SnapshotReplay.MaterializeLatestSnapshot: the document's own length, embedding and metadata checks are one given predicate.
- MmapIndex.Load: which error is reported is not modelled, nor memory mapping, alignment and pointer casts; the target has 64-bit sizes and little-endian records.
- StaticRelease.BuildRelease: the encoder, the seeded generators and the doc_id hash are given functions; staging and renaming the output directory are left out.
- ReleaseVerify.VerifyReleaseDir: the manifest is taken as parsed from its JSON text.
- ReleaseReadBack.ReleaseReadsBack: sizes below 2^64, as everything in memory is.
- ReleaseManifest.ReleaseIdStreamDecodes: about the hashed stream; SHA-256 is a given function, and strings are their UTF-8 bytes.
- UploadRelease.UploadAll: one call with nobody else writing; interleavings are in StaticActivation.
- ArtifactSync.SyncStaticRelease: one call on a bucket that does not change and a disk that does not fail; interleavings and stops are in StaticActivation.
- Uploads of whole directories are lists of single create-only uploads; the service client's own retries, which can make a conditional write's outcome ambiguous, are not modelled.
- Entity tags are an injective function of the bytes.
- PublishProgress.WorkerPublishes: for a worker nobody disturbs whose keys are free; a crash after an upload can leave its number occupied.
- ActivationProgress.ActivatesExactly: a static pointer is well formed or not; the checks of its release id and clock behind that are not modelled.
- Only the static release half of the sync is crash safe; the batch sync of `index/` and `lance/` is not modelled.
- The local profile: existence check then copy in `fs_publish.rs`, the SQLite queue, log and pointer.
- Installing a release into a managed local store by rename or copy.
- Verification and upload read the local directory at different times; it is taken not to change between.
- Vector search, full-text scoring, the iterative filtering loop, and metadata filters.
- The Lloyd-Max solver and its quadrature.
- HTTP and Lambda handlers, environment and command-line parsing, health endpoints and error texts.

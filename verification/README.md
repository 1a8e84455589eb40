# BruTile asynchronous tile fetching, in Dafny

This project models the asynchronous core of BruTile, a .NET library that
serves map tiles. It covers these parts:

- **`AsyncFetcher` orchestrator.** Takes a view change, computes the wanted tiles
  level by level (`FetchStrategy`), skips those in the memory cache or out of
  retries (`Retries`), launches a fetch per missing tile and reports each
  result to listeners until it is aborted.
- **Nearest level and stream reading.** `Utilities.GetNearestLevel` picks the zoom level for a resolution.
  `Utilities.ReadFully` drains a stream.
- **`AsyncReaderWriterLock`.** An async reader/writer lock with a FIFO queue of writers and a
  batch of waiting readers.
- **`AsyncFileCache`.** A disk cache with lazy expiry, guarded by that lock; paths
  are built with .NET `Path.Combine`.
- **Tile-cache contract and providers.** The cache contract (`IAsyncTileCache`) with its implementations.
  Three providers build on it: `WebTileProvider`, `AsyncWebTileProvider` and
  `AsyncFileTileProvider`.

Every stateful component is an immutable datatype. Its operations are pure
transition functions, and lemmas show that the invariants are kept.
Exceptions become `Result` failures, and `null` becomes `Option.None`. Code
the core calls but that is not part of this model appears as parameters:
- the clock is an integer `now`;
- the tile source's schema is a record of resolutions plus a tile-enumeration function;
- the HTTP helpers are functions from URI to a fetch result;
- the stream is the sequence of chunks it delivers.

Modules, one per file:
- `Tiles` (tiles.dfy): shared types.
- `Sorting` (sorting.dfy): the ordering used by the LINQ `OrderBy` calls.
- `Utilities` (utilities.dfy).
- `Retries` (retries.dfy).
- `FetchStrategy` (fetch_strategy.dfy).
- `AsyncFetcher` (fetcher.dfy).
- `ReaderWriterLock` (rw_lock.dfy).
- `FileCache` (file_cache.dfy).
- `TileCaches` (tile_caches.dfy).
- `TileProviders` (providers.dfy).

Three behaviours of the code that a reader may not expect, which the model keeps:
- **A failed tile is not retried within a session.** `DoFetch` runs a single
  wave, and `ViewChanged` is the only thing that starts one. The multi-wave
  `FetchLoop` is never started. `DoFetch` also clears the retry counters before
  it computes the missing tiles, so the retry limit never excludes a tile on
  this path (`AsyncFetcher.SessionIgnoresEarlierAttempts`).
- **Disposing a releaser twice is not a no-op.** A `Releaser` is a struct that
  releases every time it is disposed. Only the default releaser, which has no
  lock, does nothing (`ReaderWriterLock.DefaultReleaserIsNoOp`). A reader's
  second Dispose can free the lock while another reader is inside
  (`ReaderWriterLock.DoubleDisposeReleasesTwice`). A writer's second Dispose
  dequeues one more writer. `WriterRelease` hands the lock to a queued writer
  without touching the status, so that writer can end up inside together
  with another writer or with readers
  (`ReaderWriterLock.DoubleWriterDisposeAdmitsTwoWriters`,
  `ReaderWriterLock.StaleWriterReleaseJoinsReaders`). To state this, the
  model records which writers are inside as a multiset, and it names the
  writer that disposes. The source's releaser carries no such identity.
- **A dispatched fetch leaks when the fetcher is aborted.** If the fetcher is
  aborted after `DoFetchTile` marked a tile as in progress, `DoFetchAsync`
  returns early and the index stays marked. Abort is permanent
  (`AsyncFetcher.AbortIsPermanent`) and later sessions launch nothing, so the
  model records the mark and does not record a pending fetch.

## Model

| member | source | states |
|---|---|---|
| Sorting.SortBy | Samples/BruTile.Demo/AsyncFetcher.cs:308-311 | the ordered copy is sorted by the key and is a permutation of the input |
| Sorting.SortByMembers | Samples/BruTile.Demo/AsyncFetcher.cs:308-311 | ordering keeps exactly the input's elements |
| Utilities.OrderByCoarseness | BruTile/Utilities.cs:189 | the resolutions are reordered by descending units per pixel, as a permutation |
| Utilities.InOrdered | BruTile/Utilities.cs:189 | every resolution has a position in the ordered copy |
| Utilities.FirstNearest | BruTile/Utilities.cs:197-207 | the scan returns the first position of minimal distance to the target (strict `<` keeps the earlier one) |
| Utilities.NearestResolution | BruTile/Utilities.cs:182-210 | fails with "No tile resolutions" exactly when the dictionary is empty, else returns one of its levels |
| Utilities.GetNearestLevel | BruTile/Utilities.cs:182-210 | fails exactly on an empty dictionary; the id returned belongs to one of its levels |
| Utilities.OrderedBounds | BruTile/Utilities.cs:189-195 | the first level of the ordered copy is a coarsest one and the last is a finest one |
| Utilities.FirstNearestPrefersCoarser | BruTile/Utilities.cs:197-207 | among equally near levels, the scan over the coarse-to-fine order keeps the coarser one |
| Utilities.NearestLevelCorrect | BruTile/Utilities.cs:182-210 | below the finest level the finest is chosen, above the coarsest the coarsest, otherwise a nearest level, preferring the coarser on ties |
| Utilities.GetNearestLevelIsNearest | BruTile/Utilities.cs:182-210 | on a non-empty dictionary the id returned is that of a level satisfying the nearest-level characterisation |
| Utilities.NearestInsideRange | BruTile/Utilities.cs:197-207 | with levels 2.0, 1.0 and 0.5, a target of 0.6 gives the 0.5 level |
| Utilities.ClampedAboveRange | BruTile/Utilities.cs:194-195 | with levels 2.0, 1.0 and 0.5, a target of 3.0 (coarser than every level) gives the 2.0 level |
| Utilities.ClampedBelowRange | BruTile/Utilities.cs:191-192 | with levels 2.0, 1.0 and 0.5, a target of 0.0 (finer than every level) gives the 0.5 level |
| Utilities.EndOfStream | BruTile/Utilities.cs:29-33 | the stream ends at the first read that delivers nothing; every earlier read delivered bytes |
| Utilities.ReadFully | BruTile/Utilities.cs:21-37 | the result is the concatenation of every chunk delivered before the first empty read |
| Retries.PlusOne | Samples/BruTile.Demo/AsyncFetcher.cs:250-254 | the index becomes tracked; no other index's count changes |
| Retries.Clear | Samples/BruTile.Demo/AsyncFetcher.cs:256-259 | nothing is tracked afterwards, so no index has reached the maximum |
| Retries.PlusOneCountsAnAttempt | Samples/BruTile.Demo/AsyncFetcher.cs:250-254 | each PlusOne adds exactly one attempt for its index and none for others |
| Retries.ReachedMaxIffAttempts | Samples/BruTile.Demo/AsyncFetcher.cs:242-248 | an index has reached the maximum exactly when it has had MaxRetries + 2 attempts (the first PlusOne stores 0) |
| Retries.AttemptsFromFresh | Samples/BruTile.Demo/AsyncFetcher.cs:242-254 | n PlusOne calls from empty give n attempts, exhausted exactly when n > MaxRetries + 1 |
| Retries.TwoAttemptsThenExhausted | Samples/BruTile.Demo/AsyncFetcher.cs:242-259 | with MaxRetries 0: not exhausted after one attempt, exhausted after two, and not exhausted after Clear |
| FetchStrategy.TriangleClosedForm | Samples/BruTile.Demo/AsyncFetcher.cs:273-280 | the k-th level visited is min + k(k+1)/2 |
| FetchStrategy.TriangleMonotone | Samples/BruTile.Demo/AsyncFetcher.cs:273-280 | the visited levels increase with the step count |
| FetchStrategy.GetPreFetchLevels | Samples/BruTile.Demo/AsyncFetcher.cs:270-282 | the set is exactly the levels min + k(k+1)/2 that are not above max; empty when min > max, holding min otherwise |
| FetchStrategy.LookupLevel | Samples/BruTile.Demo/AsyncFetcher.cs:289 | finds a level with the id, or reports that no level has it |
| FetchStrategy.CoarserOrEqual | Samples/BruTile.Demo/AsyncFetcher.cs:290 | every occurrence of each level at least as coarse as the target and no other level, in dictionary order |
| FetchStrategy.WantedLevels | Samples/BruTile.Demo/AsyncFetcher.cs:290 | the filtered levels with their multiplicities kept, reordered coarsest first |
| FetchStrategy.TargetLevelLast | Samples/BruTile.Demo/AsyncFetcher.cs:289-293 | the walk is never empty and ends at the target's own resolution |
| FetchStrategy.SortByPriority | Samples/BruTile.Demo/AsyncFetcher.cs:308-316 | a permutation of the tiles, nearest to the view centre first |
| FetchStrategy.KeepNonNegative | Samples/BruTile.Demo/AsyncFetcher.cs:299-302 | keeps every occurrence of each tile with non-negative row and column and nothing else, in input order, so the result stays sorted by distance |
| FetchStrategy.NearestFirst | Samples/BruTile.Demo/AsyncFetcher.cs:299-302 | the nearest tile, kept in front of a sorted selection of the tiles after it, keeps the selection sorted |
| FetchStrategy.LevelTiles | Samples/BruTile.Demo/AsyncFetcher.cs:295-302 | one level's contribution: each non-negative tile of the schema's list for that level, as often as the list holds it, nearest first |
| FetchStrategy.TilesOfLevels | Samples/BruTile.Demo/AsyncFetcher.cs:293-303 | a tile is listed exactly when some walked level yields it and it is non-negative |
| FetchStrategy.GetTilesWanted | Samples/BruTile.Demo/AsyncFetcher.cs:284-306 | fails with KeyNotFound exactly when no level has the id; otherwise lists exactly the non-negative tiles of the levels at least as coarse as the target |
| FetchStrategy.TilesWantedStructure | Samples/BruTile.Demo/AsyncFetcher.cs:284-306 | the list is the per-level blocks, coarsest level first and the target level last, each block sorted by distance |
| FetchStrategy.TilesOfLevelsIsFlatten | Samples/BruTile.Demo/AsyncFetcher.cs:293-303 | the loop's output is the concatenation of the per-level blocks in level order |
| ReaderWriterLock.ReaderLock | BruTileAsync/Locks/AsyncReaderWriterLock.cs:32-67 | a reader enters exactly when no writer holds the lock or waits; otherwise it joins the waiting batch |
| ReaderWriterLock.WriterLock | BruTileAsync/Locks/AsyncReaderWriterLock.cs:69-105 | a writer enters exactly when the lock is free; otherwise it queues at the back |
| ReaderWriterLock.ReaderRelease | BruTileAsync/Locks/AsyncReaderWriterLock.cs:107-123 | one reader leaves; the last reader out sets the status to -1 and lets the front writer in; otherwise the count drops by one |
| ReaderWriterLock.WriterRelease | BruTileAsync/Locks/AsyncReaderWriterLock.cs:125-149 | the releasing writer leaves; the front queued writer is let in with the status left as it was; with none queued, every waiting reader enters at once; else the lock is freed |
| ReaderWriterLock.Dispose | BruTileAsync/Locks/AsyncReaderWriterLock.cs:151-170 | a releaser releases the way it was acquired; the default releaser does nothing |
| ReaderWriterLock.InitialInv | BruTileAsync/Locks/AsyncReaderWriterLock.cs:16-30 | the fresh lock satisfies the invariant |
| ReaderWriterLock.InvMutualExclusion | BruTileAsync/Locks/AsyncReaderWriterLock.cs:20-22 | under the invariant at most one writer is inside, never together with readers |
| ReaderWriterLock.ReaderLockInv | BruTileAsync/Locks/AsyncReaderWriterLock.cs:32-67 | reader acquisition keeps the invariant |
| ReaderWriterLock.WriterLockInv | BruTileAsync/Locks/AsyncReaderWriterLock.cs:69-105 | writer acquisition keeps the invariant |
| ReaderWriterLock.ReaderReleaseInv | BruTileAsync/Locks/AsyncReaderWriterLock.cs:107-123 | a holding reader's release keeps the invariant |
| ReaderWriterLock.WriterReleaseInv | BruTileAsync/Locks/AsyncReaderWriterLock.cs:125-149 | the holding writer's release keeps the invariant; afterwards at most the next queued writer is inside |
| ReaderWriterLock.QueuedWriterBlocksNewReaders | BruTileAsync/Locks/AsyncReaderWriterLock.cs:36-44 | once a writer waits, a new reader waits too |
| ReaderWriterLock.WriterReleaseWakesReaderBatch | BruTileAsync/Locks/AsyncReaderWriterLock.cs:137-142 | with no writer queued, a writer's release admits all waiting readers together |
| ReaderWriterLock.WritersFifo | BruTileAsync/Locks/AsyncReaderWriterLock.cs:69-149 | writers are granted the lock in the order they queued |
| ReaderWriterLock.DefaultReleaserIsNoOp | BruTileAsync/Locks/AsyncReaderWriterLock.cs:162-169 | disposing a default releaser changes nothing; a reader's releaser runs ReaderRelease |
| ReaderWriterLock.DoubleDisposeReleasesTwice | BruTileAsync/Locks/AsyncReaderWriterLock.cs:151-170 | disposing the same reader releaser twice releases twice, freeing the lock while another reader is inside |
| ReaderWriterLock.DoubleWriterDisposeAdmitsTwoWriters | BruTileAsync/Locks/AsyncReaderWriterLock.cs:125-136 | disposing a writer's releaser twice with two writers queued lets both in at once, breaking mutual exclusion |
| ReaderWriterLock.StaleWriterReleaseJoinsReaders | BruTileAsync/Locks/AsyncReaderWriterLock.cs:107-136 | a writer release while two readers hold the lock lets the queued writer in beside them with the status unchanged; after the readers leave the status reads free with that writer still inside, and a new reader enters |
| ReaderWriterLock.StepPreservesInv | BruTileAsync/Locks/AsyncReaderWriterLock.cs:32-149 | each enabled call keeps the invariant and only extends the request and grant logs |
| ReaderWriterLock.RunPreservesInv | BruTileAsync/Locks/AsyncReaderWriterLock.cs:32-149 | over any sequence of enabled calls the invariant and mutual exclusion hold, and grants never outrun requests |
| ReaderWriterLock.WritersGrantedInArrivalOrder | BruTileAsync/Locks/AsyncReaderWriterLock.cs:69-149 | over any run, the writers granted so far are a prefix of the writers that asked |
| AsyncFetcher.New | Samples/BruTile.Demo/AsyncFetcher.cs:29-38 | a new fetcher is not aborted and has nothing in progress |
| AsyncFetcher.GetTilesMissing | Samples/BruTile.Demo/AsyncFetcher.cs:119-125 | the wanted tiles that are neither in the memory cache nor exhausted, each as often as it is wanted and in wanted order, and no others |
| Sorting.SubsequenceOfTail | Samples/BruTile.Demo/AsyncFetcher.cs:122-124 | a filter of the tail is a filter of the whole list |
| Sorting.KeepsOccurrencesStep | Samples/BruTile.Demo/AsyncFetcher.cs:122-124 | a `Where` over a longer list counts its head once more exactly when the head is kept |
| Sorting.KeepsOccurrencesMembers | Samples/BruTile.Demo/AsyncFetcher.cs:122-124 | a `Where` result holds exactly the input's elements that pass the filter |
| AsyncFetcher.DoFetchTile | Samples/BruTile.Demo/AsyncFetcher.cs:160-172 | an in-progress or exhausted tile is skipped; otherwise it is marked in progress and counted, and nothing else changes |
| AsyncFetcher.FirstPending | Samples/BruTile.Demo/AsyncFetcher.cs:225-229 | the position of the first pending fetch of the tile |
| AsyncFetcher.CompleteFetch | Samples/BruTile.Demo/AsyncFetcher.cs:212-232 | the tile leaves the in-progress set; listeners hear once unless aborted or absent; retries are untouched |
| AsyncFetcher.Notification | Samples/BruTile.Demo/AsyncFetcher.cs:220-232 | the event carries the tile on success and the error on failure, never both, and is not final |
| AsyncFetcher.DoFetchTiles | Samples/BruTile.Demo/AsyncFetcher.cs:136-144 | an aborted fetcher launches nothing; on distinct indices a live fetcher launches exactly the tiles neither in progress nor exhausted, in list order, after the fetches already pending |
| AsyncFetcher.DoFetch | Samples/BruTile.Demo/AsyncFetcher.cs:97-117 | without a schema nothing happens; an empty resolution set raises; otherwise the view is kept and every new fetch is for a tile of the session that the memory cache lacks |
| AsyncFetcher.SessionTiles | Samples/BruTile.Demo/AsyncFetcher.cs:106-112 | the session's wanted tiles are GetTilesWanted at the nearest level, all non-negative |
| AsyncFetcher.ViewChanged | Samples/BruTile.Demo/AsyncFetcher.cs:40-47 | the new extent and resolution are stored and a session runs on them: no schema does nothing, no resolutions raises, otherwise every new fetch is for an uncached tile of the new view |
| AsyncFetcher.AbortFetch | Samples/BruTile.Demo/AsyncFetcher.cs:59-63 | sets the flag and leaves running fetches alone |
| AsyncFetcher.SessionLaunchesOnlyMissing | Samples/BruTile.Demo/AsyncFetcher.cs:97-125 | every fetch a session launches is for a tile of the session's own wanted list (at the nearest level) that is not in the memory cache |
| AsyncFetcher.SessionIgnoresEarlierAttempts | Samples/BruTile.Demo/AsyncFetcher.cs:110-124 | after Clear the missing tiles are exactly the uncached wanted ones, whatever earlier sessions tried |
| AsyncFetcher.DoFetchTileLaunches | Samples/BruTile.Demo/AsyncFetcher.cs:160-172 | a tile that is free to start is appended to the pending fetches and marked in progress |
| AsyncFetcher.DoFetchTilesLaunchesAll | Samples/BruTile.Demo/AsyncFetcher.cs:136-144 | when none of the distinct tiles is in progress or exhausted, all are launched in order |
| AsyncFetcher.MissingKeepsDistinct | Samples/BruTile.Demo/AsyncFetcher.cs:119-125 | filtering keeps tile indices distinct |
| AsyncFetcher.SessionFetchesExactlyMissing | Samples/BruTile.Demo/AsyncFetcher.cs:97-144 | with distinct wanted indices, a session launches exactly the wanted tiles in neither the memory cache nor the in-progress set, in priority order, also while fetches of an earlier view are running |
| AsyncFetcher.ViewChangedLaunches | Samples/BruTile.Demo/AsyncFetcher.cs:40-47 | a view change launches exactly that list for the new view and raises nothing |
| AsyncFetcher.MissingTwice | Samples/BruTile.Demo/AsyncFetcher.cs:119-125 | filtering by one set and then another is filtering once by their union |
| AsyncFetcher.MissingAgree | Samples/BruTile.Demo/AsyncFetcher.cs:119-125 | two filters that drop the same tiles give the same missing list |
| AsyncFetcher.LaunchStep | Samples/BruTile.Demo/AsyncFetcher.cs:136-144 | on distinct indices, starting the first tile launches it exactly when it is free and leaves every later tile as free as it was |
| AsyncFetcher.ExhaustedTileNotRefetched | Samples/BruTile.Demo/AsyncFetcher.cs:164 | an exhausted tile is not fetched again |
| AsyncFetcher.DoFetchTileInv | Samples/BruTile.Demo/AsyncFetcher.cs:163-168 | launching keeps every pending fetch in progress and the in-flight indices distinct |
| AsyncFetcher.DoFetchTilesInv | Samples/BruTile.Demo/AsyncFetcher.cs:136-144 | the same for a whole batch of launches |
| AsyncFetcher.CompleteFetchInv | Samples/BruTile.Demo/AsyncFetcher.cs:225-229 | completing a fetch keeps the invariant |
| AsyncFetcher.ViewChangedInv | Samples/BruTile.Demo/AsyncFetcher.cs:40-47 | a view change keeps the invariant |
| AsyncFetcher.AbortSilences | Samples/BruTile.Demo/AsyncFetcher.cs:136-233 | after abort nothing new is launched and no listener is told of completions |
| AsyncFetcher.AbortIsPermanent | Samples/BruTile.Demo/AsyncFetcher.cs:59-63 | no operation clears the abort flag |
| FileCache.Combine | BruTileAsync.Desktop/Cache/AsyncFileCache.cs:133-148 | Path.Combine: an empty second part gives the first, a rooted second part wins, otherwise one separator joins the parts unless the first already ends in one |
| FileCache.Replace | BruTileAsync.Desktop/Cache/AsyncFileCache.cs:136 | every ':' in the level becomes '_' and every other character is kept |
| FileCache.NatToString | BruTileAsync.Desktop/Cache/AsyncFileCache.cs:133-143 | invariant-culture decimal digits, never empty |
| FileCache.IntToString | BruTileAsync.Desktop/Cache/AsyncFileCache.cs:133-143 | a '-' sign for negatives followed by digits |
| FileCache.NatToStringRoundTrip | BruTileAsync.Desktop/Cache/AsyncFileCache.cs:133-143 | parsing the formatted number gives it back |
| FileCache.IntToStringRoundTrip | BruTileAsync.Desktop/Cache/AsyncFileCache.cs:133-143 | the same for negative numbers |
| FileCache.NumberNotRooted | BruTileAsync.Desktop/Cache/AsyncFileCache.cs:135-137 | a formatted column or row never counts as a rooted path |
| FileCache.FileNameShape | BruTileAsync.Desktop/Cache/AsyncFileCache.cs:133-148 | the path is directory, level, column and "row.format" joined by separators |
| FileCache.SplitAtFirst | BruTileAsync.Desktop/Cache/AsyncFileCache.cs:135-137 | two joins around a separator missing from the heads are equal only when the parts are |
| FileCache.FileNameInjective | BruTileAsync.Desktop/Cache/AsyncFileCache.cs:133-148 | within a level, different tiles get different files |
| FileCache.ColonAndUnderscoreLevelsCollide | BruTileAsync.Desktop/Cache/AsyncFileCache.cs:136 | levels "a:b" and "a_b" share their files |
| FileCache.Create | BruTileAsync.Desktop/Cache/AsyncFileCache.cs:29-39 | the constructor makes the root directory exist and touches no file |
| FileCache.Add | BruTileAsync.Desktop/Cache/AsyncFileCache.cs:49-66 | a live file is kept; otherwise the directory exists afterwards and the file holds the tile stamped now; no other file changes |
| FileCache.Remove | BruTileAsync.Desktop/Cache/AsyncFileCache.cs:68-78 | only a live file is deleted; an absent or expired tile is not an error; no other file changes |
| FileCache.Find | BruTileAsync.Desktop/Cache/AsyncFileCache.cs:80-89 | finds the stored bytes exactly when the file exists and is within the expiry |
| FileCache.SecondAddKeepsFirst | BruTileAsync.Desktop/Cache/AsyncFileCache.cs:55-58 | a second Add with other bytes leaves the first payload |
| FileCache.FoundUntilExpired | BruTileAsync.Desktop/Cache/AsyncFileCache.cs:150-157 | a stored tile is found until it is older than the expiry, then missed |
| FileCache.ExpiredFileLifecycle | BruTileAsync.Desktop/Cache/AsyncFileCache.cs:49-89 | an expired file is missed and survives Remove; the next Add overwrites it with a fresh stamp |
| FileCache.RemoveThenFind | BruTileAsync.Desktop/Cache/AsyncFileCache.cs:68-89 | after Remove the tile is missed; removing an absent tile changes nothing |
| FileCache.RunLocked | BruTileAsync.Desktop/Cache/AsyncFileCache.cs:49-131 | a call that gets its lock at once holds it, runs the body and finishes exactly as a resumed call would; otherwise it is parked in the lock's queue |
| FileCache.Resume | BruTileAsync.Desktop/Cache/AsyncFileCache.cs:49-131 | a call the lock was handed to runs the body and disposes its releaser in the mode it acquired |
| FileCache.ResumeKeepsInv | BruTileAsync.Desktop/Cache/AsyncFileCache.cs:49-131 | a resumed call keeps the lock invariant and leaves the lock: a reader lowers the count, a writer is no longer inside and at most the next queued writer is |
| FileCache.CallsRunUnderLock | BruTileAsync.Desktop/Cache/AsyncFileCache.cs:49-131 | Add and Remove run under the writer lock and Find under the reader lock; a call runs exactly when its lock is granted, and a call that finishes leaves the lock as it found it |
| FileCache.Delivered | BruTileAsync.Desktop/Cache/AsyncFileCache.cs:192 | each asynchronous read delivers at least one and at most the remaining bytes |
| FileCache.ReadFromFileAsync | BruTileAsync.Desktop/Cache/AsyncFileCache.cs:184-199 | the chunked read fills the buffer with exactly the file's contents |
| FileCache.FindAsync | BruTileAsync.Desktop/Cache/AsyncFileCache.cs:122-131 | the asynchronous find returns what Find returns |
| TileCaches.Find | BruTileAsync/Cache/AsyncNullCache.cs:21-40 | the null caches never find a tile; the file cache answers as FileCache.Find |
| TileCaches.Add | BruTileAsync/Cache/AsyncNullCache.cs:11-30 | the null caches ignore the tile; the file cache stores it as FileCache.Add |
| TileCaches.AsyncNullCacheRemoveAsWritten | BruTileAsync/Cache/AsyncNullCache.cs:16-35 | Remove raises NotImplementedException |
| TileCaches.Remove | BruTileAsync/Cache/IAsyncTileCache.cs:13-17 | Remove never fails; the null caches stay as they are |
| TileCaches.AsyncNullCacheRemoveBreaksContract | BruTileAsync/Cache/AsyncNullCache.cs:16-24 | the cache finds nothing yet Remove raises, against the interface's promise |
| TileCaches.CacheContractHolds | BruTileAsync/Cache/IAsyncTileCache.cs:13-20 | for every cache, removing a tile it does not hold succeeds and it still holds nothing |
| TileCaches.NullCachesStayEmpty | BruTileAsync/Cache/AsyncNullCache.cs:11-24 | the null caches stay empty even right after an Add |
| TileProviders.ReadThrough | BruTile/Web/WebTileProvider.cs:24-33 | a hit fetches nothing; a miss fetches the URI once and returns its answer or error; only fetched non-null bytes are added |
| TileProviders.ReadThroughTwice | BruTile/Web/WebTileProvider.cs:24-33 | once a file cache has served or stored a tile, a second call hits with the same bytes and no fetch |
| TileProviders.NullCachesAlwaysFetch | BruTile/Web/WebTileProvider.cs:24-33 | over a null cache every call fetches and returns exactly the fetch's answer |
| TileProviders.NewWebTileProvider | BruTile/Web/WebTileProvider.cs:15-22 | missing arguments default to NullRequest, NullCache and RequestHelper.FetchImage |
| TileProviders.WebGetTile | BruTile/Web/WebTileProvider.cs:24-33 | read-through over the provider's cache: a hit returns the cached bytes without a fetch; a miss fetches the request's URI once with the provider's delegate, returns its answer and stores non-null bytes |
| TileProviders.WebGetTileAsync | BruTile/Web/WebTileProvider.cs:36-53 | the same read-through, with the fetch always through FetchImageAsync |
| TileProviders.GetTileAsyncIgnoresFetcher | BruTile/Web/WebTileProvider.cs:36-53 | the asynchronous path never uses a custom fetch delegate; the blocking path does |
| TileProviders.DefaultWebTileProviderAlwaysFetches | BruTile/Web/WebTileProvider.cs:15-33 | a provider built without arguments fetches on every call and returns exactly what FetchImage returns |
| TileProviders.NewAsyncWebTileProvider | BruTileAsync/Web/AsyncWebTileProvider.cs:16-29 | a given cache is the one used and is shared with the inner provider, else AsyncNullCache; a given delegate is the asynchronous delegate, else AsyncRequestHelper.FetchImageAsync; the inner provider gets the raw arguments |
| TileProviders.WithAsyncCache | BruTileAsync/Web/AsyncWebTileProvider.cs:19-28 | a shared cache is replaced in both references at once; separate null caches stay; nothing but the caches changes |
| TileProviders.WithBlockingCache | BruTileAsync/Web/AsyncWebTileProvider.cs:19-28 | the same for a cache left behind by the inner provider |
| TileProviders.AsyncWebGetTileAsync | BruTileAsync/Web/AsyncWebTileProvider.cs:31-40 | read-through over the asynchronous cache with the inner provider's URI and the provider's asynchronous delegate; the new cache is seen by both paths when shared |
| TileProviders.AsyncWebGetTile | BruTileAsync/Web/AsyncWebTileProvider.cs:42-50 | read-through over the inner provider's cache with its blocking delegate; the new cache is seen by both paths when shared |
| TileProviders.DefaultAsyncCacheAlwaysFetches | BruTileAsync/Web/AsyncWebTileProvider.cs:16-40 | without a cache, every asynchronous call fetches the request's URI and returns the delegate's answer |
| TileProviders.BlockingPathUsesBlockingHelper | BruTileAsync/Web/AsyncWebTileProvider.cs:16-45 | without a delegate, the blocking path fetches through RequestHelper.FetchImage |
| TileProviders.SharedCacheServesBothPaths | BruTileAsync/Web/AsyncWebTileProvider.cs:16-45 | a tile fetched asynchronously into a file cache is then served by the blocking path without a fetch |
| TileProviders.NewAsyncFileTileProvider | BruTileAsync.Desktop/FileSystem/AsyncFileTileProvider.cs:13-16 | building from a directory creates it and keeps the configuration |
| TileProviders.FileGetTile | BruTileAsync.Desktop/FileSystem/AsyncFileTileProvider.cs:23-28 | returns the bytes exactly when a live file exists, else FileNotFoundException |
| TileProviders.FileGetTileAsync | BruTileAsync.Desktop/FileSystem/AsyncFileTileProvider.cs:30-39 | the asynchronous form returns what GetTile returns |
| TileProviders.FileProviderReadsWebCache | BruTileAsync.Desktop/FileSystem/AsyncFileTileProvider.cs:23-28 | a file provider over a web provider's cache directory reads the tile that provider just stored |

## Left out

- Concurrency itself is left out. Each lock step and each fetch continuation is one atomic transition. Interleavings appear only as orders of these transitions, via `ReaderWriterLock.Run` and the `pending` list of `AsyncFetcher`.
- The tile source, the HTTP helpers (`RequestHelper`, `AsyncRequestHelper`) and `NullRequest`'s URI are parameters. They are not part of this model.
- `BruTile.Cache.NullCache` is not part of this model. It is taken to find nothing and to accept Add and Remove silently.
- Doubles are reals. Distance sorting uses the squared distance, which orders tiles the same way as `Math.Sqrt`. Rounding is left out, and so are NaN and the infinities. The demo computes the resolution as `Width / ActualWidth` (MapControl.cs:71), which is infinite or NaN when the control has zero width.
- Utilities.GetNearestLevel: a NaN target resolution is not modelled. There every comparison is false, no level is chosen, and the source throws "Unexpected error when calculating nearest level" (Utilities.cs:208); the model's only failure is the empty dictionary. An infinite target is not modelled either; the source clamps it to the coarsest level.
- The exception a blocking wait adds (`AggregateException` around the delegate's error) is not distinguished from the error itself.
- `AsyncFetcher` has no memory-cache writes. The memory cache is a set of indices that the caller supplies, and the listener's handling of notifications is left out.
- The multi-wave `FetchLoop`, `FetchTiles`, `FetchTile` and `FetchAsync` are left out: nothing ever starts them.
- AsyncFetcher.New: the `ArgumentException`s for a null `tileSource` or `memoryCache` (AsyncFetcher.cs:31, 34) are not modelled. The tile source's schema is passed to each session and the memory cache is a set the caller supplies, so neither can be null, and the `_tileSource != null` test at line 213 always holds.
- `MaxThreads` is left out, because it is used only by `FetchTiles`.
- Sorting.SortBy: stability, which LINQ `OrderBy` provides, is not proved. So the order between tiles at equal distance is not pinned down.
- Utilities.NearestLevelCorrect: the choice between two levels with identical units per pixel (dictionary order) is not characterised.
- FetchStrategy.GetPreFetchLevels: 32-bit overflow of `level += step` is not modelled; integers are unbounded.
- FileCache.Combine: follows `Path.Combine` of .NET Framework on Windows, with `\` as the separator and `/` and `:` as the other separators it recognises. The `ArgumentException` that `Path.Combine` and `new FileInfo` raise for invalid path characters in a level id or format (`"`, `<`, `>`, `|`, control characters) is not modelled; such a path is built as if the characters were valid.
- FileCache.Find / FileCache.Add: the file system is keyed by exact path strings, so two paths are one file only when they are equal as strings. Windows matches paths without regard to case and after normalisation, so levels "L1" and "l1" share files there; that matching is not modelled.
- FileCache.Add: only the leaf directory is recorded as created; intermediate directories are not tracked.
- FileCache.Delivered: the model assumes each asynchronous read delivers at least one byte while bytes remain. A stream ending early would keep the source loop spinning; that case is not modelled.
- Write failures, file sharing violations and I/O exceptions inside the file cache are not modelled.
- The timestamp of a write is the `now` given to the call, and "now" is a parameter.
- `ReadBytesAsync` and the other helpers in `Utilities.cs` beyond `ReadFully` and `GetNearestLevel` are not part of this model.

## Findings

| source | as written | input that shows it | evidently intended | confidence | as-written member | corrected member |
|---|---|---|---|---|---|---|
| BruTileAsync/Cache/AsyncNullCache.cs:16-35 | Remove and RemoveAsync throw NotImplementedException | any index, e.g. Remove of (level "0", 0, 0) on a new AsyncNullCache | a no-op, since the cache never holds a tile and the interface (IAsyncTileCache.cs:14) says removing a missing tile does not throw | high; not executed | TileCaches.AsyncNullCacheRemoveAsWritten, TileCaches.AsyncNullCacheRemoveBreaksContract | TileCaches.Remove, TileCaches.CacheContractHolds |

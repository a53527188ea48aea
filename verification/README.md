# p2pget in Dafny

p2pget searches several torrent indexes at once, downloads through the anacrolix/torrent library, and crawls the DHT
into a local SQLite index. This project models the parts that p2pget itself decides: how search results are merged and
streamed, how downloads live and die, what the crawler keeps, how sizes are printed and read, and how arguments are
parsed. `dafny verify dfyconfig.toml` checks it.

Code that changes state is imperative here too. The TUI model, the recent set, the flag set, the store, the torrent
handle, the download and the engine are classes, and each method is proved against a function or relation on values.
The laws are lemmas about those, over every run or every interleaving.

| file | models |
|---|---|
| `Text.dfy` | the parts of Go's `strings` that the code calls |
| `Results.dfy` | filtering, merging, deduplicating and ranking of search results |
| `Streaming.dfy` | batch search, the streaming channel, and the search pane with its generation counter |
| `Selection.dfy` | file selection, its projection onto priorities, skip lists, byte totals, completion |
| `Stall.dfy` | the rate meter, the stall detector, and the spacing of watchdog restarts |
| `Downloads.dfy` | the torrent handle and the download object, with its arrays and fields |
| `Lifecycle.dfy` | the ownership of torrents under every interleaving of adds, removes, restarts, ends of waits and metadata fetches |
| `Tasks.dfy` | tasks.json: what is written and what is read back |
| `Engine.dfy` | the engine and the library's client as objects |
| `Watchdog.dfy` | pruning and restarting on a refresh tick |
| `PartFiles.dfy` | the renaming of old `.part` files |
| `Recent.dfy` | the two-generation recent set |
| `Store.dfy` | the two tables of the index |
| `Crawler.dfy` | the crawler's pipeline |
| `CrawlerRuns.dfy` | what the pipeline does over runs: order of the channel, sightings let through and suppressed, conservation, what is stored |
| `Fts.dfy` | the quoting of full-text queries |
| `Sizes.dfy` | `HumanSize` and `parseHumanSize` |
| `Args.dfy` | `parseArgs` over Go's `flag` package |

## Findings

Where the code does less than its comments say, the model follows the code, and a lemma states exactly when the
documented property holds.

- `internal/dht/recent.go:6` says that memory is capped at about twice the capacity. Promotion (lines 33-36) skips the
  capacity check, so r rotations can leave r + 1 times the capacity (`Recent.GrowthReached`). The documented bound
  holds along a run exactly if no promotion meets a full active generation (`Recent.DocumentedBound`).
- A restored skip list is forgotten if the list is persisted before metadata arrives, or if the download is restarted
  after metadata arrives but before the selection is initialised (`Selection.PersistKeepsSelection`,
  `Selection.RestartKeepsSelection`, `Selection.LostSelections`).
- The crawler relies on the recent set holding only stored hashes. A failing `SeenInfoHash` breaks that, and the
  sighting is then suppressed (`Crawler.RunKeepsCovered`, `Crawler.UncoveredRun`, `Crawler.LostSighting`).
- `FetchInfo` drops whatever torrent the client handed it. If a healthy download uses that torrent when the fetch ends,
  its torrent is killed, be it tracked before the fetch or added during it (`Lifecycle.FetchedKeepsSound`,
  `Lifecycle.AddDuringFetchIsKilled`). The commands of p2pget give the crawler an engine of its own, where no download
  can be harmed (`Lifecycle.FetchesAloneStaySound`).
- Even so, fetches of one hash that overlap share a torrent, and the first to end closes it under the others, which then,
  without metadata, wait in vain until their time is up (`Lifecycle.OverlappingFetches`). No fetch is left like that exactly if each is
  alone on its torrent when it ends (`Lifecycle.RunKeepsHeldLive`). The crawler does overlap them: its replenish loop
  queues hashes that are being fetched (`Crawler.FetchedTwice`, `Crawler.StepKeepsFetchedOnce`).
- `HumanSize` prints P and E, which `parseHumanSize` reads as 0 (`Sizes.RoundTrip`).
- A restart whose re-add fails loses the entry, although the state file still lists it (`Engine.Engine.Restart`).
- A removal deletes the entry and drops the torrent in two steps. An add of the same hash in between gets a torrent that
  is about to close, exactly if the removed entry was healthy (`Lifecycle.RacingAdd`, `Lifecycle.TwoStepRemoval`). In a
  restart the re-add then leaves a live torrent without an owner (`Lifecycle.RacingAddInRestart`).

## Parameters

- `lower` is the case mapping of one character. `nearest` is the float64 that `strconv.ParseFloat` rounds to; only its
  values from 1 to 10240 matter.
- `bm25` is SQLite's score of a row for a query.
- `parse` is the library's magnet parser. A URI it accepts is always accepted by the client.
- `order`, `ranking`, `walk` and the steps of a run are the choices of the scheduler, SQLite or the file system.
- `fails`, `fault`, `accepted`, `refused` and `unreadable` say which outside calls fail.
- The library's client is a map from info-hash to live torrent: it hands out a live torrent again, and dropping a
  torrent takes out that torrent and no other.
- Times are integers that the caller passes in; None is Go's zero time.

## Model

| member | source | states |
|---|---|---|
| Text.SplitAppend | internal/search/search.go:185-191 | splitting `a+s` gives the parts of `a` and then `s`, for a name without the separator |
| Text.SplitJoins | internal/search/search.go:185-188 | joining the parts of a split string gives it back, and no part holds the separator |
| Text.FieldsOfSpaced | internal/search/search.go:115 | whatever non-blank pieces stand with white space around and between, Fields returns exactly these, in order |
| Text.FieldsCover | internal/search/search.go:115 | every string is its fields with white space around and between them |
| Text.TrimmedCover | internal/store/store.go:173 | trimming takes white space, and nothing else, off both ends |
| Results.FilterByQuery | internal/search/search.go:114-134 | keeps, in order, exactly the results whose lower-cased title contains every token of the query, and all of them for a blank query |
| Results.FilteredMeans | internal/search/search.go:114-134 | a result is kept iff each field of the query lowered rune by rune stands at some place of its title lowered rune by rune |
| Results.FilteredAppend | internal/search/search.go:64 | filtering distributes over concatenation |
| Results.SourceUnionNames | internal/search/search.go:178-195 | the merged source list names exactly the sources of both lists, begins with the first list, and repeats no name if neither list does |
| Results.SourceUnionOrder | internal/search/search.go:185-194 | the new names are appended in the order of the second list, each at its first appearance |
| Results.MergeSources | internal/search/search.go:180-195 | the loop computes that union |
| Results.MergeResult | internal/search/search.go:160-176 | the first result with its empty fields filled from the second and the sources united |
| Results.MergeKeepsKey | internal/search/search.go:141-151 | merging two results with one key gives a result with that key, even if a title collides with an info-hash |
| Results.KeyMeansTorrent | internal/search/search.go:141-144 | two results have one key iff their info-hashes agree up to case rune by rune, or neither has one and the titles are equal, or the title of one without is the lowered info-hash of the other |
| Results.MergedKeys | internal/search/search.go:137-155 | after any input the rows have distinct keys, exactly those of the input |
| Results.MergedDigests | internal/search/search.go:137-155 | every row summarises its whole group: title, seeders and leechers of the first member with the most seeders, exactly the group's source names, and an optional field empty only if it is empty throughout the group |
| Results.Dedup | internal/search/search.go:138-155 | the loop over the index map and the slice computes the fold, which `Results.RankedTorrents` spells out |
| Results.DedupAndRank | internal/search/search.go:137-158 | one row for each torrent (info-hash up to case, or title without one), best seeded first; its title, seeders and leechers and what it says itself are those of the first of its results with the most seeders, its sources exactly theirs, and a field is empty only if it is in all of them |
| Results.RankedDigests | internal/search/search.go:137-158 | what holds of the fold also holds of any ranking of it |
| Results.RankedTorrents | internal/search/search.go:137-158 | the rows of any ranking of the fold, told in info-hashes, titles and fields alone |
| Results.HashHasRow | internal/search/search.go:137-158 | a result with an info-hash is in a row with that info-hash up to case |
| Results.OrderIndependent | internal/search/search.go:137-158 | for two arrival orders of the same results and any tie-breaking: the same keys, as many rows, and per key the same seeders, source names and filled fields |
| Streaming.Search | internal/search/search.go:39-71 | for every order in which the goroutines take the mutex: a ranking of the error-free filtered replies with one row for each torrent, and an error for each failing indexer |
| Streaming.CollectsResult | internal/search/search.go:53-65 | a result is collected iff some reply without an error has it and it matches the query |
| Streaming.CollectsFailure | internal/search/search.go:57-63 | an indexer name has an error iff a reply of that name failed, and it is the error of such a reply |
| Streaming.FilteringChunkwise | internal/search/search.go:64-98 | filtering each reply on its own and concatenating equals filtering the concatenation |
| Streaming.StreamKeepsInv | internal/search/search.go:91-105 | sends, the close and receives keep: each indexer is still searching, in the channel or received, and in only one of these |
| Streaming.StreamKeepsOrder | internal/search/search.go:80-107 | messages are received in the order in which they were sent |
| Streaming.NoProducerBlocks | internal/search/search.go:80-107 | in every schedule, the consumer stopping anywhere: a producer always finds room in an open channel, and a consumer that sees the close has read one message from each indexer |
| Streaming.Model.StartSearch | internal/tui/app.go:129-136 | a new search gets the next generation and clears what was accumulated, the errors and the rows |
| Streaming.Model.OnChunk | internal/tui/app.go:287-308 | a chunk of another generation changes nothing; one of this generation is accumulated or recorded as an error, and the rows become a ranking of everything accumulated; another chunk is awaited unless the channel was closed |
| Streaming.GenerationIsolation | internal/tui/app.go:119-143 | over every interleaving of searches, producers, channel reads and messages: what is accumulated, the errors and the rows come from the newest search alone, in delivery order, and after its close message from every indexer |
| Streaming.StreamedMatchesBatch | internal/tui/app.go:287-308 | an ended streamed search shows the view a batch search of the same replies returns, whatever the schedules of both |
| Recent.RecentSet.constructor | internal/dht/recent.go:16-24 | an empty set; a capacity that is not positive becomes 1024 |
| Recent.RecentSet.Seen | internal/dht/recent.go:26-43 | the answer is whether the key is in either generation; a known key or one that finds room joins the active generation, any other starts a new one and retires the old |
| Recent.KnownWasPresented | internal/dht/recent.go:26-43 | only keys presented before are recognised |
| Recent.Retention | internal/dht/recent.go:27-43 | a key is recognised while at most `cap` distinct keys were presented since it was |
| Recent.RetentionIsTight | internal/dht/recent.go:37-40 | with a full active generation, `cap` + 1 new keys make it forget |
| Recent.ExactOnFewKeys | internal/dht/recent.go:26-43 | on runs of at most `cap` + 1 distinct keys it answers as an exact unbounded set does |
| Recent.GrowthBound | internal/dht/recent.go:33-41 | after r rotations the generations together hold at most (r + 1) cap keys, and their sizes add up to at most (2r + 1) cap |
| Recent.GrowthReached | internal/dht/recent.go:33-41 | for every capacity and r a run with r rotations reaches both bounds |
| Recent.GrowthReachedSize | internal/dht/recent.go:33-41 | the sizes that run reaches: r + 1 and r times the capacity |
| Recent.DocumentedBound | internal/dht/recent.go:5-8 | the generations together stay within twice the capacity along a run if and only if no promotion meets a full active generation |
| Store.Store.SeenInfoHash | internal/store/store.go:72-79 | a new row has the time alone; of a row that is there the time becomes `now` and name, size, files and the resolved flag stay; a failure, like any other row, changes nothing |
| Store.Store.SaveMetadata | internal/store/store.go:82-109 | on success the row has the name, size and files of the record, is resolved, and its time is the later of the old one and `now`; its fts row is replaced by one with that name, no other row changes; a failure at any statement leaves both tables as they were |
| Store.Store.Search | internal/store/store.go:112-143 | nothing for a blank query; else distinct resolved rows with a matching name, joined correctly, in order of score and then of descending time, all of them unless the limit (100 by default) is reached, and then none that is left out would come before one of them |
| Store.Store.PendingMetadata | internal/store/store.go:146-162 | the n newest unresolved rows, newest first, all of them if there are fewer |
| Store.Store.Stats | internal/store/store.go:165-169 | the number of rows and of resolved rows |
| Store.SaveKeepsIndex | internal/store/store.go:90-107 | a save keeps exactly one fts row, with the same name, for each resolved row |
| Store.RunKeepsIndex | internal/store/store.go:72-109 | so does any run of both operations, with failures at any statement |
| Store.ResolvedNeverReverts | internal/store/store.go:76-98 | no run removes a row or unresolves one |
| Store.LastSaveStands | internal/store/store.go:72-109 | after any run a row has name, size and files of the last successful save of its hash, whatever sightings and failures follow it |
| Store.SearchReturnsLastSave | internal/store/store.go:82-143 | after any run from an empty database, what Search returns for a hash has the name, size and files of the last successful save of that hash |
| Store.RankedRowsIndexed | internal/store/store.go:120-127 | the rows the join yields are exactly the resolved rows with a matching name, each once |
| Store.ResolvedCount | internal/store/store.go:165-169 | the resolved count is the number of fts rows |
| Fts.SanitizeFts | internal/store/store.go:172-183 | the loop rewrites every field in place into its quoted form |
| Fts.UnquotedParts | internal/store/store.go:180 | taking the quotes out of a field keeps the order of what remains |
| Fts.FieldsOfTrimmed | internal/store/store.go:173-177 | trimming changes no field |
| Fts.SanitizedIsStrings | internal/store/store.go:172-183 | for every input the output is a list of FTS5 strings, one for each field with its quotes removed, and nothing outside quotes |
| Fts.SanitizedEmpty | internal/store/store.go:116-119 | the output is empty exactly if the query has no field |
| Crawler.StepKeepsInv | internal/dht/crawler.go:109-190 | every step of a callback, a worker or the replenish loop keeps the pipeline invariant |
| Crawler.PipelineSafety | internal/dht/crawler.go:109-190 | over all interleavings: at most 1024 queued, everything queued or in flight is a stored row, the accepted hashes are exactly the pending and the resolved, and the index agrees with the table |
| Crawler.DroppedStaysPending | internal/dht/crawler.go:124-128 | an offered hash goes to the end of the channel if fewer than 1024 wait there and is dropped else; either way it is pending in the store, or its metadata saved, at every later point of the run |
| Crawler.RecentIsStored | internal/dht/crawler.go:117-123 | while `SeenInfoHash` never fails, every key of the recent set is stored or about to be |
| Crawler.MarkKeepsCovered | internal/dht/crawler.go:117-123 | a call of `SeenInfoHash` keeps that if and only if it succeeds, or the hash is stored, about to be stored by another call, or forgotten |
| Crawler.RunKeepsCovered | internal/dht/crawler.go:109-190 | every key of the recent set is stored or about to be, throughout a run, if and only if the run has no failing call for a recent hash that is not stored and that no other call is storing |
| Crawler.StepKeepsFetchedOnce | internal/dht/crawler.go:131-144 | no hash is fetched by two workers at a time after a step if and only if the step is not a worker taking a hash that another is fetching |
| Crawler.FetchedTwice | internal/dht/crawler.go:174-186 | a run on an empty index in which that happens: the replenish loop queues a pending hash that is being fetched |
| Crawler.UncoveredRun | internal/dht/crawler.go:117-123 | a run on an empty index: the first sighting of a hash meets a failing store, and the next one changes nothing |
| Crawler.LostSighting | internal/dht/crawler.go:117-123 | a hash active in the recent set but neither stored nor being stored stays so, whatever steps follow and however often it is seen again, while at most 50,000 distinct hashes arrive |
| CrawlerRuns.OfferedIsQueued | internal/dht/crawler.go:124-128 | in every reachable state an offered hash, by a callback or by the replenish loop, goes to the end of the channel if fewer than 1024 wait there, and nowhere else |
| CrawlerRuns.ChannelIsFifo | internal/dht/crawler.go:124-142 | at every point of a run the channel holds the hashes that found room, in order, less as many as were taken |
| CrawlerRuns.QueuedUntilTaken | internal/dht/crawler.go:124-142 | a hash once queued stays queued, each take moving it one place forward |
| CrawlerRuns.QueuedIsTaken | internal/dht/crawler.go:135-142 | the take after those of the hashes before it hands it, from the front, to a worker |
| CrawlerRuns.HashesConserved | internal/dht/crawler.go:109-171 | for every hash at every point of a run: sightings let through are being stored or were, those stored are being offered or were, those taken are being fetched or were |
| CrawlerRuns.FirstSightingPasses | internal/dht/crawler.go:109-119 | a hash that has not arrived before goes on to the store |
| CrawlerRuns.RepeatedSightingStops | internal/dht/crawler.go:117-119 | a hash that arrives again after at most 50,000 distinct others moves nothing but the recent set |
| CrawlerRuns.LastFetchStands | internal/dht/crawler.go:150-167 | a row has the name, size and number of files, 1 if the torrent lists none, of the last fetch of its hash that was saved |
| CrawlerRuns.PageInOrder | internal/dht/crawler.go:174-190 | a page is the 64 newest pending rows, or all of them, and is offered hash by hash in that order |
| Selection.AlwaysProjected | internal/engine/download.go:24-29 | after any interleaving of metadata, initialisation, pause and selection: file i has Normal priority iff the selection is initialised, wants it, and the download is not paused |
| Selection.ProjectedFromStart | internal/engine/download.go:24-29 | so it is for a new download and any interleaving |
| Selection.PausedRequestsNothing | internal/engine/download.go:77-84 | a paused download has no file at Normal priority until it is resumed, whatever happens in between |
| Selection.SelectionRoundTrip | internal/engine/download.go:45-59 | initialising from the deselected indices reproduces the selection |
| Selection.DeselectedAscending | internal/engine/engine.go:411-416 | the deselected indices come in ascending order, each once |
| Selection.RestartKeepsSelection | internal/engine/engine.go:411-421 | the selection survives a restart if and only if it is initialised, or metadata is missing, or the skip list deselects nothing |
| Selection.RestartedSelection | internal/engine/engine.go:405-440 | from any state of a download: its replacement, once its selection is initialised, wants the same files under exactly that condition, projected and not paused |
| Selection.PersistKeepsSelection | internal/engine/engine.go:469-478 | it survives persisting and restoring if and only if it is initialised or the skip list deselects nothing |
| Selection.LostSelections | internal/engine/engine.go:411-421 | two files, the second deselected earlier: both ways of losing that |
| Selection.TotalsFollow | internal/engine/download.go:192-204 | the totals are sums over the files that are wanted, or lie beyond the selection: a change of one such file changes them by as much, any other change by nothing |
| Selection.CompletionExact | internal/engine/download.go:192-204 | given 0 <= completed <= length, done is at most total, and a download counts as completed iff some counted file has bytes and every counted file is complete; never with all files deselected |
| Downloads.Download.constructor | internal/engine/engine.go:270 | a new download has no error, no selection, no samples, and is not paused |
| Downloads.Download.ReceiveInfo | internal/engine/download.go:24-26 | metadata arriving leaves the selection missing and every file without priority |
| Downloads.Download.InitSelection | internal/engine/download.go:45-59 | file i is wanted iff i is not on the skip list, in a new array, and at Normal priority iff moreover the download is not paused |
| Downloads.Download.ApplyLocked | internal/engine/download.go:64-75 | without a selection nothing; else file i is Normal iff it is wanted and the download is not paused, files beyond the selection being unwanted |
| Downloads.Download.SetPaused | internal/engine/download.go:79-84 | the flag is as given; with a selection, which is kept, a file is Normal iff it is wanted and the download is not paused |
| Downloads.Download.SetFileWanted | internal/engine/download.go:271-286 | both errors, with nothing changed; else the new array is the old one with the flag of that one file as given, each file is Normal iff it is wanted there and nothing is paused, and earlier arrays keep their contents |
| Downloads.Download.SetAllWanted | internal/engine/download.go:289-301 | every flag is as given, in a new array, and every file Normal iff it is wanted and nothing is paused; earlier arrays keep their contents; nothing without a selection |
| Downloads.Download.Files | internal/engine/download.go:245-268 | None without metadata; else one entry per file in order with its index, path, length and completed bytes, wanted as selected, all wanted without a selection |
| Downloads.Download.Status | internal/engine/download.go:169-206 | the totals count exactly the wanted files, all of them without a selection, and do not depend on pausing |
| Downloads.Download.SampleRate | internal/engine/download.go:96-124 | if the clock has moved since the last sample, each rate times the time since is the bytes since, and stallSince goes on or starts now iff the download rate is below 1 without a peer; else rates and stallSince stay; the sample is remembered |
| Downloads.Download.StallDuration | internal/engine/download.go:128-135 | the time since the stall began, 0 without one |
| Downloads.Deselections | internal/engine/engine.go:411-416 | the loop collects exactly the indices of the deselected files, ascending |
| Stall.StallSinceSummarises | internal/engine/download.go:35-40 | for every trace: stallSince is set iff the last rated sample is stalled, and is the time of the first sample of the maximal trailing run of stalled samples |
| Stall.RatesTelescope | internal/engine/download.go:105-112 | the rates times the elapsed times add up to the bytes between the first and the last sample |
| Stall.UpRatesTelescope | internal/engine/download.go:105-112 | and the upload rates to the bytes sent |
| Stall.FiresExactly | internal/tui/app.go:469-480 | on a trace of a moving clock, in plain numbers: it fires iff the download is healthy and without active peer, and since some sample 180 s ago or more no sample saw a peer or as many bytes as seconds |
| Stall.FiresOnTrace | internal/tui/app.go:469-480 | on every trace: the watchdog fires iff the download is healthy and without active peer, and the maximal trailing run of stalled samples began 180 s ago or more |
| Stall.FiringIsJustified | internal/tui/app.go:462-486 | when the watchdog fires, a trailing run of samples begun at least three minutes ago saw no peer at all, and fewer bytes arrived than seconds passed |
| Stall.RestartsApart | internal/tui/app.go:456-486 | tracking, dropping, sampling and checking keep the restarts more than three minutes apart, no stall of the tracked download being as old as the last restart |
| Stall.WatchdogSpacing | internal/tui/app.go:456-486 | any two watchdog restarts of one info-hash are more than three minutes apart on a monotone clock |
| Lifecycle.StepKeepsSound | internal/engine/engine.go:260-307 | a step keeps the ownership invariant if and only if it is not the end of a fetch whose torrent is in use; the invariant: keys are hashes, a download's torrent is live iff it is listed and has not failed, every live torrent has a listed owner or is held by a fetch, and a live download without a selection is awaited |
| Lifecycle.RunKeepsSound | internal/engine/engine.go:190-443 | so does every run of adds, removes, restarts, ends of waits and fetches in which no fetch ends while its torrent is in use |
| Lifecycle.LiveIsHealthy | internal/engine/engine.go:263-269 | the client serves every healthy entry with the torrent of that very download, and no other hash unless a fetch holds its torrent |
| Lifecycle.AddOutcome | internal/engine/engine.go:260-279 | adding a healthy download changes nothing at all; otherwise a new object takes the entry |
| Lifecycle.RestartOutcome | internal/engine/engine.go:388-443 | a restart replaces the entry and its torrent by others, or loses the entry if the re-add fails; the old torrent is closed |
| Lifecycle.StaleTimeoutIsHarmless | internal/engine/engine.go:300-305 | the timeout of a download that is no longer listed touches neither the list nor the live torrents |
| Lifecycle.RetiredForGood | internal/engine/engine.go:263-269 | over every run a dropped torrent stays dropped, a failed download stays failed, and an initialised selection is never initialised again |
| Lifecycle.RunKeepsOneOwner | internal/engine/engine.go:260-279 | over every run no torrent ever belongs to two downloads |
| Lifecycle.TwoStepRemoval | internal/engine/engine.go:365-374 | with the map delete and the drop as separate steps, whatever happens in between, short of dropping a torrent in use, the result is sound if and only if no healthy entry has the departing torrent when it is dropped |
| Lifecycle.RacingAdd | internal/engine/engine.go:365-374 | with one add of the hash in between, the result is sound if and only if the removed entry had failed; else the new entry looks healthy on a closed torrent |
| Lifecycle.RacingAddInRestart | internal/engine/engine.go:393-440 | in a restart, likewise; the re-add then gets a new live torrent that no download owns, while the listed entry stays on the closed one |
| Lifecycle.FetchedKeepsSound | internal/engine/engine.go:549 | the deferred drop of a fetch keeps the invariant if and only if no healthy entry uses the fetched torrent at that moment; otherwise it kills that entry's torrent |
| Lifecycle.AddDuringFetchIsKilled | internal/engine/engine.go:548-555 | whatever hash is fetched untracked, an add of it during the wait ends as a healthy entry whose torrent is closed |
| Lifecycle.FetchesAloneStaySound | internal/engine/engine.go:540-556 | an engine that tracks nothing and only fetches keeps the ownership invariant on every run, and when all fetches have ended no torrent is left |
| Lifecycle.StepKeepsHeldLive | internal/engine/engine.go:548-555 | every fetch keeps waiting on a live torrent after a step if and only if the step drops no torrent of another fetch: for the end of a fetch, if it is the only one on that torrent |
| Lifecycle.RunKeepsHeldLive | internal/engine/engine.go:548-555 | over a run no fetch is ever left with a closed torrent if and only if all its steps are such |
| Lifecycle.OverlappingFetches | internal/engine/engine.go:548-555 | two overlapping fetches of one hash: when the first ends, the second waits on a closed torrent |
| Tasks.PersistThenRestore | internal/engine/engine.go:469-520 | whatever order the records were written in, restoring resumes every entry with its magnet and skip list, and nothing else |
| Tasks.EntryResumes | internal/engine/engine.go:469-520 | after persisting and restoring the same hashes are listed, each with its magnet and a skip list of exactly its deselected files |
| Tasks.RestoresFirst | internal/engine/engine.go:500-519 | of any records those that name a torrent, by magnet or else by hash, are restored, of several for one torrent the first, with its magnet and skip list |
| Tasks.SelectionAcrossSessions | internal/engine/engine.go:469-520 | and so an entry keeps its selection iff it was initialised or deselects nothing |
| Engine.Engine.Track | internal/engine/engine.go:260-279 | a healthy entry is returned unchanged; a missing or failed one is replaced by a new download that starts to wait |
| Engine.Engine.AddMagnet | internal/engine/engine.go:190-198 | an error leaves the engine and the state file as they were; else the entry of the named hash is tracked and the list saved |
| Engine.Engine.AddInfoHash | internal/engine/engine.go:201-214 | the same for an info-hash |
| Engine.Engine.AddTorrentFile | internal/engine/engine.go:217-258 | the same for a .torrent file or URL, whose metadata a tracked torrent takes only if it has none |
| Engine.Engine.Remove | internal/engine/engine.go:360-380 | an unknown hash is an error; else the entry goes, its torrent is closed, nothing else changes, and the list is saved |
| Engine.Engine.Restart | internal/engine/engine.go:388-443 | an unknown hash is an error; else a new download with the same magnet, the deselected indices (or the old skip list without metadata), no samples, not paused, on a new torrent with the same files (or on the live torrent of a fetch, if the old download had failed); if the re-add fails the entry is lost and the state file stays as it was |
| Engine.Engine.MetadataArrives | internal/engine/engine.go:284-297 | a torrent without metadata gets what arrives, with no file requested; one with metadata keeps it; at any time, and the engine stays valid and its books as they were |
| Engine.Engine.EndWait | internal/engine/engine.go:281-307 | metadata initialises the selection and projects it, a closed torrent does nothing, a timeout fails the download and drops its torrent; all of it keeps the engine valid (ownership, one owner per torrent, every selection projected), also for a download no longer listed |
| Engine.Engine.PersistState | internal/engine/engine.go:455-489 | the file lists every entry once, with its magnet and deselected files, and nothing else; no file if persistence is off |
| Engine.Engine.Restore | internal/engine/engine.go:494-520 | from any file contents: exactly the usable records become entries, the first of a hash winning, each with its magnet and skip list, healthy and without samples |
| Engine.Engine.BeginFetch | internal/engine/engine.go:548 | the fetch gets the live torrent of its hash, or a new one; the list stays as it is and the engine valid |
| Engine.Engine.EndFetch | internal/engine/engine.go:549-555 | the torrent is dropped if it is still live, and nothing else; the engine stays valid if and only if no healthy entry uses it by then; any other fetch of that torrent is left with a closed one |
| Watchdog.CompletedIsFinished | internal/tui/app.go:415-420 | a download counts as completed iff some wanted file has bytes and every wanted file is complete |
| Watchdog.IsStalled | internal/tui/app.go:469-480 | stalled iff the metadata is known, the download is neither paused nor completed, has no active peer and a rate below 1, and its stall began 180 s ago or more |
| Watchdog.StalledExactly | internal/tui/app.go:469-480 | the same over the samples taken: since one of them, 180 s ago or more, none saw a peer or as many bytes as seconds |
| Watchdog.Pane.TogglePause | internal/tui/app.go:224-232 | flips the pause of any download ever made, listed or not, and the engine stays valid: every selection is still projected |
| Watchdog.Pane.ToggleFile | internal/tui/app.go:526-534 | without an error the file breakdown afterwards shows that file with the opposite flag and every other file as before, and the engine stays valid; the errors change nothing |
| Watchdog.Pane.SelectAll | internal/tui/app.go:535-540 | selects or deselects all files, and the engine stays valid |
| Watchdog.Pane.PruneCompleted | internal/tui/app.go:427-449 | removes exactly the completed downloads other than the pinned one |
| Watchdog.TurnIsCheck | internal/tui/app.go:469-480 | restarting or sparing a download is the check step of the watch whose restarts are spaced |
| Watchdog.Pane.RestartStalled | internal/tui/app.go:462-486 | exactly the listed, unpinned downloads with metadata, neither paused nor completed, without a peer, below 1 byte/s and stalled for 180 s are replaced by another with the same hash, magnet and deselected indices, unpaused and without samples, or lost if the client refuses them; all others stay the same objects; a selection that was not initialised yet is handed on as nothing deselected |
| PartFiles.MigratePartFiles | internal/engine/engine.go:146-163 | for every order of the walk: no file is lost or overwritten, everything else stays as it is, a file that moves loses the suffix `.part` and nothing else, and each does that has such a name, free and readable |
| PartFiles.PartOf | internal/engine/engine.go:146-160 | a file r.part is to be renamed iff r is not empty, ends in no slash, is free, and can be examined |
| Sizes.ExponentFits | internal/search/search.go:260-265 | for 1024 <= n < 2^63 the unit index is at most 5, the divisor at most 2^60, and it divides n into 1 to 1024 units |
| Sizes.HumanSize | internal/search/search.go:252-266 | the loop, which never leaves int64, prints the text of that unit |
| Sizes.PrintedUnit | internal/search/search.go:252-266 | ? for sizes that are not positive; KB, MB, GB, TB, PB and EB from 2^10, 2^20, 2^30, 2^40, 2^50 and 2^60 |
| Sizes.TenthsNearest | internal/search/search.go:265 | the printed tenths are those nearest to n, of two the even ones, below 2^53; for every int64, give or take the 512 bytes that float64 is off |
| Sizes.RoundTrip | internal/search/nyaa.go:107-133 | what is parsed back is n itself below 1024; from there it is within a twentieth of the unit and one byte of n iff n < 2^50; from 2^50 on it is 0 |
| Sizes.CorrectRounding | internal/search/nyaa.go:114 | rounding the parsed decimal to the nearest float64, ties to even, is all that this needs |
| Sizes.PointMoves | internal/search/nyaa.go:114 | moving the point one place to the right multiplies the value read by ten |
| Sizes.PointAtEnd | internal/search/nyaa.go:114 | with nothing behind the point the value is that of the digits before it |
| Sizes.PointAt | internal/search/nyaa.go:114 | a number is read as the value of its digits before and behind the point, which may be missing |
| Sizes.NumberSyntax | internal/search/nyaa.go:107-117 | a run of digits and points is no number iff it has two points or no digit |
| Sizes.UnitScales | internal/search/nyaa.go:118-131 | with and without the i, in either case: K, M, G and T scale by 2^10, 2^20, 2^30 and 2^40, no prefix by 1 |
| Sizes.UnitsOnly | internal/search/nyaa.go:107 | whatever is read as a unit is such a prefix, perhaps an i, and a B |
| Sizes.Reprint | internal/search/search.go:252-266 | printing what was parsed gives the same text iff the mantissa had not been rounded up to 1024.0 |
| Args.FlagSet.Parse | cmd/p2pget/main.go:130 | sets flags up to the first token that is none, and keeps the rest |
| Args.ParseArgs | cmd/p2pget/main.go:127-139 | the loop ends and leaves the positionals and flag values of the recursive definition |
| Args.ParsesItems | cmd/p2pget/main.go:123-139 | however flags and positionals are interleaved, every token is consumed once, the positionals come out in order, and the flags are set in order |
| Args.OrderInsensitive | cmd/p2pget/main.go:123-139 | lists with the same positionals and the same flags, each in order, mean the same, and the flags alone leave the same values |
| Args.AcceptsOnlyItems | cmd/p2pget/main.go:127-139 | conversely, every accepted argument list is made of such items |

## Left out

- Engine.Engine.Restart: one atomic step, as are adding, removing and the end of a wait; between the map delete and the drop, a concurrent add could be handed the torrent that is about to close (`Lifecycle.RacingAdd`).
- Engine.Engine.AddMagnet: URIs the parser accepts but the client refuses; the library accepts every parsed magnet.
- Engine.Engine.PersistState: the JSON encoding, the temporary file and its rename, and write errors; paused state is not stored, so it is not claimed to survive.
- Engine.Engine.EndFetch: whether the fetch got its metadata or ran out of time; it drops its torrent in both cases.
- Watchdog.Pane.RestartStalled: the clock is read once for the whole loop; the TUI's engine makes no fetches.
- Downloads.Download.Status: the peer and seeder counts and the name, which are copied from the library.
- Streaming.Search: the 15 second timeout, which only decides which replies are errors.
- Results.DedupAndRank: sort.Slice is represented by an insertion sort; only its promise, descending order in any tie-breaking, is used.
- Results.OrderIndependent: which title, magnet, size or date is shown; the code lets arrival order decide that.
- Engine.Engine.Remove: the deletion of the downloaded files.
- Store.Store.Search: it requires the index to agree with the table, which every run on a new file establishes (`Store.RunKeepsIndex`).
- How SQLite computes bm25 and MATCH.
- Store.Store.SaveMetadata: a transaction is one step between other callers; the store pins itself to one connection.
- Sizes.RoundTrip: `int64(v * mult)` of values outside int64, which no printed text gives.
- Fts.SanitizedIsStrings: SQLite's C strings end at a NUL character, the model's do not.
- Text: `strings.ToLower` is one mapping of characters, without Go's special cases for invalid UTF-8.
- Args.FlagSet.Parse: ContinueOnError flag sets and `-help`, which the commands do not use.
- Rates are real numbers instead of float64.
- Info-hashes are numbers; parsing 40 hex digits is a parameter of the callers.
- PartFiles.MigratePartFiles: symbolic links, of which the rename would replace a dangling one at the plain name; every rename succeeds, and paths are separated by slashes.
- The ordering of the download list, recoverExistingData, rate limits, DHT bootstrap and the client configuration.
- The HTTP, XML and JSON of the indexers, and MagnetFromInfoHash.
- That every pending hash is fetched at some time: the replenish loop takes the 64 newest only, so one may starve.
- Rendering, key handling, ETA, progress and pagination.

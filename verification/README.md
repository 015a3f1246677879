# Verified models of vaelor's stateful and algorithmic parts

vaelor is an MCP server for source code, with an evaluation harness beside it. This project
models the parts of both whose correctness is not plain from one function: protocols between
goroutines, loops over text, and the arithmetic of the harness. Each module stands for one
source file and proves what that file is for. `dafny verify dfyconfig.toml` checks everything.

## What is modelled

**The server**

- `ReadOutput`, `Utf8`, `PageText`: the paged reader of spilled files. A file is cut into
  windows, each window gives back at most three bytes so that no UTF-8 sequence (section 4 of
  RFC 3629) straddles two pages, and the footer of a page names the next offset.
- `TokenReload`, `LogLimiter`: the bearer-token file. Any number of requests stat, compare,
  read, parse and publish while the file is edited; and the limiter of the log lines about
  rejected requests.
- `GraphRefresher`, `Watcher`: file events go through a bounded buffer to one worker, which
  triggers a debounced, single-flighted refresh of the repository's graph.
- `CodeHealth`: who owns a cloned repository while a background build reads it, the one build
  per repository key, and the reference counts of shared clone directories.
- `Provenance`: the request-scoped slot that goroutines merge an envelope into.
- `DupFilter`: the duplicate-group filter with its cache of body lengths, keyed by a
  hand-written integer printer.
- `Ladder`, `Paths`: choosing the fullest rendering that fits a byte budget, and the pointer to
  the saved full result, whose room is reserved beforehand.
- `Cdata`: CDATA wrapping, read back under section 2.7 of XML 1.0.
- `CallTree`: pruning a call trace to depth 1 and the counts that are left below that.
- `Hypotheses`: the upstream and downstream phases of an investigation, which recognise a
  hypothesis by parsing its printed subject.

**The evaluation harness**

- `EvalRunner`: the worker pool, the final stable sort and the retry loop.
- `Metrics`, `Aggregates`: nDCG@10, recall, reciprocal rank; means, nearest-rank percentiles
  and their grouping.
- `Gate`: pairing of two runs, the paired t-test, the delta block and the gate's verdict.
- `RepoMap`: parsing a repo map and applying it to the golden records.

`Seqs`, `Text`, `Sorting` and `EvalData` hold what several modules share.

## How concurrency is modelled

A protocol is a datatype of steps, a predicate that says when a step may happen and a function
that applies it; each step is one critical section, system call or channel operation. A run is
any sequence of enabled steps, so that a statement about `Final` of a run covers every
interleaving of any number of goroutines. Where the source keeps the state in an object, a class
with the same fields has one method per critical section, whose contract is that step. Some
states carry history that the program does not keep (which version of the file a load saw, when
a clone was taken); it only serves to say what is promised.

## Where the code and its comments part

The models follow the code.

- A refresher key can have two live timers: a fire that was too late to be stopped removes the
  map entry of a newer timer (`TwoLiveTimersHappen`). `FirstStrayIff` says which step makes a
  live timer stray from the map, and `TriggerLeavesTwoIff` that a trigger then leaves two
  timers live.
- The newest edit of a repository may never be seen by a run, because a fire that joins a
  running refresh starts none of its own (`NewestTriggerCanBeUnseen`). Once all is quiet it was
  seen if and only if, after the trigger, a fire of the key found no refresh in flight, or the
  trigger's own fire joined one that had not started before it (`NewestTriggerSeenIff`).
- A load that saw the previous file and publishes late brings the old tokens back
  (`StaleLoadCanLandLast`); a fresh set is safe from that if and only if no such load is in
  flight (`StaysFreshIffNoStaleLoad`). The identity is then the old one as well, so the next
  refresh repairs it (`RefreshEndsCoherent`).
- A clone directory is deleted after the reference lock is released. Whenever a deletion is
  pending, a request that arrives can take the directory and read it while it is being removed
  (`EveryRemovalCanBeMet`), or after it is gone (`RemovalOutlived`), although its reference is
  counted. In a run some request reads a tree that is being deleted, or was deleted while the
  request held it, if and only if some request that took a directory during its pending deletion
  starts to read it at all (`HarmlessIffNoLateStart`).
- The log limiter promises one line per key per interval, but it forgets every key when its table
  is full (`TwoLinesInOneSecond`). After a line, the next call for the key within the interval is
  written if and only if the table was emptied in between (`SecondLineIffEmptied`).
- With watched roots that nest, which repository an event refreshes depends on the order of a map
  (`NestedRootsAmbiguous`); it never does if and only if no root is under another
  (`DispatchUniqueIffNonNested`).
- The two phases of an investigation can add one symbol twice: the first adds external symbols
  without a file, which the key set of the second leaves out (`ExternalAddedTwiceExample`).
  `DistinctIffAllRecognised` says exactly when they cannot.
- Pairing keys concatenate repository and query, so different queries can share one; two
  repositories can collide if and only if one name, with the separator, begins the other
  (`KeysCollideIff`). Exchanging baseline and candidate mirrors a metric for all its values if and
  only if no result of either run matches two of the other (`ExchangeIffMatchedOnce`).
- With zero variance and a nonzero mean the t-test gives p = 0, where its comment says 1
  (`DegenerateTest`).
- A file label matches any file that ends in its text, also in the middle of a file name, so that
  the second suffix test of the source adds nothing (`FileLabel`).
- nDCG@10 exceeds 1 when more hits than labels are relevant, since several hits may match one
  label (`NdcgBoundExact`).
- The headroom of 256 bytes does not cover every file name: a page of `read_output` stays
  within its budget exactly if the longest reply for its name does (`RepliesFitIff`).
- `renderLadder` raises a budget below 512 to 512, so the text keeps the budget only from there
  on (`BudgetKeptIffAboveFloor`).
- The body scan of the duplicate filter reports one line more than its cap, not the cap.
- The final sort of `runEval` is called unneeded in a comment, but it also orders by query; the
  file order survives only among equal queries of a repository.
- A repo-map key is also reported as unmatched when its path is empty, or when the records that
  carry it belong to a file that is mapped by name (`UnmatchedIff`).
- `itoa` prints the smallest machine integer as a bare sign; it is still distinct from every
  other numeral (`NumeralInjective`).

## Model

| member | source | states |
|---|---|---|
| ReadOutput.ReadAt | cmd/vaelor/tool_read_output.go:75-79 | the read fills the buffer with the file's bytes from the offset and falls short only at its end |
| ReadOutput.TrimToRune | cmd/vaelor/tool_read_output.go:84-88 | the back-off loop stops at the longest well-formed prefix within three bytes, or gives up after three |
| ReadOutput.HandleReadOutput | cmd/vaelor/tool_read_output.go:58-101 | for every size, content and offset the method gives the reply of which the following members say what it is |
| ReadOutput.ReplyCases | cmd/vaelor/tool_read_output.go:58-97 | which answer each call gives: nothing exactly for an empty file, each error exactly when it applies, and otherwise a page from the offset that ends with the file or is the longest well-formed prefix of what was read, at most three bytes short of it |
| ReadOutput.PageExact | cmd/vaelor/tool_read_output.go:71-101 | for an unchanging file a page is never empty, holds exactly the bytes it announces and points to its own end exactly when bytes remain |
| ReadOutput.PagesReassemble | cmd/vaelor/tool_read_output.go:63-101 | following the footers ends, every page makes progress and starts where the last one stopped, and the chunks concatenate to the file |
| ReadOutput.TrimFindsBoundary | cmd/vaelor/tool_read_output.go:80-88 | on well-formed content the back-off finds the nearest character boundary and never gives up the whole page |
| ReadOutput.PageOnBoundary | cmd/vaelor/tool_read_output.go:80-97 | a page of well-formed content is well-formed, ends on a character boundary, and no longer page in the window would |
| ReadOutput.PagesValid | cmd/vaelor/tool_read_output.go:80-101 | every page of well-formed content is well-formed and starts on a boundary, and decoding page by page is decoding the file |
| ReadOutput.ReadWholeFile | cmd/vaelor/tool_read_output.go:63-101 | from offset 0 the pages give back the file byte for byte and character for character |
| ReadOutput.PageOfEncoded | cmd/vaelor/tool_read_output.go:71-101 | a page that starts at a character of an encoded text is the encoding of the longest run of characters that fits the window |
| ReadOutput.PagesOfEncoded | cmd/vaelor/tool_read_output.go:63-101 | following the footers of an encoded text gives the encodings of consecutive pieces of it, none of which could have taken one character more |
| Utf8.DecodeEncode | cmd/vaelor/tool_read_output.go:80-85 | for every sequence of Unicode scalar values, encoded as section 3 of RFC 3629 says, decoding gives it back |
| Utf8.ValidIffEncoded | cmd/vaelor/tool_read_output.go:85 | bytes are well-formed if and only if they encode some sequence of scalar values |
| Utf8.ValidPrefixIffBoundary | cmd/vaelor/tool_read_output.go:85 | UTF-8 is prefix-decodable: the well-formed prefixes of well-formed text are exactly those that end between characters |
| Utf8.BoundaryNearby | cmd/vaelor/tool_read_output.go:80-85 | a character boundary lies at most three bytes before any position of well-formed text |
| Utf8.DecodeSplit | cmd/vaelor/tool_read_output.go:80-85 | decoding splits at character boundaries |
| PageText.RepliesFitIff | cmd/vaelor/tool_read_output.go:38-41 | for every name, every way of quoting it and every k, all replies for files below 10^k bytes keep the 9000-byte ceiling if and only if the longest one, a function of the two name lengths and k, does |
| PageText.LongReply | cmd/vaelor/tool_read_output.go:96-101 | for every name and k a file and an offset whose reply has that longest length |
| PageText.TextLeadsOn | cmd/vaelor/tool_read_output.go:96-100 | for every name and way of quoting it, the numbers read back from a header are the start, end and total, and those from a footer are the next offset and the bytes left |
| TokenReload.ParseTokens | cmd/vaelor/http_auth.go:161-182 | it succeeds exactly when every line scans and the file holds tokens, all of 32 bytes or more; then a digest is in the result if and only if it is that of a trimmed line, after the byte order mark, that is neither empty nor begins with '#' |
| TokenReload.CommentsIgnored | cmd/vaelor/http_auth.go:167-169 | inserting a line that trims to nothing or to a comment anywhere after the first line leaves the result unchanged |
| Text.TrimSpaceOf | cmd/vaelor/http_auth.go:166 | trimming removes white space around trimmed text and nothing else |
| Text.TrimSpaceGivesUp | cmd/vaelor/http_auth.go:166 | what trimming removes from any string is white space at its two ends |
| Text.ByteLenIsEncoded | cmd/vaelor/http_auth.go:170 | the length in bytes is that of the UTF-8 encoding |
| TokenReload.TokenSet.Load | cmd/vaelor/http_auth.go:184-203 | a load publishes digests, identity and time together, or changes nothing |
| TokenReload.TokenSet.Changed | cmd/vaelor/http_auth.go:208-210 | the file counts as unchanged exactly when inode, mtime and size are the stored ones |
| TokenReload.TokenSet.Refresh | cmd/vaelor/http_auth.go:214-241 | which of its five outcomes a refresh has, and that only a successful reload replaces the set |
| TokenReload.TokenSet.Accepts | cmd/vaelor/http_auth.go:245-255 | a token is accepted if and only if its digest is in the set |
| TokenReload.InvStep | cmd/vaelor/http_auth.go:184-241 | every step of every thread keeps: what is stored was stat'ed at one state of the file and parsed from that or a later one |
| TokenReload.Coherence | cmd/vaelor/http_auth.go:184-241 | in every interleaving, whenever the stored identity is the file's, the stored digests are the parse of its content; the set is never empty |
| TokenReload.AcceptedTokenWasInFile | cmd/vaelor/http_auth.go:161-255 | a token is accepted only if some state of the file held it on a line of its own; it has at least 32 bytes and does not begin with '#' |
| TokenReload.AcceptedIffHeld | cmd/vaelor/http_auth.go:161-255 | in every interleaving, while the stored identity is the file's, a token is accepted if and only if the file holds it |
| TokenReload.CommitIsFresh | cmd/vaelor/http_auth.go:184-203 | publishing a load that saw the current identity stores the current file |
| TokenReload.SettleStep | cmd/vaelor/http_auth.go:214-241 | while the file is stable no step of another thread undoes the progress of a refresh |
| TokenReload.RefreshEndsCoherent | cmd/vaelor/http_auth.go:212-241 | with a stable valid file and no stale load in flight, a refresh that passes the throttle ends with the file's tokens stored, and they stay |
| TokenReload.StaysFreshIffNoStaleLoad | cmd/vaelor/http_auth.go:184-241 | a set that is the file's stays so in every run without edits if and only if no load in flight saw an older identity and holds, or will read, something valid |
| TokenReload.StaleLoadCanLandLast | cmd/vaelor/http_auth.go:184-203 | the run that shows why loads in flight have to be excluded |
| LogLimiter.Limiter.Allow | cmd/vaelor/http_auth.go:268-280 | one line per key per interval, the table cleared when full and never over 256 keys |
| LogLimiter.EmptiesArePaidFor | cmd/vaelor/http_auth.go:257-280 | over every run each clearing is paid for by 256 lines, and the table never holds more than 256 keys |
| LogLimiter.OneLinePerInterval | cmd/vaelor/http_auth.go:257-280 | within one interval a key gets at most one line more than the table is cleared |
| LogLimiter.FloodBound | cmd/vaelor/http_auth.go:257-280 | however many keys compete, a key gets at most 1 + lines/256 lines in an interval (plus the table's share at the start) |
| LogLimiter.SecondLineIffEmptied | cmd/vaelor/http_auth.go:272-278 | after a line, the next call for its key within the interval is allowed if and only if the table was emptied at some call in between |
| LogLimiter.TwoLinesInOneSecond | cmd/vaelor/http_auth.go:257-280 | 257 ports of one peer and the first of them again: its key gets two lines within one second |
| LogLimiter.SuppressedOnlyWhenFresh | cmd/vaelor/http_auth.go:272-274 | a line is suppressed only if its key had one less than an interval before |
| GraphRefresher.Refresher.Trigger | cmd/vaelor/graph_refresher.go:164-182 | the critical section of a trigger is the trigger step of the protocol |
| GraphRefresher.Refresher.FireDelete | cmd/vaelor/graph_refresher.go:190-195 | a fire removes whatever entry its key has |
| GraphRefresher.Refresher.FireDoChan | cmd/vaelor/graph_refresher.go:197-217 | a fire leads a new single-flight call or joins the one in flight |
| GraphRefresher.Refresher.RunBegins | cmd/vaelor/graph_refresher.go:197-203 | a run counts as started when the single-flight function begins, having seen every trigger accepted so far |
| GraphRefresher.Refresher.RunEnds | cmd/vaelor/graph_refresher.go:203-216 | a run counts as success or failure, never both |
| GraphRefresher.InvStep | cmd/vaelor/graph_refresher.go:164-223 | every step keeps the timers, the single-flight group, the waiting fires and the counters consistent |
| GraphRefresher.NewestTriggerNotLost | cmd/vaelor/graph_refresher.go:158-195 | the newest accepted trigger of a key always has a live timer or a fire already begun |
| GraphRefresher.Conservation | cmd/vaelor/graph_refresher.go:164-223 | accepted triggers = live + stopped + fired timers; runs started are at most the fires; started = success + failed + running |
| GraphRefresher.TriggersConserved | cmd/vaelor/graph_refresher.go:164-217 | in every run each trigger is skipped, by a refresher that is off, or makes a timer for its key and root; it is counted as coalesced exactly when no fire has removed its key since the key's last trigger; and a run indexes the root that the trigger of its leader asked for |
| GraphRefresher.OneRunPerKey | cmd/vaelor/graph_refresher.go:184-217 | at most one index run per key at a time |
| GraphRefresher.TwoLiveTimersNeedALateFire | cmd/vaelor/graph_refresher.go:170-195 | in every run, two timers of a key are live only if earlier a fire of the key removed the entry of another timer that was live |
| GraphRefresher.TwoLiveTimersHappen | cmd/vaelor/graph_refresher.go:170-195 | a run with two live timers for one key |
| GraphRefresher.TriggerLeavesTwoIff | cmd/vaelor/graph_refresher.go:170-181 | in every run, a trigger leaves two timers of its key live if and only if some live timer of the key was not its map entry |
| GraphRefresher.FirstStrayIff | cmd/vaelor/graph_refresher.go:190-195 | a key gets its first live timer outside the map exactly when a fire of the key removes the entry of another timer that is live |
| GraphRefresher.ReturnedFire | cmd/vaelor/graph_refresher.go:190-223 | a returned fire's call has its key and is over, and the run of a call started after the trigger of the fire that led it |
| GraphRefresher.NewestTriggerSeenIff | cmd/vaelor/graph_refresher.go:164-223 | once every timer of a key is stopped or its fire has returned, a run of the key started after its newest trigger if and only if, after that trigger, some fire of the key found the group free, or the trigger's own fire joined a call not started before it |
| GraphRefresher.NewestTriggerCanBeUnseen | cmd/vaelor/graph_refresher.go:184-223 | a run in which everything has ended and no run started after the newest trigger |
| Watcher.UniqueOwnerIffNonNested | cmd/vaelor/filewatcher.go:193-201 | a path is under at most one root for all paths if and only if no root is under another |
| Watcher.UnderIffComponents | cmd/vaelor/filewatcher.go:196 | a path is under a root if and only if the components of the root begin those of the path |
| Watcher.SiblingsApart | cmd/vaelor/filewatcher.go:196 | different directories of one parent are never under each other, also when one name begins the other |
| Watcher.ProcessWatchEvent | cmd/vaelor/filewatcher.go:192-228 | whatever the map order, the event is dispatched to a root it is under with its relative path, or skipped when there is none |
| Watcher.DispatchDetermined | cmd/vaelor/filewatcher.go:193-206 | with roots that do not nest the lookup may give exactly one dispatch |
| Watcher.DispatchUniqueIffNonNested | cmd/vaelor/filewatcher.go:193-206 | the dispatch is the same for every map order and every event if and only if no root is under another |
| Watcher.NestedRootsAmbiguous | cmd/vaelor/filewatcher.go:195-201 | two nested roots and an event for which the loop may give either of two different dispatches |
| Watcher.SiblingEvent | cmd/vaelor/filewatcher.go:192-206 | with watched directories of one parent, an event below one of them is dispatched to that one with the rest of its path, whatever the map order; an event on a root keeps its whole path |
| Watcher.Pipeline.Forward | cmd/vaelor/filewatcher.go:130-142 | one turn of the forwarder counts the event and keeps it, or drops it when the buffer is full |
| Watcher.Pipeline.Work | cmd/vaelor/filewatcher.go:146-150 | for every repo map, one turn of the worker takes the oldest event and dispatches it as some order of the map does |
| Watcher.PipelineConservation | cmd/vaelor/filewatcher.go:119-153 | received = dropped + in hand + buffered + in progress + processed; the buffer never exceeds 100; what was kept is processed in the order received |
| Watcher.OneRefreshPerEvent | cmd/vaelor/filewatcher.go:146-228 | every processed event has one dispatch, which some map order gives; with roots that do not nest it is to the unique root the event is under, or to none |
| CodeHealth.CloneRefs.AcquireCloneRef | internal/ingest/cloneref.go:34-41 | taking a clone adds one to its directory's count, and nothing for no directory |
| CodeHealth.CloneRefs.ReleaseCloneRef | internal/ingest/cloneref.go:51-74 | releasing subtracts one, asks for deletion exactly at the last reference, and ignores a release without one |
| CodeHealth.MovedCoherent | cmd/vaelor/tool_code_health.go:85-138 | every step of a request or its build keeps who owes the cleanup |
| CodeHealth.InvStep | cmd/vaelor/tool_code_health.go:39-138 | every step keeps ownership, claimed keys, reference counts and the order of holders and deletions |
| CodeHealth.CleanedExactlyOnce | cmd/vaelor/tool_code_health.go:39-138 | in every interleaving a resolved clone is cleaned up exactly once and never while its computation reads it or its key is claimed |
| CodeHealth.OneBuildPerKey | cmd/vaelor/tool_code_health.go:122-128 | at most one background build of a repository key computes at a time |
| CodeHealth.KeyCanBeReleased | cmd/vaelor/tool_code_health.go:39-56 | from every reachable state the request that claimed a key can run on alone, in at most three steps, to give it back |
| CodeHealth.RunsEnd | cmd/vaelor/tool_code_health.go:39-138 | without new requests every run ends, after at most as many steps as the requests have work left |
| CodeHealth.QuietMeansClean | cmd/vaelor/tool_code_health.go:39-138 | where no request can take a step, every key is released, every reference dropped, and every resolved clone was cleaned up exactly once |
| CodeHealth.RefCountIsHolders | internal/ingest/cloneref.go:26-74 | the count of a directory is always the number of requests that hold it |
| CodeHealth.LastReleaseRemoves | internal/ingest/cloneref.go:51-74 | a step lets go of a directory's last holder if and only if it brings about its deletion |
| CodeHealth.RemovalMeetsOnlyLatecomers | internal/ingest/cloneref.go:43-74 | a directory about to be deleted is read only by requests that took it after the last release |
| CodeHealth.EveryRemovalCanBeMet | internal/ingest/cloneref.go:62-73 | in every reachable state with a pending deletion, a request that has arrived can take the directory and read it before it is deleted |
| CodeHealth.TrackStep | internal/ingest/cloneref.go:43-74 | every step keeps: a holder took its directory during a pending deletion if and only if that directory is gone or about to be |
| CodeHealth.HarmStep | internal/ingest/cloneref.go:43-74 | a step brings about a read of a tree that is, or while held was, deleted exactly when such a request starts to read |
| CodeHealth.HarmlessIffNoLateStart | internal/ingest/cloneref.go:12-74 | in a run some request reads a tree that is being deleted, or was deleted while it held it, if and only if some request that took a directory while its deletion was pending starts to read it at all |
| CodeHealth.RemovalOutlived | internal/ingest/cloneref.go:62-73 | in every reachable state with a pending deletion, a request that has arrived can take the directory and read it after it is deleted, while its reference is counted |
| CodeHealth.LatecomerReadsRemovedTree | internal/ingest/cloneref.go:62-73 | the run in which such a request exists |
| Provenance.EnvelopeRef.MergeEnvelope | cmd/vaelor/provenance_ctx.go:90-118 | merging in place is the field-wise merge, and the duration is untouched |
| Provenance.MergeFills | cmd/vaelor/provenance_ctx.go:87-118 | a merge keeps every non-empty field and fills every empty one |
| Provenance.Slot.RecordProvenance | cmd/vaelor/provenance_ctx.go:58-71 | the root pair is written once |
| Provenance.Slot.RecordEnvelope | cmd/vaelor/provenance_ctx.go:77-85 | recording an envelope is a merge into the slot's envelope and leaves the roots alone |
| Provenance.Slot.ProvenanceSnapshot | cmd/vaelor/provenance_ctx.go:123-134 | the snapshot is the root pair, or nothing when none was recorded |
| Provenance.Slot.EnvelopeSnapshot | cmd/vaelor/provenance_ctx.go:141-149 | the snapshot is the envelope merged so far |
| Provenance.SnapshotIsFirstWriter | cmd/vaelor/provenance_ctx.go:19-38 | in every interleaving each field of the snapshot is the first non-empty value recorded in lock order, and no recorded duration is merged |
| Provenance.RootsAreFirst | cmd/vaelor/provenance_ctx.go:58-71 | the root pair is the first one recorded |
| Provenance.OrderIrrelevantIffWritersAgree | cmd/vaelor/provenance_ctx.go:23-37 | the envelope is the same for every order of the writers if and only if no two of them give different values for a field |
| DupFilter.Itoa | cmd/vaelor/dup_filters.go:266-287 | the printer stays in its 20-byte buffer for every machine integer and gives its numeral |
| DupFilter.NumeralParses | cmd/vaelor/dup_filters.go:266-287 | the numeral parses back to the number for every integer but the smallest |
| DupFilter.NumeralInjective | cmd/vaelor/dup_filters.go:266-287 | no two machine integers, the smallest included, have one numeral |
| DupFilter.CacheKeyInjective | cmd/vaelor/dup_filters.go:47-72 | different (file, line) pairs have different cache keys |
| DupFilter.ScanLine | cmd/vaelor/dup_filters.go:214-225 | the brace counter finds the first brace that closes the body, and otherwise carries on its state |
| DupFilter.SymbolLineCount | cmd/vaelor/dup_filters.go:174-237 | the scan reports the lines up to the first line that ends the body, within the cap |
| DupFilter.LineCache.Lookup | cmd/vaelor/dup_filters.go:47-72 | a lookup gives the true line count, from the cache or by scanning, and leaves the cache sound |
| DupFilter.CacheStaysSound | cmd/vaelor/dup_filters.go:47-72 | adding an entry never falsifies another |
| DupFilter.LineCache.GroupPasses | cmd/vaelor/dup_filters.go:47-72 | with a sound cache a group passes exactly when it passes without one |
| DupFilter.PathFilterComponents | cmd/vaelor/dup_filters.go:76-96 | a file passes the path filter if and only if the components of the filter's directory begin those of the file's path; an empty, "." or "/" path filters nothing |
| DupFilter.FilterDupGroups | cmd/vaelor/dup_filters.go:27-45 | the memoised filter is the cache-free filter for every list of groups, in order |
| Ladder.PickFitting | internal/mcpmeta/budget.go:244-288 | the first rung that fits is chosen, every rung before it is rendered once and none after it; otherwise the last is cut and marked |
| Ladder.PickedMeans | internal/mcpmeta/budget.go:255-288 | the rung is the first whose text with its note keeps the budget; when there is none, the beginning of the last one fills the budget up to the marker, or stands before the short marker as far as it fits |
| Ladder.NoteTells | internal/mcpmeta/budget.go:290-294 | the numbers read back from a note are the rung and how many there are, and it ends in the name |
| Ladder.MarkerTells | internal/mcpmeta/budget.go:296-301 | the number read back from a full marker is the budget, and it ends in the number of rungs and the name |
| Ladder.PickedFits | internal/mcpmeta/budget.go:239-288 | the result keeps the budget for every ladder if and only if the budget has room for the shortest marker or is not positive |
| Ladder.PointerWithinReserve | cmd/vaelor/ladder.go:75-105 | the reserve bounds the pointer for every output directory, tool name, length and timestamp for which quoting does not outgrow the directory's share; it never does for a tool name without escapes |
| Ladder.BudgetKeptIffAboveFloor | cmd/vaelor/ladder.go:47-53 | without a file the text keeps the budget for every ladder if and only if the budget is at least 512 |
| Ladder.RenderLadder | cmd/vaelor/ladder.go:39-73 | the body keeps the budget; exactly a condensed result is saved, in full; with room for the reserve the pointer is never dropped |
| Ladder.PointerTells | cmd/vaelor/ladder.go:102-105 | what is read back from a pointer is how many characters were saved and where |
| Paths.CleanKeepsDestination | cmd/vaelor/helpers.go:110 | a cleaned path leads where the path does, from every working directory, and has no empty or "." component and ".." only in front |
| Paths.CleanShortens | cmd/vaelor/ladder.go:87-89 | cleaning a path never makes it longer |
| Paths.JoinPathKeepsName | cmd/vaelor/helpers.go:109-110 | joining keeps the file name as the base and adds at most one byte |
| Paths.JoinPathKeepsLastPart | cmd/vaelor/helpers.go:109-110 | the same for a file name that itself has directories in it |
| Cdata.ReadEscaped | cmd/vaelor/helpers.go:29-33 | the escaped text followed by the closing bracket reads back as the text |
| Cdata.WrapRoundTrip | cmd/vaelor/helpers.go:29-33 | for every string, reading the wrapped text as consecutive CDATA sections consumes it and yields the string |
| Cdata.WrapInjective | cmd/vaelor/helpers.go:29-33 | different strings wrap differently |
| Cdata.PlainBracketsSuffice | cmd/vaelor/helpers.go:31 | the escape is needed exactly for strings that contain the closing bracket |
| CallTree.CountTraceNodes | cmd/vaelor/tool_call_trace.go:107-113 | the count is the number of nodes of the tree, roots included |
| CallTree.CountTraceFiles | cmd/vaelor/tool_call_trace.go:116-123 | the set gains exactly the non-empty files of the tree's nodes |
| CallTree.PruneTraceToDepth1 | cmd/vaelor/tool_call_trace.go:130-149 | the pruned tree and the number elided |
| CallTree.PruneChildrenShallow | cmd/vaelor/tool_call_trace.go:172-185 | the second pruning gives the same tree |
| CallTree.PruningKeepsTopLevels | cmd/vaelor/tool_call_trace.go:125-149 | the pruned tree is exactly the part of the full tree down to depth 1, in order |
| CallTree.ElidedIsWhatIsMissing | cmd/vaelor/tool_call_trace.go:125-149 | nodes of the full tree = nodes of the pruned tree + elided, and the elided ones are those at depth 2 or more |
| CallTree.PruningIsIdempotent | cmd/vaelor/tool_call_trace.go:130-185 | pruning again changes nothing and elides nothing |
| CallTree.BuildTraceCounts | cmd/vaelor/tool_call_trace.go:151-168 | the counts rung reports all nodes but the roots, the files of those nodes, and the pruned list |
| Hypotheses.FlattenComplete | cmd/vaelor/tool_debug_investigate_upstream.go:130-151 | every node below the roots that no skipped node cuts off is in the flat list with its true depth |
| Hypotheses.FlattenSound | cmd/vaelor/tool_debug_investigate_upstream.go:130-151 | nothing else is in the flat list, and every depth is at least 1 |
| Hypotheses.FlattenInOrder | cmd/vaelor/tool_debug_investigate_upstream.go:130-151 | the flat list is the depth-first list of the nodes below the roots: its entries stand at ascending paths, and at the path of every node that no skipped node cuts off |
| Hypotheses.SubjectParsesBack | cmd/vaelor/tool_debug_investigate_upstream.go:105-117 | a printed subject parses back to the symbol's name if and only if the name is non-empty and has no space |
| Hypotheses.KeyRecognisedIffPrintable | cmd/vaelor/tool_debug_investigate_upstream.go:155-170 | an added hypothesis is recognised by its node's key if and only if its symbol is printable and has a file |
| Hypotheses.BuildHypothesisKeySet | cmd/vaelor/tool_debug_investigate_upstream.go:155-170 | the set holds the key of every hypothesis with a file, and nothing else |
| Hypotheses.AppendNodes | cmd/vaelor/tool_debug_investigate_upstream.go:74-93 | the inner loop considers the nodes in order, skipping known keys and stopping at nine |
| Hypotheses.RunUpstreamPhase | cmd/vaelor/tool_debug_investigate_upstream.go:36-96 | the phase walks the first eligible seeds, leaving the list alone without a tracer |
| Hypotheses.RunDownstreamPhase | cmd/vaelor/tool_debug_investigate_downstream.go:36-92 | the same for the callees of the top hypothesis |
| Hypotheses.UpstreamPicks | cmd/vaelor/tool_debug_investigate_upstream.go:48-95 | the phase adds exactly the first nine nodes with keys that are neither known nor met before, in the order of the seeds and their traces, each with its subject, file, lines, evidence and 0.4 over its depth |
| Hypotheses.DownstreamPicks | cmd/vaelor/tool_debug_investigate_downstream.go:36-92 | the same for the trace of the top hypothesis, with 0.3 over the depth |
| Hypotheses.BothPhases | cmd/vaelor/tool_debug_investigate.go:277-285 | the given hypotheses stay a prefix, at most nine are added by each phase at depth 1 or more, the keys each adds are distinct and new, and those of both are distinct if the first phase added printable symbols |
| Hypotheses.DistinctIffAllRecognised | cmd/vaelor/tool_debug_investigate_downstream.go:36-92 | whatever the callees, the keys both phases add are distinct if and only if there is no seed to walk down from or the first phase's result is recognised by the keys of all it added |
| Hypotheses.PrintableRecognised | cmd/vaelor/tool_debug_investigate_upstream.go:155-170 | every printable symbol the first phase added is recognised in its result |
| Hypotheses.ExternalAddedTwice | cmd/vaelor/tool_debug_investigate_upstream.go:155-170 | a symbol without a file is added by both phases, whatever its name |
| Hypotheses.ExternalAddedTwiceExample | cmd/vaelor/tool_debug_investigate_downstream.go:36-92 | one concrete trace for which that happens: f, called from outside any function, calls an unresolved f |
| EvalRunner.StableSortUnique | cmd/eval/runner.go:70-79 | a stable order is determined by the order of the keys and of the results within each key |
| EvalRunner.SortStableCorrect | cmd/eval/runner.go:72-79 | the sort is ascending by repository and query and keeps equal keys in order |
| EvalRunner.FlatQueries | cmd/eval/golden.go:133-145 | the records of the files in alphabetical order, whatever the map order |
| EvalRunner.RunEval | cmd/eval/runner.go:50-80 | for every schedule of any number of workers the pool ends and takes every index exactly once; the results are ascending by repository, each repository's together and ascending by query, and those of one query are the sequential ones in order |
| EvalRunner.SortedResults | cmd/eval/runner.go:72-79 | the same order, stated of the sort |
| Text.LessIff | cmd/eval/runner.go:74-78 | a string is less than another if and only if it is a proper beginning of it or has the smaller character at the first difference |
| EvalRunner.RunWithRetry | cmd/eval/runner.go:90-128 | retries only after transient errors, never beyond the limit, with doubling capped pauses, and reports which of success, last error or cancellation ended it |
| Metrics.MatchExpected | cmd/eval/metrics.go:23-51 | a hit is relevant if and only if some label matches it |
| Metrics.LabelTrimmed | cmd/eval/metrics.go:26-29 | white space around a label does not matter, and a blank label matches nothing |
| Metrics.SymbolLabel | cmd/eval/metrics.go:31-36 | a label without a colon matches exactly the hits with that symbol |
| Metrics.FileLabel | cmd/eval/metrics.go:37-48 | a label path:symbol matches exactly the hits with that symbol whose file ends in the path, and, for a file name with a colon, the hit it spells out |
| Metrics.NDCG10 | cmd/eval/metrics.go:62-86 | the loops compute the discounted gain over the ideal one |
| Metrics.NdcgOfOne | cmd/eval/metrics.go:62-86 | with one label and one relevant hit, nDCG@10 is the weight of its rank over that of the first rank, and 0 beyond the tenth |
| Metrics.BetterRankCounts | cmd/eval/metrics.go:67-74 | moving a relevant hit up past one that is not, within the first ten, strictly raises nDCG@10; beyond the tenth nothing counts |
| Metrics.TopIsBest | cmd/eval/metrics.go:68-81 | m relevant hits gain no more than m relevant hits at the top would, and gain something if there is one |
| Metrics.NdcgAtMostOne | cmd/eval/metrics.go:53-86 | nDCG is in [0, 1] when no more hits of the top ten are relevant than labels count |
| Metrics.NdcgBoundExact | cmd/eval/metrics.go:68-85 | for given numbers of relevant hits and labels, nDCG is at most 1 for all inputs if and only if the hits are no more than the labels that count |
| Metrics.RecallAtK | cmd/eval/metrics.go:90-107 | the number of distinct labels found in the first k hits over the number of labels |
| Metrics.RecallBounds | cmd/eval/metrics.go:88-107 | recall is in [0, 1] and grows with k |
| Metrics.MRR | cmd/eval/metrics.go:112-122 | the reciprocal rank of the first relevant hit |
| Metrics.MetricsAgree | cmd/eval/metrics.go:62-122 | nDCG@10 > 0 iff recall@10 > 0 iff the reciprocal rank is at least 1/10 |
| Aggregates.ComputeAggregates | cmd/eval/output.go:123-153 | counts, means over the queries that did not fail, and the latency statistics |
| Aggregates.MeansRecoverSums | cmd/eval/output.go:123-153 | every result is a query or an error, and each mean times the queries is the sum over the queries |
| Aggregates.Percentile | cmd/eval/output.go:181-198 | the element at the clamped nearest rank, 0 for no latencies |
| Aggregates.PercentileIsNearestRank | cmd/eval/output.go:178-198 | at least p percent of the latencies are at most the reported one and fewer than p percent are below it |
| Aggregates.PercentileUnique | cmd/eval/output.go:178-198 | only one value has that property, so the order of the results does not matter |
| Aggregates.ComputeLatencyStats | cmd/eval/output.go:158-176 | mean and nearest-rank percentiles of the latencies as given, with p50 <= p95 <= p99 |
| Aggregates.GroupBy | cmd/eval/output.go:202-221 | one group per key in alphabetical order, each with the aggregates of exactly its results |
| Aggregates.ComputePerRepo | cmd/eval/output.go:202-221 | the groups by repository |
| Aggregates.ComputePerLanguage | cmd/eval/output.go:226-249 | the groups by language, the empty one as "unspecified" |
| Aggregates.GroupsConserve | cmd/eval/output.go:202-249 | the groups' queries, errors and retried queries add up to the overall ones and their query-weighted means recover every overall mean |
| Gate.PairedTTest | cmd/eval/ttest.go:27-64 | mean difference and p-value from the two accumulators, with the cases of unequal, empty and single samples |
| Gate.DegenerateTest | cmd/eval/ttest.go:53-59 | the variance vanishes exactly when all differences are equal; then p is 1 for no difference and 0 otherwise |
| Gate.PValueArguments | cmd/eval/ttest.go:53-82 | for a nonzero spread ss of n differences with mean m, p is the incomplete beta function at (n-1)/2, 1/2 and the share of ss in ss + n m^2 |
| Gate.MatchPairs | cmd/eval/abgate.go:209-231 | each usable candidate result is paired with the last usable baseline result of its key |
| Gate.PairsAre | cmd/eval/abgate.go:211-231 | the paired candidates are, in order, the usable ones with a usable baseline result of the same key, each paired with the last of these |
| Gate.EvaluateGate | cmd/eval/abgate.go:208-312 | the verdict passes if and only if there are two pairs or more, the nDCG@10 delta is positive with p below 0.05, and Recall@20 does not lose more than 0.02 with p below 0.05; it lacks data exactly below two pairs |
| Gate.DeltasAreMeans | cmd/eval/abgate.go:245-261 | the reported deltas times the number of pairs are the sums of the gains in nDCG@10 and Recall@20 |
| Gate.EqualGains | cmd/eval/abgate.go:260-312 | if every pair gains d in nDCG@10 and e in Recall@20, the gate passes if and only if d > 0 and e >= -0.02, whatever the incomplete beta function is |
| Gate.SwapSum | cmd/eval/abgate.go:209-231 | pairing is symmetric when no result matches two of the other run: a sum over the pairs is the mirrored sum over the pairs of the exchanged runs |
| Gate.SwapMetric | cmd/eval/abgate.go:260-261 | exchanging the runs keeps the number of pairs and p and negates the mean, for every metric |
| Gate.SwapRoles | cmd/eval/abgate.go:208-312 | exchanging baseline and candidate negates both deltas and keeps both p-values, so the gate never passes both ways |
| Gate.ComputeDelta | cmd/eval/ttest.go:179-240 | the delta block holds mean and p of all five metrics over the same pairs, or nothing below two pairs |
| Gate.SwapDelta | cmd/eval/ttest.go:179-240 | exchanging the runs reverses every entry of the delta block |
| Gate.KeysCollideIff | cmd/eval/abgate.go:214 | two different repositories have queries with the same key if and only if one name, with the separator, begins the other |
| Gate.KeyInjective | cmd/eval/abgate.go:214 | so names without the separator never collide, and the key tells repository and query apart |
| Gate.KeysCollide | cmd/eval/abgate.go:214 | two different queries with one key otherwise |
| Gate.DuplicateKeysBreakSymmetry | cmd/eval/abgate.go:211-231 | with a key twice in one run even the number of pairs depends on the direction |
| Gate.ExchangeIffMatchedOnce | cmd/eval/abgate.go:209-261 | for given queries, exchanging the runs keeps the number of pairs and negates the sum of a metric's differences for all values of the metric if and only if no result of either run matches two of the other |
| RepoMap.ParseRepoMap | cmd/eval/golden.go:208-231 | the loop computes the map of the entries, or the first error |
| RepoMap.RejectedIff | cmd/eval/golden.go:202-231 | a text is rejected exactly when one of its comma-separated pieces, trimmed, is not empty and has no '=' or an empty key or path |
| RepoMap.ParsePrint | cmd/eval/golden.go:202-231 | parsing undoes printing for trimmed, non-empty, comma-free entries whose keys have no '=' |
| RepoMap.ParsedMapPrintsBack | cmd/eval/golden.go:202-231 | whatever is parsed can be printed in key order and parsed again to the same map |
| RepoMap.GoldenSet.ApplyRepoMap | cmd/eval/golden.go:163-201 | for every map order each record is rewritten once from its own repo, and the unmatched keys are the sorted unused ones |
| RepoMap.UnmatchedIff | cmd/eval/golden.go:160-193 | which keys are reported as unmatched |
| RepoMap.ApplyTwiceIffNoChain | cmd/eval/golden.go:163-187 | one application follows no chain; a second changes nothing if and only if no new path is itself a key that leads elsewhere |
| Sorting.SortedKeys | cmd/eval/output.go:207-211 | ranging over the keys in any order and sorting gives the one ascending sequence |
| Sorting.AscendingUnique | cmd/eval/output.go:207-211 | an ascending sequence is determined by its elements |

## Left out

- HTTP, MCP, metrics registration, logging, command-line wiring and XML or JSON field copying.
- File-system resolution: the confinement of names in `resolveSpillPath`, symbolic links, and which errors the system calls give; a failed call is one case.
- Wall-clock time: timers and throttles are steps or parameters; only safety and conditional progress are proved.
- `%q` itself: quoting is any function, which the ladder only takes to leave strings without escapes alone.
- Ladder.PointerWithinReserve: for a tool name that `%q` escapes, the bound is promised only when the quoted base is within the directory's share; all registered tools have plain names.
- CodeHealth.RunsEnd: the scheduler is taken to run what can run, and a computation to return.
- TokenReload.Coherence: an edit is taken never to bring back the inode, modification time and size of an earlier state of the file, since the server has nothing else to tell two states apart by.
- SHA-256 and constant-time comparison: a digest is identified with its token.
- Floating-point rounding: the harness is modelled over the reals. The discounts 1/log2(i+2) are any positive decreasing weights, and the incomplete beta function is any function.
- Machine-integer overflow, except in `itoa`: durations, counters and sizes are unbounded.
- Panics: a computation, an index run or a query attempt returns.
- `git clone` itself and the gap between it and taking the reference; a request takes its clone in one step.
- Reading the spilled file while another process rewrites it is modelled only by a size that differs from the content read.
- GraphRefresher.RunEnds: the index function is a step that succeeds or fails; the cache check inside it is not modelled.
- DupFilter.SymbolLineCount: the scanned lines of a file are given; the byte limit of the prefix and over-long lines are part of how they are read.
- Gate.EvaluateGate: the texts that explain the verdict and the recommended action.
- EvalRunner.RunEval: one query is a function of its record; the requests it makes, the warm-up and the tool modes are not modelled.
- The envelope's rendering, and a context without a slot, in which recording does nothing.
- `age_graph_gate.go`: the same claim-and-release as in `tool_code_health.go`.
- `tool_federated_cochange.go`: its result cache is not modelled.
- Threshold buckets, configuration parsing, extension tables and route classification: settled by reading one branch.

# cw, the CloudWatch Logs tailer, in Dafny

`cw` tails AWS CloudWatch Logs from a terminal. It can follow several `group:prefix`
targets at once. A round-robin coordinator hands out polling turns among the targets.
Each target's tailer polls `FilterLogEvents` from a time watermark. It drops events
whose message matches an inverted pattern (`--grepv`), and it suppresses duplicates
through a time-to-live cache of event ids. Each printed line gets optional prefixes:
time, group, stream and event id. A JMESPath query can rewrite the message first.

This project models the sequential logic of that core and proves what it promises:

- `event_ttl_cache.dfy` (module `EventTtlCache`): the deduplication cache is a class
  with `Add`, `Has` and `Size`. One janitor sweep is the method `Purge`, and
  `CollectPurgeable` is its collection loop.
- `coordinator.go` becomes `coordinator.dfy` (module `Coordinator`). The Go ring is a
  sequence read from the ring pointer: `ring[0]` is the current element, `Next` and
  `Prev` rotate, and `Unlink(1)` drops `ring[1]`. The class `TailCoordinator` has
  `Start`, the per-tick step `Tick`, and `remove` with its walk (`Seek`) and rewind
  (`Rewind`).
- `types.dfy` (module `Types`): the log stream and event records, and the stable sort
  by last ingestion time that both stream listers use. A missing time counts as 0.
- `tail.dfy` (module `Tail`) covers the tailer of `cloudwatch/tail.go`:
  - stream choice and request parameters;
  - the stream set and the initialiser's probe/retry loop, with its refresh;
  - the per-page event loop: filter, deduplication, emission and watermark;
  - one poll over all pages, with its single throttling retry;
  - the class `Tailer`, whose methods run these loops on its fields.
- `ls_streams.dfy` (module `LsStreams`): the stream lister `getStreams` over a
  sequence of pager replies, and its request parameters.
- `legacy_cloudwatch.dfy` (module `Legacy`): the older SDK-v1 tailer of
  `cloudwatch/cloudwatch.go`. It has its own request parameters, time-range predicate,
  stream lister and first-100 stream choice. Its seen-set of ids is cleared at 1000
  entries, and its page handler keeps a watermark in whole seconds. Its stream holder
  `logStreams` has the same shape as the current one and is modelled by `Tail.StreamSet`.
- `cli.dfy` (module `Cli`): the `group:prefix` split of `main.go`, `jmespathQuery`'s
  fallbacks, and the order in which `formatLogMsg` adds prefixes.
- `common.dfy` (module `Common`): Option and Result, Go's truncating integer division,
  and substring search.

The outside world enters as values and parameters:

- **Pages and fetches.** Pager replies, stream fetches and page fetches are sequences
  of values.
- **Libraries.** The grepv regex, the JSON codec, the JMESPath search, the colours and
  the time layout are function parameters.
- **Channels.** The output channel is a sequence plus a closed flag. The idle channel
  is a flag.
- **Exits and panics.** `os.Exit` and a nil-pointer panic are outcome values.

Three behaviours of the code are easy to miss, and the model keeps them as written:

- **The watermark moves backwards.** The tailer sets the watermark to the timestamp of
  every emitted event, older ones included (`Tail.WatermarkCanMoveBackward`).
- **A single cache entry is never purged.** The sweep never removes the entry carrying
  the most recent timestamp. A cache holding one event therefore keeps it through every
  sweep (`EventTtlCache.SingleEntryNeverPurged`).
- **The v1 poll condition is always true.** The v1 tailer starts polling under
  `*follow || lastSeenTimestamp == startTimeEpoch`. At that point nothing can have moved
  the watermark, so it always polls.

## Model

| member | source | states |
|---|---|---|
| EventTtlCache.EffectivePurgeFreq | cloudwatch/eventTTLCache.go:17-20 | a purge period of 0 becomes the 10-second default; any other period is kept |
| EventTtlCache.EventCache.Has | cloudwatch/eventTTLCache.go:57-61 | only stored ids read as seen, and an id stored with timestamp 0 reads as unseen |
| EventTtlCache.EventCache.Size | cloudwatch/eventTTLCache.go:70-74 | counts every stored id, those stored with timestamp 0 included; an empty count means no id is seen |
| EventTtlCache.EventCache.constructor | cloudwatch/eventTTLCache.go:17-21 | a new cache is empty, with most recent timestamp 0 and the settled purge period |
| EventTtlCache.EventCache.Add | cloudwatch/eventTTLCache.go:63-68 | the id maps to ts and ts becomes the most recent timestamp, even if older; Has(id) holds exactly when ts is not 0; every other id's presence is unchanged; Size grows by one only for a new id |
| EventTtlCache.CollectPurgeable | cloudwatch/eventTTLCache.go:30-43 | the collected ids are exactly the entries not carrying the most recent timestamp whose whole-second age reaches the TTL, each id once |
| EventTtlCache.EventCache.Purge | cloudwatch/eventTTLCache.go:27-48 | one sweep with the cache's own TTL: the map afterwards is the sweep result Purged of the old map, and the most recent timestamp is unchanged |
| EventTtlCache.PurgeKeepsMostRecent | cloudwatch/eventTTLCache.go:33 | an entry carrying the most recent timestamp survives every sweep, with its timestamp |
| EventTtlCache.PurgeRemovesExactlyExpired | cloudwatch/eventTTLCache.go:32-47 | an id survives a sweep if and only if it was present and is the most recent or not expired; survivors keep their timestamps |
| EventTtlCache.PurgeOnlyShrinks | cloudwatch/eventTTLCache.go:27-48 | a sweep adds no key and never grows the map; a second sweep at the same time changes nothing |
| EventTtlCache.CacheTestScenario | cloudwatch/eventTTLCache_test.go:19-35 | after adding ids 1, 2, 3 at 1, 2, 3 ms and sweeping with a one-second TTL, only id 3 remains present |
| EventTtlCache.SingleEntryNeverPurged | cloudwatch/eventTTLCache.go:33 | a one-event cache with a non-zero timestamp keeps that event through any sweep |
| Coordinator.Unset | coordinator.go:17 | ring.New(n) has n slots, all holding the nil channel |
| Coordinator.FirstIndex | coordinator.go:56-57 | the walk's step count reaches an element holding h, and no earlier element holds h |
| Coordinator.Schedule | coordinator.go:26-35 | k ticks on a non-empty ring signal k handles, all from the ring; the nil ring signals none |
| Coordinator.RemoveAsWritten | coordinator.go:40-75 | remove as written empties a one-element ring, shrinks a larger ring holding h by one, leaves any other ring's size alone, and adds no handle |
| Coordinator.RemoveKeepingTurn | coordinator.go:40-75 | the corrected removal has the same sizes and, on a ring of two or more holding h, loses exactly one h |
| Coordinator.TailCoordinator.Start | coordinator.go:16-21 | after filling, the ring holds the targets in the given order, with the pointer on the first |
| Coordinator.TailCoordinator.Tick | coordinator.go:26-35 | the nil ring signals nothing; otherwise the current handle is signalled and the pointer moves to the next |
| Coordinator.TailCoordinator.Seek | coordinator.go:56-68 | the walk stops on the first element holding h, or after a full lap without finding it; the pointer has moved that many steps |
| Coordinator.TailCoordinator.Rewind | coordinator.go:70-74 | stepping back `visited` times from k elements in lands k - visited elements in, wrapping to the last element at most once |
| Coordinator.TailCoordinator.Remove | coordinator.go:40-75 | remove as written: the ring becomes RemoveAsWritten of the old ring; h is closed exactly when it was unlinked |
| Coordinator.TailCoordinator.RemoveFair | coordinator.go:40-75 | remove with the rewind corrected: the ring becomes RemoveKeepingTurn of the old ring, with the same closing rule |
| Coordinator.RemoveFoundAt | coordinator.go:56-74 | when the first h sits v elements in, removal unlinks element v and closes h; as written the result is then turned one step back, while the corrected removal leaves it as is |
| Coordinator.RemoveNotFound | coordinator.go:56-74 | when h is absent, a full lap and no rewind leave the ring and pointer unchanged, and nothing is closed |
| Coordinator.ScheduleFullCycle | coordinator.go:26-35 | over as many ticks as the ring has elements, every handle is signalled once in ring order and the pointer returns to where it started |
| Coordinator.RemoveAsWrittenShape | coordinator.go:56-74 | removing a present h from a ring of two or more drops exactly one h, keeps the others' cyclic order, and leaves the pointer one step before the old current element |
| Coordinator.RemoveAfterTickRepeats | coordinator.go:56-74 | after a tick, removing a handle that was not just signalled puts the pointer back on the handle just signalled, so it is signalled twice in a row |
| Coordinator.RemoveRepeatsExample | coordinator.go:56-74 | ring A, B, C: three ticks signal A, B, C; removing B then makes the next ticks signal C again, then A |
| Coordinator.RemoveKeepingTurnFair | coordinator.go:40-75 | with the corrected rewind, the next n - 1 ticks signal the n-tick schedule minus h, in order; the current handle keeps its turn, or passes it to its successor when it is the one removed |
| Coordinator.RemoveEdgeCases | coordinator.go:49-54 | a one-element ring is emptied whatever handle is given, and nothing is closed; an absent handle or the nil ring changes nothing |
| Types.StableSortByIngestion | cloudwatch/tail.go:64-77 | the result is sorted ascending by last ingestion time (missing as 0) and is a permutation of the input |
| Types.StableSortKeepsOrder | cloudwatch/tail.go:64 | the sort is stable: for every key, the streams with that key keep their relative order |
| Types.StableSortIsUnique | cloudwatch/lsstreams.go:28-41 | any sorted arrangement that keeps equal keys in input order is that same sequence, so `sort.SliceStable` computes StableSortByIngestion |
| Tail.SortLogStreamsByMostRecentEvent | cloudwatch/tail.go:63-82 | the result is sorted by ingestion time, drawn from the input, and at most 100 long; up to 100 streams are only sorted; above 100 it is exactly the last 100 of the stable sort, in that order |
| Tail.TruncationDropsLeastRecent | cloudwatch/tail.go:78-80 | a dropped stream exists only when there are more than 100, and it was no more recently active than any kept one |
| Tail.TargetStreams | cloudwatch/tail.go:109-120 | no streams give nil; under 100 the names keep fetch order; from 100 up, the names of the sorted and cut list; one name per kept stream |
| Tail.HundredStreamsSortedNotCut | cloudwatch/tail.go:112-114 | exactly 100 streams are sorted but none is dropped |
| Tail.MakeParams | cloudwatch/tail.go:36-59 | the pattern is set only for a non-empty grep, the stream names exactly when given, and the end time only when not following and non-zero |
| Tail.StreamSet.Reset | cloudwatch/tail.go:24-28 | the stream set becomes the given list |
| Tail.InitSpec | cloudwatch/tail.go:123-140 | the loop can still be waiting for a probe only when retry is set (or no probe was made): without retry, the first probe decides |
| Tail.InitReadyMeaning | cloudwatch/tail.go:123-139 | the loop is ready only on a listing after nothing but missing-group errors, with those names; without retry, only the first probe can succeed |
| Tail.InitFailedMeaning | cloudwatch/tail.go:125-133 | the loop fails only with an error a probe returned, and never with a missing group while retry is set |
| Tail.InitWaitingMeaning | cloudwatch/tail.go:125-130 | still probing means every probe so far was a missing group with retry set |
| Tail.InitialiseStreams | cloudwatch/tail.go:123-140 | the loop's result is InitSpec; a success installs the names and signals idle exactly once; otherwise the set is untouched and idle is not signalled |
| Tail.Refreshed | cloudwatch/tail.go:144-148 | a set that has names keeps names; a failed fetch or an empty listing keeps the current set; a non-empty listing replaces it with its target names |
| Tail.Refresh | cloudwatch/tail.go:144-148 | one refresh tick leaves the stream set at Refreshed of the old one |
| Tail.Step | cloudwatch/tail.go:227-241 | one event is emitted exactly when it passes grepv and the cache does not hold it; an event not emitted changes nothing; no seen id is forgotten |
| Tail.ProcessEvents | cloudwatch/tail.go:226-243 | the event loop only appends to the output |
| Tail.EmitsFromPage | cloudwatch/tail.go:226-238 | every emitted event is an event of the page that passes the grepv filter |
| Tail.NeverForgets | cloudwatch/tail.go:228-237 | an id the cache reported as seen is still reported seen after the page |
| Tail.PageEmitsOnlyUnseen | cloudwatch/tail.go:228-238 | a page never emits an id the cache already held |
| Tail.PageEmitsOnce | cloudwatch/tail.go:228-238 | with non-zero timestamps, a page emits each id at most once |
| Tail.PageSeenIsOldPlusEmitted | cloudwatch/tail.go:228-237 | with non-zero timestamps, the cache afterwards holds exactly the old ids plus the emitted ones |
| Tail.PageEmitsUnseenOnce | cloudwatch/tail.go:226-243 | with non-zero timestamps, the emitted run has distinct ids, none of them seen before, and the cache ends as the old ids plus the emitted ones |
| Tail.PageMarksPassingSeen | cloudwatch/tail.go:227-237 | with non-zero timestamps, every event passing grepv is in the cache after the page |
| Tail.SilentPageKeepsWatermark | cloudwatch/tail.go:231-237 | a page that emits nothing leaves the watermark and the most recent timestamp unchanged |
| Tail.WatermarkIsLastEmitted | cloudwatch/tail.go:231-237 | after a page that emits, the watermark and the most recent timestamp both equal the last emitted event's timestamp |
| Tail.StepWatermark | cloudwatch/tail.go:227-238 | one event changes the state only when it is emitted, and then appends it and moves both timestamps to its own |
| Tail.WatermarkCanMoveBackward | cloudwatch/tail.go:231-236 | an emitted event older than the watermark moves the watermark back to it |
| Tail.ZeroTimestampDefeatsDedup | cloudwatch/tail.go:228-238 | an event stored with timestamp 0 never reads as seen, so a page holding it twice emits it twice |
| Tail.ProcessEventsAppend | cloudwatch/tail.go:226-243 | processing two runs of events one after the other is processing their concatenation |
| Tail.PageEvents | cloudwatch/tail.go:208-225 | a page arrives exactly when the first call succeeds, or it failed with a throttling error and the one retry succeeds; any other failure is final |
| Tail.FetchPage | cloudwatch/tail.go:208-225 | the fetch with its single retry yields PageEvents |
| Tail.Round | cloudwatch/tail.go:207-250 | a poll is fatal exactly when some page fails; otherwise it closes the output without follow and re-arms idle with follow; it only appends output |
| Tail.RoundIsOneLongPage | cloudwatch/tail.go:207-245 | when no page fails, a poll's state is the event loop over all pages' events laid end to end |
| Tail.Tailer.constructor | cloudwatch/tail.go:174-186 | the watermark starts at the start second times 1000; a zero end time gives 0; the cache is empty with a 60 s TTL and the default purge period |
| Tail.Tailer.Open | cloudwatch/tail.go:188-199 | a non-empty stream name runs the initialiser and sets idle only on success; otherwise idle is set at once and the set is untouched |
| Tail.Tailer.HandleEvent | cloudwatch/tail.go:227-241 | one loop iteration moves the tailer's state by Step |
| Tail.Tailer.ProcessPage | cloudwatch/tail.go:226-243 | the page loop leaves the tailer's state at ProcessEvents of the old state |
| Tail.Tailer.Tick | cloudwatch/tail.go:202-253 | without idle, a tick skips and changes nothing; with idle, it builds the request from the current watermark and set, ends in Round's state and outcome, and re-arms idle or closes the output to match |
| LsStreams.LsStreamsParams | cloudwatch/lsstreams.go:58-62 | the prefix is passed on exactly when given and non-empty |
| LsStreams.PageNames | cloudwatch/lsstreams.go:28-45 | a page contributes one name per stream, the same names as the page |
| LsStreams.NamesOfSort | cloudwatch/lsstreams.go:28-41 | sorting a page keeps the multiset of its names |
| LsStreams.EmitNames | cloudwatch/lsstreams.go:43-45 | the emission loop sends the sorted page's names in order |
| LsStreams.GetStreams | cloudwatch/lsstreams.go:18-49 | the page loop emits and ends exactly as ListAsWritten says |
| LsStreams.ListAsWritten | cloudwatch/lsstreams.go:19-26 | as written, an error is sent only when some reply is malformed (a page and an error together), which the SDK never produces |
| LsStreams.ListChecked | cloudwatch/lsstreams.go:19-48 | with the error checked first, a completed listing emits as many names as the pages hold streams |
| LsStreams.AsWrittenPanicsInsteadOfSending | cloudwatch/lsstreams.go:21-26 | on SDK-shaped replies both versions emit the same names, but where the error should be sent the written one panics |
| LsStreams.ErrorReplyPanics | cloudwatch/lsstreams.go:21-26 | a pager whose first reply is an error panics as written, and sends the error when checked first |
| LsStreams.CheckedListingEnds | cloudwatch/lsstreams.go:19-48 | checked first, the listing never panics on SDK-shaped replies, and it completes exactly when no reply is an error |
| LsStreams.CheckedListingEmitsAll | cloudwatch/lsstreams.go:19-48 | a completed listing emits every page's names in pager order, each page sorted on its own, one name per stream |
| LsStreams.CheckedListingStopsAtError | cloudwatch/lsstreams.go:21-26 | a listing that sends an error sends the first error reply's message, after exactly the names of the pages before it |
| LsStreams.LsStreamsTestScenario | cloudwatch/foo_test.go:44-60 | one page holding stream1 and stream2 with equal ingestion times lists both, in that order, and completes |
| Legacy.Params | cloudwatch/cloudwatch.go:28-48 | seconds become milliseconds, results are always interleaved, the pattern is set only for a non-empty grep, and the end only when not following and non-zero |
| Legacy.ParamsMatchTailer | cloudwatch/cloudwatch.go:28-48 | apart from interleaving, the v1 request equals the current tailer's request for the same times in milliseconds |
| Legacy.LogStreamMatchesTimeRange | cloudwatch/cloudwatch.go:219-229 | with no start every stream matches; otherwise a match has both times, was written no earlier than five minutes before the start, and, with an end, was created no later than it |
| Legacy.TimeRangeWidens | cloudwatch/cloudwatch.go:219-229 | with a non-zero start, an earlier start and a later or absent end keep every matching stream |
| Legacy.TimeRangeGrace | cloudwatch/cloudwatch.go:226-228 | with both times present and the creation before the end, a stream matches exactly when it was last written at most five minutes before the start |
| Legacy.MatchingInPage | cloudwatch/cloudwatch.go:242-248 | the handler emits the names of exactly the page's streams that match the time range, in page order; a zero start emits every name |
| Legacy.MatchingNames | cloudwatch/cloudwatch.go:242-253 | the v1 lister emits the names of exactly the matching streams of all pages, page after page in page order; a zero start emits every name |
| Legacy.MatchingNamesMembers | cloudwatch/cloudwatch.go:242-248 | a name is emitted if and only if some page holds a stream of that name matching the time range |
| Legacy.ChooseStreams | cloudwatch/cloudwatch.go:118-131 | 100 or more names are cut to the first 100, in order, without sorting; no names closes the output |
| Legacy.LsStreamsParams | cloudwatch/cloudwatch.go:237-241 | the v1 lister passes any given prefix unchanged, even an empty one, and none when none is given |
| Legacy.ListerParamsDifferOnEmptyPrefix | cloudwatch/cloudwatch.go:237-241 | the v1 and current listers build the same request exactly when the prefix is not the empty string |
| Legacy.SeenCache.constructor | cloudwatch/cloudwatch.go:114 | a new seen-set is empty |
| Legacy.SeenCache.Has | cloudwatch/cloudwatch.go:55-59 | a missing id reads as unseen; with only true values stored, Has is membership of the id |
| Legacy.SeenCache.Size | cloudwatch/cloudwatch.go:67-71 | with only true values stored, Size is the number of ids; a size of 0 means no id is seen |
| Legacy.SeenCache.Add | cloudwatch/cloudwatch.go:61-65 | after Add the id is seen; every other id's status is unchanged; the keys grow by that id |
| Legacy.SeenCache.Reset | cloudwatch/cloudwatch.go:73-77 | after Reset no id is seen |
| Legacy.LegacyProcess | cloudwatch/cloudwatch.go:143-158 | the handler's loop only appends to the output, and only events of the page |
| Legacy.LegacyStep | cloudwatch/cloudwatch.go:143-157 | every event moves the watermark to its second; its id is in the set afterwards, which otherwise only keeps old ids; without a reset, the event is emitted exactly when its id is new |
| Legacy.LegacyWatermarkIsLastEventSecond | cloudwatch/cloudwatch.go:144-150 | the watermark ends on the second of the page's last event, emitted or not |
| Legacy.LegacyEmitsOnlyUnseen | cloudwatch/cloudwatch.go:145-155 | on a page during which the set is never cleared, no emitted id was already seen |
| Legacy.LegacyEmitsOnce | cloudwatch/cloudwatch.go:145-155 | on a page during which the set is never cleared, each id is emitted at most once |
| Legacy.LegacySeenIsOldPlusEmitted | cloudwatch/cloudwatch.go:145-155 | on a page during which the set is never cleared, the set ends as the old ids plus the emitted ones |
| Legacy.InSecondNeverResets | cloudwatch/cloudwatch.go:145-149 | a page whose events all fall in the watermark's second never clears the set |
| Legacy.BelowLimitNeverResets | cloudwatch/cloudwatch.go:145-149 | a page too short to bring the set to 1000 ids never clears it, whatever seconds it spans |
| Legacy.LegacyDedup | cloudwatch/cloudwatch.go:143-157 | while the set is never cleared: distinct emitted ids, none seen before, and the set ends as the old ids plus the emitted ones |
| Legacy.LegacyDedupWithinSecond | cloudwatch/cloudwatch.go:143-157 | a page whose events all fall in the watermark's second is deduplicated in that sense, whatever the set's size |
| Legacy.LegacyDedupBelowLimit | cloudwatch/cloudwatch.go:143-157 | a page spanning any seconds is deduplicated in the same sense while the set cannot reach 1000 ids |
| Legacy.LegacyResetReemits | cloudwatch/cloudwatch.go:145-154 | a new second with 1000 or more ids clears the set, so a repeated event is emitted again |
| Legacy.LegacyTailer.constructor | cloudwatch/cloudwatch.go:103-114 | the watermark starts at the start time in epoch seconds, with an empty set and an open output |
| Legacy.LegacyTailer.HandleEvent | cloudwatch/cloudwatch.go:143-157 | one loop iteration moves the handler's state by LegacyStep |
| Legacy.LegacyTailer.PageHandler | cloudwatch/cloudwatch.go:142-170 | the state ends at LegacyProcess of the page; on the last page the output closes without follow, or the timer is re-armed with follow; more pages are asked for unless this was the last |
| Cli.Split | main.go:231 | strings.Split always yields at least one piece |
| Cli.SplitPiecesFree | main.go:231 | no piece contains the separator |
| Cli.SplitSingle | main.go:231 | there is one piece exactly when the string has no separator |
| Cli.JoinSplit | main.go:231 | joining the pieces with the separator gives back the string |
| Cli.SplitJoin | main.go:231 | splitting separator-free pieces joined by the separator gives back the pieces |
| Cli.SplitTarget | main.go:231-236 | the group is separator-free and a prefix of the target; a target without ':' is the whole group with an empty prefix |
| Cli.TargetOfPieces | main.go:231-236 | for pieces g, p, ...: the group is g and the prefix is p, or empty when p is "*"; further pieces are ignored |
| Cli.JmespathQuery | main.go:100-123 | the result is the input, the tagged input, or the marshalled result of a successful search that found something |
| Cli.JmespathFallbacks | main.go:102-122 | a failed unmarshal, search or marshal returns the input; a nil result returns "<cw: empty jmesPath query result> " then the input; a successful search and marshal returns the marshalled result |
| Cli.FormatLogMsg | main.go:125-149 | the printed line always ends with the (queried) message, and with the time flag on it starts with the time and " - " |
| Cli.FormatIsFieldsThenMessage | main.go:125-149 | the line reads time, group, stream, event id (those enabled), then the queried message, joined by " - " |
| Cli.FormatAllFlags | main.go:132-147 | with every flag on, the line is `time - group - stream - id - message` |
| Cli.FormatNoFlags | main.go:125-130 | with no flag on, the line is the message after the optional query |
| Common.GoDiv | main.go:144 | Go's division truncates toward zero: the quotient's size is the size of a divided by b, and the remainder takes a's sign and is smaller than b |

## Left out

- Goroutines, channels, tickers, timers, sleeps and locks are left out. Each critical section is modelled by its sequential effect. The 5 ms skip-polling select is a tick without the idle token.
- AWS SDK calls are not modelled: `FilterLogEvents`, `DescribeLogStreams`, the paginators and the client set-up in `cloudwatch/client.go`. They appear as sequences of replies.
- `LsGroups` (both versions), `versioncheck.go`, `timeutil/timeutil.go`, `timestampToTime`, `fromStdin`, the kong wiring and the output loop of `main.go` are not part of this model. They are I/O or wall-clock plumbing.
- The grepv regex, JSON, the JMESPath engine, the colours and the time layout are uninterpreted function parameters. The compile-time panic of `regexp.MustCompile` is not modelled.
- EventTtlCache.Expired: the janitor compares float seconds from `time.Now()`. The model uses integer milliseconds and takes the current time as a parameter.
- Integers are unbounded. The source's int64 overflow, such as seconds × 1000 for far-off dates, is not modelled.
- The janitor's own ticker and the cache's lock are left out. Purge is a single sweep called explicitly.
- The retry loop in `initialiseStreams` re-arms a channel after 150 ms. It is modelled as a sequence of probe results, and the wait is not modelled. Each stream fetch is one Probe: its streams, or its error.
- The v1 tailer's `getStreams` closes the output when it finds no stream, possibly more than once across refreshes. The model reports the closing as a flag and does not model a second close.
- The v1 lister's error path is not modelled: on a failed `DescribeLogStreamsPages` it prints the message and closes the channel. The v1 lister is modelled through its request (`Legacy.LsStreamsParams`) and its page handler (`Legacy.MatchingInPage`, `Legacy.MatchingNames`).
- The v1 tailer looks streams up only for a stream name other than `*`. That test and the five-second refresh ticker are not modelled; `Legacy.ChooseStreams` is the choice made on each lookup.
- The stable sort is modelled as a function on sequences, not as an in-place sort of a slice. StableSortIsUnique shows that it is the only result a stable sort by this key can give.
- Tail.TruncationDropsLeastRecent: the statement is about streams found in the input but not in the output, not about positions, so equal duplicate records are not told apart. The exact kept streams and their order are stated by `Tail.SortLogStreamsByMostRecentEvent`.

## Findings

| source | as written | input that shows it | evidently intended | confidence | as-written member | corrected member |
|---|---|---|---|---|---|---|
| coordinator.go:70-74 | after unlinking, the pointer is rewound `visited` times from the element before the removed one, so it lands one element before the element that was current | ring A, B, C after three ticks (A, B, C signalled); remove B; the next ticks signal C again, then A | the pointer stays on the element that was current (or its successor when it was removed), so no handle gets two turns in a row | not executed | Coordinator.TailCoordinator.Remove | Coordinator.TailCoordinator.RemoveFair |
| cloudwatch/lsstreams.go:21-26 | `res.LogStreams` is read before `err` is checked, so a failing NextPage (nil page) panics | a pager whose first reply is nil with an error | the error is sent on the error channel and the listing stops | not executed | LsStreams.ListAsWritten | LsStreams.ListChecked |

The coordinator row is exhibited by `Coordinator.RemoveRepeatsExample`,
`Coordinator.RemoveAfterTickRepeats` and `Coordinator.RemoveAsWrittenShape`. The
corrected removal's fairness is `Coordinator.RemoveKeepingTurnFair`.

The lister row is exhibited by `LsStreams.ErrorReplyPanics` and
`LsStreams.AsWrittenPanicsInsteadOfSending`. The corrected listing's behaviour is
`LsStreams.CheckedListingEnds`, `LsStreams.CheckedListingEmitsAll` and
`LsStreams.CheckedListingStopsAtError`.

The model of the tool itself, `GetStreams`, follows the code as written.

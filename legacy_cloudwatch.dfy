/** The older, SDK-v1 tailer of cloudwatch/cloudwatch.go. It redeclares the names of
    the current tailer, so it lives in a module of its own. Its watermark counts whole
    seconds, its cache is a plain set of ids cleared when it grows large, and the
    streams it asks for are the first 100 the lister found. */
module Legacy {
  import opened Common
  import opened Types
  import Tail
  import LsStreams

  const SecondInMillis: int := 1000
  const MinuteInMillis: int := 60 * SecondInMillis

  /** The cache is cleared on a change of second once it holds this many ids. */
  const CacheResetSize: nat := 1000

  /** At most this many stream names go into a filter request. */
  const MaxStreams: nat := 100

  // ---------------------------------------------------------------- request parameters

  /** The parts of the v1 `FilterLogEventsInput` that `params` sets. */
  datatype LegacyParams = LegacyParams(
    logGroupName: string,
    interleaved: bool,
    startTime: int,
    filterPattern: Option<string>,
    logStreamNames: Option<seq<string>>,
    endTime: Option<int>)

  /** params: epoch seconds become milliseconds, results are always interleaved, the
      pattern is set for a non-empty grep, the end only when not following and non-zero. */
  function Params(logGroupName: string, streamNames: Option<seq<string>>, epochStartTime: int,
                  epochEndTime: int, grep: string, follow: bool): (p: LegacyParams)
    ensures p.logGroupName == logGroupName && p.interleaved
    ensures p.startTime == epochStartTime * SecondInMillis
    ensures p.filterPattern.Some? <==> grep != ""
    ensures p.filterPattern.Some? ==> p.filterPattern.value == grep
    ensures p.logStreamNames == streamNames
    ensures p.endTime.Some? <==> !follow && epochEndTime != 0
    ensures p.endTime.Some? ==> p.endTime.value == epochEndTime * SecondInMillis
  {
    var startTimeMs := epochStartTime * SecondInMillis;
    var endTimeMs := epochEndTime * SecondInMillis;
    LegacyParams(
      logGroupName,
      true,
      startTimeMs,
      if grep != "" then Some(grep) else None,
      streamNames,
      if !follow && endTimeMs != 0 then Some(endTimeMs) else None)
  }

  /** Apart from always asking for interleaved results, the legacy request is the
      current tailer's request for the same times given in milliseconds. */
  lemma ParamsMatchTailer(logGroupName: string, streamNames: Option<seq<string>>, startSec: int,
                          endSec: int, grep: string, follow: bool)
    ensures var p := Params(logGroupName, streamNames, startSec, endSec, grep, follow);
      var q := Tail.MakeParams(logGroupName, streamNames, startSec * 1000, endSec * 1000, grep, follow);
      p.logGroupName == q.logGroupName && p.startTime == q.startTime && p.filterPattern == q.filterPattern
      && p.logStreamNames == q.logStreamNames && p.endTime == q.endTime
  {
  }

  // ---------------------------------------------------------------- stream choice

  /** Whether a stream can hold events of the window: always when there is no start;
      never when a time is missing; otherwise when it was written to no earlier than
      five minutes before the start and, with an end, created no later than the end. */
  function LogStreamMatchesTimeRange(s: LogStream, startTimeMs: int, endTimeMs: int): (r: bool)
    ensures startTimeMs == 0 ==> r
    ensures r && startTimeMs != 0 ==> s.creationTime.Some? && s.lastIngestionTime.Some?
    ensures r && startTimeMs != 0 && endTimeMs != 0 ==> s.creationTime.value <= endTimeMs
    ensures r && startTimeMs != 0 ==> s.lastIngestionTime.value + 5 * MinuteInMillis >= startTimeMs
  {
    if startTimeMs == 0 then true
    else if s.creationTime.None? || s.lastIngestionTime.None? then false
    else
      var lastIngestionAfterStartTime := s.lastIngestionTime.value >= startTimeMs - 5 * MinuteInMillis;
      var creationTimeBeforeEndTime := endTimeMs == 0 || s.creationTime.value <= endTimeMs;
      lastIngestionAfterStartTime && creationTimeBeforeEndTime
  }

  /** Widening the window never loses a stream: an earlier (non-zero) start and a later
      or absent end keep every match. */
  lemma TimeRangeWidens(s: LogStream, start: int, end: int, start': int, end': int)
    requires start != 0 && LogStreamMatchesTimeRange(s, start, end)
    requires start' <= start
    requires end' == 0 || (end != 0 && end <= end')
    ensures LogStreamMatchesTimeRange(s, start', end')
  {
  }

  /** The five-minute grace: a stream last written up to five minutes before the start,
      and created before the end, still matches; one written earlier does not. */
  lemma TimeRangeGrace(s: LogStream, start: int, end: int)
    requires start != 0 && s.creationTime.Some? && s.lastIngestionTime.Some?
    requires end == 0 || s.creationTime.value <= end
    ensures LogStreamMatchesTimeRange(s, start, end) <==> start - s.lastIngestionTime.value <= 5 * MinuteInMillis
  {
  }

  /** The time-range test as a filter condition. */
  function InRange(startTimeMs: int, endTimeMs: int): LogStream -> bool {
    s => LogStreamMatchesTimeRange(s, startTimeMs, endTimeMs)
  }

  /** The pages' streams laid end to end. */
  function Flatten(pages: seq<seq<LogStream>>): seq<LogStream> {
    if pages == [] then [] else pages[0] + Flatten(pages[1..])
  }

  /** The names the v1 lister emits: the names of the matching streams of all pages,
      page after page, each page in its own order. */
  function MatchingNames(pages: seq<seq<LogStream>>, startTimeMs: int, endTimeMs: int): (r: seq<string>)
    ensures r == Names(Filter(Flatten(pages), InRange(startTimeMs, endTimeMs)))
    ensures startTimeMs == 0 ==> r == Names(Flatten(pages))
    decreases |pages|
  {
    if pages == [] then []
    else
      var rest := MatchingNames(pages[1..], startTimeMs, endTimeMs);
      var p := InRange(startTimeMs, endTimeMs);
      FilterAppend(pages[0], Flatten(pages[1..]), p);
      LsStreams.NamesAppend(Filter(pages[0], p), Filter(Flatten(pages[1..]), p));
      LsStreams.NamesAppend(pages[0], Flatten(pages[1..]));
      MatchingInPage(pages[0], startTimeMs, endTimeMs) + rest
  }

  /** The handler's loop over one page: the names of its matching streams, in order. */
  function MatchingInPage(page: seq<LogStream>, startTimeMs: int, endTimeMs: int): (r: seq<string>)
    ensures r == Names(Filter(page, InRange(startTimeMs, endTimeMs)))
    ensures startTimeMs == 0 ==> r == Names(page)
    decreases |page|
  {
    if page == [] then []
    else
      var rest := MatchingInPage(page[1..], startTimeMs, endTimeMs);
      var p := InRange(startTimeMs, endTimeMs);
      assert p(page[0]) == LogStreamMatchesTimeRange(page[0], startTimeMs, endTimeMs);
      LsStreams.NamesAppend([page[0]], Filter(page[1..], p));
      LsStreams.NamesAppend([page[0]], page[1..]);
      assert [page[0]] + page[1..] == page;
      if LogStreamMatchesTimeRange(page[0], startTimeMs, endTimeMs) then [page[0].name] + rest else rest
  }

  /** Both directions: a name is emitted exactly when some page holds a stream of that
      name matching the window. */
  lemma MatchingNamesMembers(pages: seq<seq<LogStream>>, startTimeMs: int, endTimeMs: int, n: string)
    ensures n in MatchingNames(pages, startTimeMs, endTimeMs) <==>
      exists s :: s in Flatten(pages) && s.name == n && LogStreamMatchesTimeRange(s, startTimeMs, endTimeMs)
  {
    var f := Filter(Flatten(pages), InRange(startTimeMs, endTimeMs));
    NamesMember(f, n);
    if n in MatchingNames(pages, startTimeMs, endTimeMs) {
      var s :| s in f && s.name == n;
      assert InRange(startTimeMs, endTimeMs)(s);
    }
  }

  lemma NamesMember(ss: seq<LogStream>, n: string)
    ensures n in Names(ss) <==> exists s :: s in ss && s.name == n
  {
    if n in Names(ss) {
      var i :| 0 <= i < |ss| && Names(ss)[i] == n;
      assert ss[i] in ss;
    }
    if exists s :: s in ss && s.name == n {
      var s :| s in ss && s.name == n;
      var i :| 0 <= i < |ss| && ss[i] == s;
      assert Names(ss)[i] == n;
    }
  }

  /** The v1 tailer's stream choice: at least 100 names are cut to the first 100 (no
      sorting); finding none closes the output. */
  datatype StreamChoice = StreamChoice(names: seq<string>, closesOutput: bool)

  function ChooseStreams(streams: seq<string>): (r: StreamChoice)
    ensures r.closesOutput <==> streams == []
    ensures |r.names| == if |streams| >= MaxStreams then MaxStreams else |streams|
    ensures r.names <= streams
  {
    StreamChoice(if |streams| >= MaxStreams then streams[..MaxStreams] else streams, streams == [])
  }

  /** The v1 lister's request: any given prefix is passed on, the empty one included. */
  function LsStreamsParams(groupName: string, streamName: Option<string>): (p: LsStreams.DescribeParams)
    ensures p.logGroupName == groupName
    ensures p.logStreamNamePrefix.Some? <==> streamName.Some?
    ensures p.logStreamNamePrefix == streamName
  {
    LsStreams.DescribeParams(groupName, streamName)
  }

  /** The v1 and the current lister build the same request except for an empty prefix,
      which only the v1 lister sends. */
  lemma ListerParamsDifferOnEmptyPrefix(groupName: string, streamName: Option<string>)
    ensures LsStreamsParams(groupName, streamName) == LsStreams.LsStreamsParams(groupName, streamName)
        <==> streamName != Some("")
  {
  }

  // ---------------------------------------------------------------- the seen-set

  /** eventCache of the v1 tailer: ids mapped to true. */
  class SeenCache {
    var seen: map<string, bool>

    ghost predicate Valid()
      reads this
    {
      forall id :: id in seen ==> seen[id]
    }

    constructor ()
      ensures Valid() && seen == map[]
    {
      seen := map[];
    }

    /** Go's lookup of a missing id yields false; under the invariant, Has is
        membership of the id. */
    function Has(id: string): (r: bool)
      reads this
      ensures r ==> id in seen
      ensures Valid() ==> (r <==> id in seen.Keys)
    {
      id in seen && seen[id]
    }

    /** The number of ids stored: under the invariant, the ids Has reports. */
    function Size(): (r: nat)
      reads this
      ensures r == 0 ==> forall id :: !Has(id)
      ensures Valid() ==> r == |seen.Keys|
    {
      |seen|
    }

    method Add(id: string)
      requires Valid()
      modifies this
      ensures Valid() && seen.Keys == old(seen.Keys) + {id}
      ensures Has(id) && forall other :: other != id ==> Has(other) == old(Has(other))
    {
      seen := seen[id := true];
    }

    method Reset()
      modifies this
      ensures Valid() && seen == map[]
      ensures forall id :: !Has(id)
    {
      seen := map[];
    }
  }

  // ---------------------------------------------------------------- the page handler

  /** The handler's state: the seen ids, the watermark in seconds, what was emitted. */
  datatype LegacyState = LegacyState(seen: set<string>, lastSeenSec: int, emitted: seq<FilteredLogEvent>)

  /** The event's second: Go's int64 division truncates toward zero. */
  function EventSecond(e: FilteredLogEvent): int {
    GoDiv(e.timestamp, SecondInMillis)
  }

  /** One event: a new second moves the watermark (and clears a large cache) whether or
      not the event is then emitted; an unseen id is recorded and emitted. */
  function LegacyStep(st: LegacyState, e: FilteredLogEvent): (r: LegacyState)
    ensures r.lastSeenSec == EventSecond(e)
    ensures e.eventId in r.seen && r.seen <= st.seen + {e.eventId}
    ensures r.emitted == st.emitted || r.emitted == st.emitted + [e]
    ensures !Resets(st, e) ==> r.seen == st.seen + {e.eventId}
    ensures !Resets(st, e) ==> (r.emitted == st.emitted + [e] <==> e.eventId !in st.seen)
  {
    var sec := EventSecond(e);
    var seen := if sec != st.lastSeenSec && |st.seen| >= CacheResetSize then {} else st.seen;
    var lastSeen := if sec != st.lastSeenSec then sec else st.lastSeenSec;
    if e.eventId !in seen then LegacyState(seen + {e.eventId}, lastSeen, st.emitted + [e])
    else LegacyState(seen, lastSeen, st.emitted)
  }

  /** The handler's loop over a page. Emission only appends events of the page. */
  function LegacyProcess(st: LegacyState, es: seq<FilteredLogEvent>): (r: LegacyState)
    ensures |st.emitted| <= |r.emitted| && r.emitted[..|st.emitted|] == st.emitted
    ensures forall i :: |st.emitted| <= i < |r.emitted| ==> r.emitted[i] in es
    decreases |es|
  {
    if es == [] then st else LegacyProcess(LegacyStep(st, es[0]), es[1..])
  }

  /** Unlike the current tailer, the watermark follows every event of the page, emitted
      or not: it ends on the second of the page's last event. */
  lemma {:induction false} LegacyWatermarkIsLastEventSecond(st: LegacyState, es: seq<FilteredLogEvent>)
    requires es != []
    ensures LegacyProcess(st, es).lastSeenSec == EventSecond(es[|es| - 1])
    decreases |es|
  {
    if |es| > 1 {
      LegacyWatermarkIsLastEventSecond(LegacyStep(st, es[0]), es[1..]);
    }
  }

  /** The events a page emits. */
  function LegacyNewly(st: LegacyState, es: seq<FilteredLogEvent>): seq<FilteredLogEvent> {
    LegacyProcess(st, es).emitted[|st.emitted|..]
  }

  /** Whether the event clears the seen-set: a new second with a full set. */
  predicate Resets(st: LegacyState, e: FilteredLogEvent) {
    EventSecond(e) != st.lastSeenSec && |st.seen| >= CacheResetSize
  }

  /** No event of the page clears the seen-set. */
  predicate NeverResets(st: LegacyState, es: seq<FilteredLogEvent>)
    decreases |es|
  {
    es == [] || (!Resets(st, es[0]) && NeverResets(LegacyStep(st, es[0]), es[1..]))
  }

  /** All the events fall in the watermark's second. */
  predicate InSecond(es: seq<FilteredLogEvent>, sec: int) {
    forall i :: 0 <= i < |es| ==> EventSecond(es[i]) == sec
  }

  /** A page within the watermark's second never clears the set. */
  lemma {:induction false} InSecondNeverResets(st: LegacyState, es: seq<FilteredLogEvent>)
    requires InSecond(es, st.lastSeenSec)
    ensures NeverResets(st, es)
    decreases |es|
  {
    if es != [] {
      assert forall i :: 0 <= i < |es[1..]| ==> es[1..][i] == es[i + 1];
      InSecondNeverResets(LegacyStep(st, es[0]), es[1..]);
    }
  }

  /** A page too short to fill the set never clears it, however many seconds it spans. */
  lemma {:induction false} BelowLimitNeverResets(st: LegacyState, es: seq<FilteredLogEvent>)
    requires |st.seen| + |es| < CacheResetSize
    ensures NeverResets(st, es)
    decreases |es|
  {
    if es != [] {
      var st' := LegacyStep(st, es[0]);
      assert |st'.seen| <= |st.seen| + 1 by {
        assert st'.seen == st.seen + {es[0].eventId};
      }
      BelowLimitNeverResets(st', es[1..]);
    }
  }

  /** One event that does not clear the set: it is emitted exactly when its id is new. */
  lemma LegacyNewlyStep(st: LegacyState, es: seq<FilteredLogEvent>)
    requires es != [] && NeverResets(st, es)
    ensures var st' := LegacyStep(st, es[0]);
      st'.seen == st.seen + {es[0].eventId}
      && NeverResets(st', es[1..])
      && LegacyProcess(st, es) == LegacyProcess(st', es[1..])
      && LegacyNewly(st, es) == (if es[0].eventId in st.seen then [] else [es[0]]) + LegacyNewly(st', es[1..])
  {
    var e := es[0];
    var st' := LegacyStep(st, e);
    var r := LegacyProcess(st', es[1..]);
    assert LegacyProcess(st, es) == r;
    if e.eventId !in st.seen {
      SuffixAfterPrefix(r.emitted, st.emitted, e);
    }
  }

  /** A page that never clears the set never emits an id already seen. */
  lemma {:induction false} LegacyEmitsOnlyUnseen(st: LegacyState, es: seq<FilteredLogEvent>)
    requires NeverResets(st, es)
    ensures Ids(LegacyNewly(st, es)) !! st.seen
    decreases |es|
  {
    if es != [] {
      var e := es[0];
      var st' := LegacyStep(st, e);
      LegacyNewlyStep(st, es);
      LegacyEmitsOnlyUnseen(st', es[1..]);
      if e.eventId !in st.seen {
        IdsCons(e, LegacyNewly(st', es[1..]));
      }
    } else {
      assert LegacyNewly(st, es) == [];
    }
  }

  /** A page that never clears the set emits each id at most once. */
  lemma {:induction false} LegacyEmitsOnce(st: LegacyState, es: seq<FilteredLogEvent>)
    requires NeverResets(st, es)
    ensures DistinctIds(LegacyNewly(st, es))
    decreases |es|
  {
    if es != [] {
      var e := es[0];
      var st' := LegacyStep(st, e);
      LegacyNewlyStep(st, es);
      LegacyEmitsOnce(st', es[1..]);
      if e.eventId !in st.seen {
        LegacyEmitsOnlyUnseen(st', es[1..]);
        DistinctCons(e, LegacyNewly(st', es[1..]));
      }
    } else {
      assert LegacyNewly(st, es) == [];
    }
  }

  /** A page that never clears the set ends holding the old ids and the emitted ones. */
  lemma {:induction false} LegacySeenIsOldPlusEmitted(st: LegacyState, es: seq<FilteredLogEvent>)
    requires NeverResets(st, es)
    ensures LegacyProcess(st, es).seen == st.seen + Ids(LegacyNewly(st, es))
    decreases |es|
  {
    if es != [] {
      var e := es[0];
      var st' := LegacyStep(st, e);
      LegacyNewlyStep(st, es);
      LegacySeenIsOldPlusEmitted(st', es[1..]);
      IdsCons(e, LegacyNewly(st', es[1..]));
    } else {
      assert LegacyNewly(st, es) == [];
    }
  }

  /** Deduplication while the set is not cleared: distinct emitted ids, none seen before,
      and the set ends as the old ids plus the emitted ones. */
  predicate Deduplicated(st: LegacyState, es: seq<FilteredLogEvent>) {
    var r := LegacyProcess(st, es);
    var newly := r.emitted[|st.emitted|..];
    (forall i, j :: 0 <= i < j < |newly| ==> newly[i].eventId != newly[j].eventId)
    && (forall i :: 0 <= i < |newly| ==> newly[i].eventId !in st.seen)
    && r.seen == st.seen + Ids(newly)
  }

  lemma LegacyDedup(st: LegacyState, es: seq<FilteredLogEvent>)
    requires NeverResets(st, es)
    ensures Deduplicated(st, es)
  {
    LegacyEmitsOnce(st, es);
    LegacyEmitsOnlyUnseen(st, es);
    LegacySeenIsOldPlusEmitted(st, es);
    var newly := LegacyNewly(st, es);
    assert forall i :: 0 <= i < |newly| ==> newly[i].eventId in Ids(newly);
  }

  /** A page within the watermark's second is deduplicated, whatever the set's size. */
  lemma LegacyDedupWithinSecond(st: LegacyState, es: seq<FilteredLogEvent>)
    requires InSecond(es, st.lastSeenSec)
    ensures Deduplicated(st, es)
  {
    InSecondNeverResets(st, es);
    LegacyDedup(st, es);
  }

  /** A page spanning any number of seconds is deduplicated while the set cannot reach
      the reset size. */
  lemma LegacyDedupBelowLimit(st: LegacyState, es: seq<FilteredLogEvent>)
    requires |st.seen| + |es| < CacheResetSize
    ensures Deduplicated(st, es)
  {
    BelowLimitNeverResets(st, es);
    LegacyDedup(st, es);
  }

  /** A new second with a full cache forgets every id: a repeated event is emitted again. */
  lemma LegacyResetReemits(st: LegacyState, e: FilteredLogEvent)
    requires |st.seen| >= CacheResetSize && EventSecond(e) != st.lastSeenSec
    ensures LegacyStep(st, e) == LegacyState({e.eventId}, EventSecond(e), st.emitted + [e])
  {
  }

  lemma LegacyProcessStep(st: LegacyState, es: seq<FilteredLogEvent>, i: nat)
    requires i < |es|
    ensures LegacyProcess(st, es[i..]) == LegacyProcess(LegacyStep(st, es[i]), es[i + 1..])
  {
    assert es[i..][1..] == es[i + 1..];
  }

  /** The state of one v1 `Tail` call that the page handler touches. */
  class LegacyTailer {
    const follow: bool
    const cache: SeenCache
    var lastSeenTimestamp: int
    var output: seq<FilteredLogEvent>
    var outputClosed: bool
    /** The 205 ms timer re-armed after the last page when following. */
    var timerArmed: bool

    /** The watermark starts at the start time in epoch seconds. */
    constructor (follow: bool, startTimeEpoch: int)
      ensures this.follow == follow && lastSeenTimestamp == startTimeEpoch
      ensures fresh(cache) && cache.Valid() && cache.seen == map[]
      ensures output == [] && !outputClosed && !timerArmed
    {
      this.follow := follow;
      cache := new SeenCache();
      lastSeenTimestamp := startTimeEpoch;
      output := [];
      outputClosed := false;
      timerArmed := false;
    }

    function State(): LegacyState
      reads this, cache
    {
      LegacyState(cache.seen.Keys, lastSeenTimestamp, output)
    }

    /** The body of pageHandler's event loop. */
    method HandleEvent(event: FilteredLogEvent)
      requires cache.Valid()
      modifies this, cache
      ensures cache.Valid()
      ensures State() == LegacyStep(old(State()), event)
      ensures outputClosed == old(outputClosed) && timerArmed == old(timerArmed)
    {
      var eventTimestamp := GoDiv(event.timestamp, SecondInMillis);
      if eventTimestamp != lastSeenTimestamp {
        lastSeenTimestamp := eventTimestamp;
        if cache.Size() >= CacheResetSize {
          cache.Reset();
        }
      }
      if !cache.Has(event.eventId) {
        cache.Add(event.eventId);
        output := output + [event];
      }
    }

    /** pageHandler: the event loop, then on the last page close the output (no follow)
        or re-arm the timer (follow); it asks for more pages unless this was the last. */
    method PageHandler(events: seq<FilteredLogEvent>, lastPage: bool) returns (more: bool)
      requires cache.Valid()
      modifies this, cache
      ensures cache.Valid()
      ensures State() == LegacyProcess(old(State()), events)
      ensures more == !lastPage
      ensures outputClosed == (old(outputClosed) || (lastPage && !follow))
      ensures timerArmed == (old(timerArmed) || (lastPage && follow))
    {
      var i := 0;
      while i < |events|
        invariant 0 <= i <= |events|
        invariant cache.Valid()
        invariant LegacyProcess(old(State()), events) == LegacyProcess(State(), events[i..])
        invariant outputClosed == old(outputClosed) && timerArmed == old(timerArmed)
      {
        LegacyProcessStep(State(), events, i);
        HandleEvent(events[i]);
        i := i + 1;
      }
      if lastPage {
        if !follow {
          outputClosed := true;
        } else {
          timerArmed := true;
        }
      }
      more := !lastPage;
    }
  }
}

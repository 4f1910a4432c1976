/** The tailer of cloudwatch/tail.go: which streams to ask for, how a filter request is
    built, how the stream initialiser probes and retries, and what one poll does with
    the pages of events it gets back (grepv filter, deduplication through the TTL cache,
    emission, watermark). Goroutines, channels, timers and the SDK paginator are not
    modelled: a fetch of streams is a Probe, a poll's pages are a sequence of PageFetch,
    the idle channel is a flag and the output channel a sequence. */
module Tail {
  import opened Common
  import opened Types
  import opened EventTtlCache

  /** A filter request takes at most this many stream names. */
  const MaxFilterStreams: nat := 100

  /** The page-error text that earns one retry. */
  const Throttling: string := "ThrottlingException"

  /** The cache's time to live in the tailer: 60 seconds. */
  const TailCacheTtlMs: int := 60_000

  // ---------------------------------------------------------------- stream choice

  /** Stable sort by last ingestion time, then keep the last (most recently active)
      100 streams. */
  function SortLogStreamsByMostRecentEvent(ss: seq<LogStream>): (r: seq<LogStream>)
    ensures |r| == if |ss| > MaxFilterStreams then MaxFilterStreams else |ss|
    ensures SortedByIngestion(r)
    ensures multiset(r) <= multiset(ss)
    ensures |ss| <= MaxFilterStreams ==> r == StableSortByIngestion(ss)
    ensures |ss| > MaxFilterStreams ==> r == StableSortByIngestion(ss)[|ss| - MaxFilterStreams..]
  {
    var s := StableSortByIngestion(ss);
    if |s| > MaxFilterStreams then
      assert s == s[..|s| - MaxFilterStreams] + s[|s| - MaxFilterStreams..];
      s[|s| - MaxFilterStreams..]
    else s
  }

  /** A stream the truncation drops is no more recently active than any it keeps. */
  lemma TruncationDropsLeastRecent(ss: seq<LogStream>, y: LogStream, z: LogStream)
    requires y in ss && y !in SortLogStreamsByMostRecentEvent(ss)
    requires z in SortLogStreamsByMostRecentEvent(ss)
    ensures |ss| > MaxFilterStreams
    ensures IngestionKey(y) <= IngestionKey(z)
  {
    var s := StableSortByIngestion(ss);
    assert y in multiset(ss);
    assert y in s;
    if |ss| > MaxFilterStreams {
      DroppedPrefixIsLeast(s, |s| - MaxFilterStreams, y, z);
    }
  }

  /** In a sorted sequence, an element of the cut-off prefix is no later than any
      element of the kept suffix. */
  lemma DroppedPrefixIsLeast(s: seq<LogStream>, d: nat, y: LogStream, z: LogStream)
    requires SortedByIngestion(s) && d <= |s|
    requires y in s && y !in s[d..] && z in s[d..]
    ensures IngestionKey(y) <= IngestionKey(z)
  {
    var i :| 0 <= i < |s| && s[i] == y;
    var j :| 0 <= j < |s| - d && s[d..][j] == z;
    forall k | d <= k < |s| ensures s[k] in s[d..] {
      assert s[d..][k - d] == s[k];
    }
    assert s[i] == y && s[d + j] == z;
  }

  /** The names the initialiser hands to the filter: sorted and cut only when at least
      100 streams were found, otherwise in fetch order; nil when none were found. */
  function TargetStreams(streams: seq<LogStream>): (r: Option<seq<string>>)
    ensures r.None? <==> streams == []
    ensures r.Some? ==> |r.value| == if |streams| > MaxFilterStreams then MaxFilterStreams else |streams|
    ensures |streams| < MaxFilterStreams && r.Some? ==>
      forall i :: 0 <= i < |streams| ==> r.value[i] == streams[i].name
    ensures |streams| >= MaxFilterStreams ==> r == Some(Names(SortLogStreamsByMostRecentEvent(streams)))
  {
    var s := if |streams| >= MaxFilterStreams then SortLogStreamsByMostRecentEvent(streams) else streams;
    if s == [] then None else Some(Names(s))
  }

  /** Exactly 100 streams are put in ingestion order but none is dropped. */
  lemma HundredStreamsSortedNotCut(streams: seq<LogStream>)
    requires |streams| == MaxFilterStreams
    ensures TargetStreams(streams) == Some(Names(StableSortByIngestion(streams)))
    ensures multiset(SortLogStreamsByMostRecentEvent(streams)) == multiset(streams)
  {
  }

  // ---------------------------------------------------------------- request parameters

  /** The parts of `FilterLogEventsInput` the tailer sets; None is a field left nil. */
  datatype FilterParams = FilterParams(
    logGroupName: string,
    startTime: int,
    filterPattern: Option<string>,
    logStreamNames: Option<seq<string>>,
    endTime: Option<int>)

  /** makeParams; its stream-name-prefix argument is ignored by the source. */
  function MakeParams(logGroupName: string, streamNames: Option<seq<string>>,
                      startTimeMs: int, endTimeMs: int, grep: string, follow: bool): (p: FilterParams)
    ensures p.logGroupName == logGroupName && p.startTime == startTimeMs
    ensures p.filterPattern.Some? <==> grep != ""
    ensures p.filterPattern.Some? ==> p.filterPattern.value == grep
    ensures p.logStreamNames == streamNames
    ensures p.endTime.Some? <==> !follow && endTimeMs != 0
    ensures p.endTime.Some? ==> p.endTime.value == endTimeMs
  {
    FilterParams(
      logGroupName,
      startTimeMs,
      if grep != "" then Some(grep) else None,
      streamNames,
      if !follow && endTimeMs != 0 then Some(endTimeMs) else None)
  }

  // ---------------------------------------------------------------- stream set and initialiser

  /** logStreamsType: the stream names the filter requests use, swapped as a whole. */
  class StreamSet {
    var groupStreams: Option<seq<string>>

    constructor ()
      ensures groupStreams == None
    {
      groupStreams := None;
    }

    method Reset(groupStreams: Option<seq<string>>)
      modifies this
      ensures this.groupStreams == groupStreams
    {
      this.groupStreams := groupStreams;
    }

    function Get(): Option<seq<string>>
      reads this
    {
      groupStreams
    }
  }

  datatype FetchError = ResourceNotFound | OtherFailure(msg: string)

  /** One run of the stream fetch: either every stream arrived and the channel closed,
      or an error arrived. */
  datatype Probe = Listed(streams: seq<LogStream>) | FetchFailed(err: FetchError)

  /** What the initialiser's loop comes to: streams installed after `probesUsed`
      probes, an error returned, or still retrying when the given probes run out. */
  datatype InitResult = Ready(names: Option<seq<string>>, probesUsed: nat) | Failed(err: FetchError) | Waiting

  /** The probe loop: a missing log group is probed again when retry is set; any other
      error, or a missing group without retry, ends it with that error; a listing ends
      it with that listing's names. */
  function InitSpec(retry: bool, probes: seq<Probe>): (r: InitResult)
    ensures r.Waiting? ==> retry || probes == []
    decreases |probes|
  {
    if probes == [] then Waiting
    else match probes[0]
      case Listed(ss) => Ready(TargetStreams(ss), 1)
      case FetchFailed(e) =>
        if e == ResourceNotFound && retry then Later(1, InitSpec(retry, probes[1..]))
        else Failed(e)
  }

  /** The loop is ready only on a listing that follows nothing but missing-group
      errors, and without retry only on the first probe. */
  lemma {:induction false} InitReadyMeaning(retry: bool, probes: seq<Probe>)
    requires InitSpec(retry, probes).Ready?
    ensures var r := InitSpec(retry, probes);
      1 <= r.probesUsed <= |probes|
      && probes[r.probesUsed - 1].Listed?
      && r.names == TargetStreams(probes[r.probesUsed - 1].streams)
      && (forall i :: 0 <= i < r.probesUsed - 1 ==> probes[i] == FetchFailed(ResourceNotFound))
      && (retry || r.probesUsed == 1)
    decreases |probes|
  {
    if probes[0].FetchFailed? {
      var rest := probes[1..];
      InitReadyMeaning(retry, rest);
      var k := InitSpec(retry, rest).probesUsed;
      assert InitSpec(retry, probes).probesUsed == k + 1;
      assert forall i :: 0 < i <= k ==> probes[i] == rest[i - 1];
    }
  }

  /** The loop fails only on an error it does not retry. */
  lemma {:induction false} InitFailedMeaning(retry: bool, probes: seq<Probe>)
    requires InitSpec(retry, probes).Failed?
    ensures FetchFailed(InitSpec(retry, probes).err) in probes
    ensures InitSpec(retry, probes).err != ResourceNotFound || !retry
    decreases |probes|
  {
    if probes[0] == FetchFailed(ResourceNotFound) && retry {
      InitFailedMeaning(retry, probes[1..]);
      assert forall p :: p in probes[1..] ==> p in probes;
    }
  }

  /** The loop is still waiting only when every probe so far was a retried missing group. */
  lemma {:induction false} InitWaitingMeaning(retry: bool, probes: seq<Probe>)
    requires InitSpec(retry, probes).Waiting?
    ensures forall i :: 0 <= i < |probes| ==> probes[i] == FetchFailed(ResourceNotFound) && retry
    decreases |probes|
  {
    if probes != [] {
      var rest := probes[1..];
      InitWaitingMeaning(retry, rest);
      assert forall i :: 0 < i < |probes| ==> probes[i] == rest[i - 1];
    }
  }

  /** The same outcome, reached n probes later. */
  function Later(n: nat, r: InitResult): InitResult {
    match r
    case Ready(names, k) => Ready(names, k + n)
    case _ => r
  }

  /** One probe of the loop, seen from its start. */
  lemma InitStep(retry: bool, probes: seq<Probe>, i: nat)
    requires i < |probes|
    requires InitSpec(retry, probes) == Later(i, InitSpec(retry, probes[i..]))
    ensures probes[i].Listed? ==> InitSpec(retry, probes) == Ready(TargetStreams(probes[i].streams), i + 1)
    ensures probes[i].FetchFailed? && probes[i].err == ResourceNotFound && retry ==>
      InitSpec(retry, probes) == Later(i + 1, InitSpec(retry, probes[i + 1..]))
    ensures probes[i].FetchFailed? && (probes[i].err != ResourceNotFound || !retry) ==>
      InitSpec(retry, probes) == Failed(probes[i].err)
  {
    assert probes[i..][1..] == probes[i + 1..];
  }

  /** initialiseStreams up to its refresh goroutine: probe until a listing or a final
      error; a listing replaces the stream set and signals idle once. */
  method InitialiseStreams(retry: bool, probes: seq<Probe>, streams: StreamSet)
    returns (r: InitResult, idleSignals: nat)
    modifies streams
    ensures r == InitSpec(retry, probes)
    ensures r.Ready? ==> streams.groupStreams == r.names && idleSignals == 1
    ensures !r.Ready? ==> streams.groupStreams == old(streams.groupStreams) && idleSignals == 0
  {
    idleSignals := 0;
    var i := 0;
    while i < |probes|
      invariant 0 <= i <= |probes|
      invariant InitSpec(retry, probes) == Later(i, InitSpec(retry, probes[i..]))
      invariant streams.groupStreams == old(streams.groupStreams)
    {
      InitStep(retry, probes, i);
      match probes[i]
      case Listed(ss) =>
        var names := TargetStreams(ss);
        streams.Reset(names);
        idleSignals := idleSignals + 1;
        r := Ready(names, i + 1);
        return;
      case FetchFailed(e) =>
        if e == ResourceNotFound && retry {
          i := i + 1;
        } else {
          r := Failed(e);
          return;
        }
    }
    r := Waiting;
  }

  /** The stream set after one refresh: replaced only by a non-nil list of names, so a
      failed fetch or an empty listing keeps the current set. */
  function Refreshed(current: Option<seq<string>>, p: Probe): (r: Option<seq<string>>)
    ensures current.Some? ==> r.Some?
    ensures p.FetchFailed? ==> r == current
    ensures p.Listed? && p.streams == [] ==> r == current
    ensures p.Listed? && p.streams != [] ==> r.Some? && r == TargetStreams(p.streams)
  {
    match p
    case FetchFailed(_) => current
    case Listed(ss) =>
      var names := TargetStreams(ss);
      if names.Some? then names else current
  }

  /** One tick of the five-second refresh. */
  method Refresh(streams: StreamSet, p: Probe)
    modifies streams
    ensures streams.groupStreams == Refreshed(old(streams.groupStreams), p)
  {
    var s := match p case Listed(ss) => TargetStreams(ss) case FetchFailed(_) => None;
    if s.Some? {
      streams.Reset(s);
    }
  }

  // ---------------------------------------------------------------- one page of events

  /** The tailer's state across pages: the cache's map and most recent timestamp, the
      watermark, and everything emitted so far. */
  datatype PageState = PageState(seen: map<string, int>, mostRecent: int, lastSeen: int, emitted: seq<FilteredLogEvent>)

  /** An event survives the grepv filter unless grepv is set and its regex matches. */
  predicate PassesGrepv(e: FilteredLogEvent, grepv: string, matches: string -> bool) {
    grepv == "" || !matches(e.message)
  }

  /** One event of a page. */
  function Step(st: PageState, e: FilteredLogEvent, grepv: string, matches: string -> bool): (r: PageState)
    ensures r.emitted == if PassesGrepv(e, grepv, matches) && !Present(st.seen, e.eventId)
                         then st.emitted + [e] else st.emitted
    ensures r.emitted == st.emitted ==> r == st
    ensures forall id :: Present(st.seen, id) ==> Present(r.seen, id)
  {
    if !PassesGrepv(e, grepv, matches) then st
    else if Present(st.seen, e.eventId) then st
    else
      var lastSeen := if e.timestamp != st.lastSeen then e.timestamp else st.lastSeen;
      PageState(st.seen[e.eventId := e.timestamp], e.timestamp, lastSeen, st.emitted + [e])
  }

  /** The events of a page, in order. Emission only appends. */
  function ProcessEvents(st: PageState, es: seq<FilteredLogEvent>, grepv: string, matches: string -> bool): (r: PageState)
    ensures |st.emitted| <= |r.emitted| && r.emitted[..|st.emitted|] == st.emitted
    decreases |es|
  {
    if es == [] then st
    else ProcessEvents(Step(st, es[0], grepv, matches), es[1..], grepv, matches)
  }

  /** Only events of the page that pass the filter are emitted. */
  lemma {:induction false} EmitsFromPage(st: PageState, es: seq<FilteredLogEvent>, grepv: string, matches: string -> bool)
    ensures var r := ProcessEvents(st, es, grepv, matches);
      forall i :: |st.emitted| <= i < |r.emitted| ==> r.emitted[i] in es && PassesGrepv(r.emitted[i], grepv, matches)
    decreases |es|
  {
    if es != [] {
      var st' := Step(st, es[0], grepv, matches);
      ProcessEventsCons(st, es, grepv, matches);
      StepWatermark(st, es[0], grepv, matches);
      EmitsFromPage(st', es[1..], grepv, matches);
      assert forall x :: x in es[1..] ==> x in es;
    }
  }

  /** Nothing is ever forgotten from the cache. */
  lemma {:induction false} NeverForgets(st: PageState, es: seq<FilteredLogEvent>, grepv: string, matches: string -> bool)
    ensures forall id :: Present(st.seen, id) ==> Present(ProcessEvents(st, es, grepv, matches).seen, id)
    decreases |es|
  {
    if es != [] {
      var st' := Step(st, es[0], grepv, matches);
      ProcessEventsCons(st, es, grepv, matches);
      NeverForgets(st', es[1..], grepv, matches);
    }
  }

  predicate NonZeroTimestamps(es: seq<FilteredLogEvent>) {
    forall i :: 0 <= i < |es| ==> es[i].timestamp != 0
  }

  /** The events a page emits. */
  function Newly(st: PageState, es: seq<FilteredLogEvent>, grepv: string, matches: string -> bool): seq<FilteredLogEvent> {
    ProcessEvents(st, es, grepv, matches).emitted[|st.emitted|..]
  }

  /** Whether the next event is emitted: it passes the filter and is not yet seen. */
  predicate Emits(st: PageState, e: FilteredLogEvent, grepv: string, matches: string -> bool) {
    PassesGrepv(e, grepv, matches) && !Present(st.seen, e.eventId)
  }

  lemma NewlyStep(st: PageState, es: seq<FilteredLogEvent>, grepv: string, matches: string -> bool)
    requires es != []
    ensures var st' := Step(st, es[0], grepv, matches);
      Newly(st, es, grepv, matches)
        == (if Emits(st, es[0], grepv, matches) then [es[0]] else []) + Newly(st', es[1..], grepv, matches)
  {
    var e := es[0];
    var st' := Step(st, e, grepv, matches);
    var r := ProcessEvents(st', es[1..], grepv, matches);
    assert ProcessEvents(st, es, grepv, matches) == r;
    if Emits(st, e, grepv, matches) {
      assert st'.emitted == st.emitted + [e];
      SuffixAfterPrefix(r.emitted, st.emitted, e);
    } else {
      assert st' == st;
    }
  }

  lemma NonZeroTail(es: seq<FilteredLogEvent>)
    requires es != [] && NonZeroTimestamps(es)
    ensures NonZeroTimestamps(es[1..]) && es[0].timestamp != 0
  {
    assert forall i :: 0 <= i < |es[1..]| ==> es[1..][i] == es[i + 1];
  }

  /** A page never emits an id the cache already held. */
  lemma {:induction false} PageEmitsOnlyUnseen(st: PageState, es: seq<FilteredLogEvent>, grepv: string, matches: string -> bool)
    ensures forall x :: x in Newly(st, es, grepv, matches) ==> !Present(st.seen, x.eventId)
    decreases |es|
  {
    if es != [] {
      var st' := Step(st, es[0], grepv, matches);
      NewlyStep(st, es, grepv, matches);
      PageEmitsOnlyUnseen(st', es[1..], grepv, matches);
      assert forall id :: Present(st.seen, id) ==> Present(st'.seen, id);
    }
  }

  /** With non-zero timestamps a page emits each id at most once. */
  lemma {:induction false} PageEmitsOnce(st: PageState, es: seq<FilteredLogEvent>, grepv: string, matches: string -> bool)
    requires NonZeroTimestamps(es)
    ensures DistinctIds(Newly(st, es, grepv, matches))
    decreases |es|
  {
    if es != [] {
      var e := es[0];
      var st' := Step(st, e, grepv, matches);
      NonZeroTail(es);
      NewlyStep(st, es, grepv, matches);
      PageEmitsOnce(st', es[1..], grepv, matches);
      if Emits(st, e, grepv, matches) {
        var later := Newly(st', es[1..], grepv, matches);
        PageEmitsOnlyUnseen(st', es[1..], grepv, matches);
        assert Present(st'.seen, e.eventId);
        assert e.eventId !in Ids(later);
        DistinctCons(e, later);
      }
    } else {
      assert Newly(st, es, grepv, matches) == [];
    }
  }

  /** With non-zero timestamps the cache afterwards holds exactly the ids it held
      before and the ids the page emitted. */
  lemma {:induction false} PageSeenIsOldPlusEmitted(st: PageState, es: seq<FilteredLogEvent>, grepv: string, matches: string -> bool)
    requires NonZeroTimestamps(es)
    ensures forall id :: (Present(ProcessEvents(st, es, grepv, matches).seen, id)
      <==> Present(st.seen, id) || id in Ids(Newly(st, es, grepv, matches)))
    decreases |es|
  {
    if es != [] {
      var e := es[0];
      var st' := Step(st, e, grepv, matches);
      NonZeroTail(es);
      NewlyStep(st, es, grepv, matches);
      PageSeenIsOldPlusEmitted(st', es[1..], grepv, matches);
      assert ProcessEvents(st, es, grepv, matches) == ProcessEvents(st', es[1..], grepv, matches);
      var later := Newly(st', es[1..], grepv, matches);
      if Emits(st, e, grepv, matches) {
        assert forall id :: Present(st'.seen, id) <==> Present(st.seen, id) || id == e.eventId;
        IdsCons(e, later);
      } else {
        assert st' == st;
      }
    }
  }

  /** With non-zero timestamps, a page emits each id at most once and never one the
      cache already held; afterwards the cache holds exactly the old ids and the
      emitted ones. */
  lemma PageEmitsUnseenOnce(st: PageState, es: seq<FilteredLogEvent>, grepv: string, matches: string -> bool)
    requires NonZeroTimestamps(es)
    ensures var r := ProcessEvents(st, es, grepv, matches);
      var newly := r.emitted[|st.emitted|..];
      (forall i, j :: 0 <= i < j < |newly| ==> newly[i].eventId != newly[j].eventId)
      && (forall i :: 0 <= i < |newly| ==> !Present(st.seen, newly[i].eventId))
      && (forall id :: Present(r.seen, id) <==> Present(st.seen, id) || id in Ids(newly))
  {
    PageEmitsOnce(st, es, grepv, matches);
    PageEmitsOnlyUnseen(st, es, grepv, matches);
    PageSeenIsOldPlusEmitted(st, es, grepv, matches);
  }

  /** With non-zero timestamps, every event of the page that passes the filter has its
      id in the cache afterwards: it was emitted now, or seen before. */
  lemma {:induction false} PageMarksPassingSeen(st: PageState, es: seq<FilteredLogEvent>, grepv: string, matches: string -> bool)
    requires NonZeroTimestamps(es)
    ensures forall i :: 0 <= i < |es| && PassesGrepv(es[i], grepv, matches) ==>
      Present(ProcessEvents(st, es, grepv, matches).seen, es[i].eventId)
    decreases |es|
  {
    if es != [] {
      var st' := Step(st, es[0], grepv, matches);
      ProcessEventsCons(st, es, grepv, matches);
      NonZeroTail(es);
      PageMarksPassingSeen(st', es[1..], grepv, matches);
      NeverForgets(st', es[1..], grepv, matches);
      forall i | 0 <= i < |es| && PassesGrepv(es[i], grepv, matches)
        ensures Present(ProcessEvents(st, es, grepv, matches).seen, es[i].eventId)
      {
        if i > 0 {
          assert es[1..][i - 1] == es[i];
        }
      }
    }
  }

  /** A page that emits nothing leaves the watermark and the cache's most recent
      timestamp where they were. */
  lemma {:induction false} SilentPageKeepsWatermark(st: PageState, es: seq<FilteredLogEvent>, grepv: string, matches: string -> bool)
    requires |ProcessEvents(st, es, grepv, matches).emitted| == |st.emitted|
    ensures ProcessEvents(st, es, grepv, matches).lastSeen == st.lastSeen
    ensures ProcessEvents(st, es, grepv, matches).mostRecent == st.mostRecent
    decreases |es|
  {
    if es != [] {
      var st' := Step(st, es[0], grepv, matches);
      ProcessEventsCons(st, es, grepv, matches);
      StepWatermark(st, es[0], grepv, matches);
      assert |ProcessEvents(st', es[1..], grepv, matches).emitted| >= |st'.emitted|;
      assert st' == st;
      SilentPageKeepsWatermark(st', es[1..], grepv, matches);
    }
  }

  /** The watermark and the cache's most recent timestamp both end on the timestamp
      of the last emitted event, whether or not it is older than the watermark was. */
  lemma {:induction false} WatermarkIsLastEmitted(st: PageState, es: seq<FilteredLogEvent>, grepv: string, matches: string -> bool)
    requires |ProcessEvents(st, es, grepv, matches).emitted| > |st.emitted|
    ensures var r := ProcessEvents(st, es, grepv, matches);
      r.lastSeen == r.emitted[|r.emitted| - 1].timestamp && r.mostRecent == r.lastSeen
    decreases |es|
  {
    var st' := Step(st, es[0], grepv, matches);
    var r := ProcessEvents(st', es[1..], grepv, matches);
    ProcessEventsCons(st, es, grepv, matches);
    StepWatermark(st, es[0], grepv, matches);
    if |r.emitted| > |st'.emitted| {
      WatermarkIsLastEmitted(st', es[1..], grepv, matches);
    } else {
      assert Emits(st, es[0], grepv, matches);
      SilentPageKeepsWatermark(st', es[1..], grepv, matches);
      assert r.emitted == r.emitted[..|st'.emitted|] == st'.emitted;
    }
  }

  /** One event moves the watermark and the most recent timestamp only when it is
      emitted, and then to its own timestamp. */
  lemma StepWatermark(st: PageState, e: FilteredLogEvent, grepv: string, matches: string -> bool)
    ensures var st' := Step(st, e, grepv, matches);
      if Emits(st, e, grepv, matches) then
        st'.emitted == st.emitted + [e] && st'.lastSeen == e.timestamp && st'.mostRecent == e.timestamp
      else st' == st
  {
  }

  /** The watermark follows an older event backwards. */
  lemma WatermarkCanMoveBackward(matches: string -> bool)
    ensures var e := FilteredLogEvent("late", 3_000, "m", "s");
      ProcessEvents(PageState(map[], 0, 5_000, []), [e], "", matches).lastSeen == 3_000
  {
    var e := FilteredLogEvent("late", 3_000, "m", "s");
    assert [e][1..] == [];
  }

  /** An event stored with timestamp 0 is never seen by the cache, so a page holding it
      twice emits it twice. */
  lemma ZeroTimestampDefeatsDedup(matches: string -> bool)
    ensures var e := FilteredLogEvent("z", 0, "m", "s");
      ProcessEvents(PageState(map[], 0, 0, []), [e, e], "", matches).emitted == [e, e]
  {
    var e := FilteredLogEvent("z", 0, "m", "s");
    var st0 := PageState(map[], 0, 0, []);
    var st1 := Step(st0, e, "", matches);
    assert st1.seen == map["z" := 0];
    assert !Present(st1.seen, "z");
    var st2 := Step(st1, e, "", matches);
    assert st2.emitted == [e, e];
    assert [e, e][1..] == [e];
    assert [e][1..] == [];
    assert ProcessEvents(st2, [], "", matches) == st2;
    assert ProcessEvents(st1, [e], "", matches) == st2;
    assert ProcessEvents(st0, [e, e], "", matches) == st2;
  }

  lemma ProcessEventsCons(st: PageState, es: seq<FilteredLogEvent>, grepv: string, matches: string -> bool)
    requires es != []
    ensures ProcessEvents(st, es, grepv, matches) == ProcessEvents(Step(st, es[0], grepv, matches), es[1..], grepv, matches)
  {
  }

  lemma ProcessEventsStep(st: PageState, es: seq<FilteredLogEvent>, i: nat, grepv: string, matches: string -> bool)
    requires i < |es|
    ensures ProcessEvents(st, es[i..], grepv, matches) == ProcessEvents(Step(st, es[i], grepv, matches), es[i + 1..], grepv, matches)
  {
    assert es[i..][0] == es[i] && es[i..][1..] == es[i + 1..];
  }

  /** Processing two runs of events one after the other is processing their
      concatenation. */
  lemma {:induction false} ProcessEventsAppend(st: PageState, a: seq<FilteredLogEvent>, b: seq<FilteredLogEvent>, grepv: string, matches: string -> bool)
    ensures ProcessEvents(st, a + b, grepv, matches)
      == ProcessEvents(ProcessEvents(st, a, grepv, matches), b, grepv, matches)
    decreases |a|
  {
    if a != [] {
      assert (a + b)[0] == a[0];
      assert (a + b)[1..] == a[1..] + b;
      ProcessEventsAppend(Step(st, a[0], grepv, matches), a[1..], b, grepv, matches);
    } else {
      assert a + b == b;
    }
  }

  // ---------------------------------------------------------------- one poll

  /** One page slot of the paginator: the first NextPage answer, and the answer of the
      single retry, consulted only after a throttling error. */
  datatype PageFetch = PageFetch(first: Result<seq<FilteredLogEvent>, string>, retry: Result<seq<FilteredLogEvent>, string>)

  predicate Throttled(msg: string) {
    HasSubstring(msg, Throttling)
  }

  /** The page's events, or the error that ends the process. */
  function PageEvents(f: PageFetch): (r: Result<seq<FilteredLogEvent>, string>)
    ensures r.Ok? <==> f.first.Ok? || (Throttled(f.first.error) && f.retry.Ok?)
    ensures f.first.Ok? ==> r == f.first
    ensures r.Err? ==> r == (if Throttled(f.first.error) then f.retry else f.first)
  {
    match f.first
    case Ok(_) => f.first
    case Err(msg) => if Throttled(msg) then f.retry else f.first
  }

  /** One NextPage call with its single retry after a throttling error. */
  method FetchPage(f: PageFetch) returns (res: Result<seq<FilteredLogEvent>, string>)
    ensures res == PageEvents(f)
  {
    res := f.first;
    if res.Err? && Throttled(res.error) {
      res := f.retry;
    }
  }

  /** How a poll ends: the process exits on a page error; otherwise the output is
      closed (no follow) or idle is re-armed for the next tick (follow). A tick that
      finds no idle token skips polling. */
  datatype PollOutcome = Fatal(msg: string) | Closed | Rearmed | Skipped

  datatype RoundResult = RoundResult(state: PageState, outcome: PollOutcome)

  /** All the pages of one poll. */
  function Round(st: PageState, pages: seq<PageFetch>, follow: bool, grepv: string, matches: string -> bool): (r: RoundResult)
    ensures r.outcome != Skipped
    ensures r.outcome.Fatal? <==> exists i :: 0 <= i < |pages| && PageEvents(pages[i]).Err?
    ensures !r.outcome.Fatal? ==> r.outcome == if follow then Rearmed else Closed
    ensures |st.emitted| <= |r.state.emitted| && r.state.emitted[..|st.emitted|] == st.emitted
    decreases |pages|
  {
    if pages == [] then RoundResult(st, if follow then Rearmed else Closed)
    else match PageEvents(pages[0])
      case Err(msg) => RoundResult(st, Fatal(msg))
      case Ok(es) =>
        var r := Round(ProcessEvents(st, es, grepv, matches), pages[1..], follow, grepv, matches);
        assert forall i :: 0 < i < |pages| ==> pages[1..][i - 1] == pages[i];
        r
  }

  /** The poll from page i on: it ends on that page's error, or carries on from
      the state that page leaves. */
  lemma RoundStep(st: PageState, pages: seq<PageFetch>, i: nat, follow: bool, grepv: string, matches: string -> bool)
    requires i < |pages|
    ensures PageEvents(pages[i]).Err? ==>
      Round(st, pages[i..], follow, grepv, matches) == RoundResult(st, Fatal(PageEvents(pages[i]).error))
    ensures PageEvents(pages[i]).Ok? ==>
      Round(st, pages[i..], follow, grepv, matches)
        == Round(ProcessEvents(st, PageEvents(pages[i]).value, grepv, matches), pages[i + 1..], follow, grepv, matches)
  {
    assert pages[i..][0] == pages[i] && pages[i..][1..] == pages[i + 1..];
  }

  /** The events of all pages, when every page arrives. */
  function AllEvents(pages: seq<PageFetch>): seq<FilteredLogEvent>
    requires forall i :: 0 <= i < |pages| ==> PageEvents(pages[i]).Ok?
  {
    if pages == [] then [] else PageEvents(pages[0]).value + AllEvents(pages[1..])
  }

  /** When no page fails, a poll is the event loop over the pages' events laid end to
      end: page boundaries make no difference. */
  lemma {:induction false} RoundIsOneLongPage(st: PageState, pages: seq<PageFetch>, follow: bool, grepv: string, matches: string -> bool)
    requires forall i :: 0 <= i < |pages| ==> PageEvents(pages[i]).Ok?
    ensures Round(st, pages, follow, grepv, matches).state == ProcessEvents(st, AllEvents(pages), grepv, matches)
    decreases |pages|
  {
    if pages != [] {
      var es := PageEvents(pages[0]).value;
      RoundIsOneLongPage(ProcessEvents(st, es, grepv, matches), pages[1..], follow, grepv, matches);
      ProcessEventsAppend(st, es, AllEvents(pages[1..]), grepv, matches);
    }
  }

  // ---------------------------------------------------------------- the tailer

  /** The state of one `Tail` call: its configuration, the cache, the stream set, the
      watermark, the idle token, and the output channel's contents and closed flag. */
  class Tailer {
    const logGroupName: string
    const follow: bool
    const grep: string
    const grepv: string
    /** The compiled grepv regex. */
    const matchesGrepv: string -> bool
    const endTimeMs: int
    const cache: EventCache
    const streams: StreamSet
    var lastSeenTimestamp: int
    var idle: bool
    var output: seq<FilteredLogEvent>
    var outputClosed: bool

    /** Tail's set-up before the stream initialiser: the watermark starts at the start
        time's whole seconds in milliseconds; a zero end time (None) leaves the end at
        0; the cache lives 60 seconds and sweeps at the default period. */
    constructor (logGroupName: string, follow: bool, startUnixSec: int, endUnixSec: Option<int>,
                 grep: string, grepv: string, matchesGrepv: string -> bool)
      ensures this.logGroupName == logGroupName && this.follow == follow
      ensures this.grep == grep && this.grepv == grepv && this.matchesGrepv == matchesGrepv
      ensures lastSeenTimestamp == startUnixSec * 1000
      ensures endTimeMs == if endUnixSec.None? then 0 else endUnixSec.value * 1000
      ensures fresh(cache) && cache.seen == map[] && cache.mostRecentTS == 0
      ensures cache.ttlMs == TailCacheTtlMs && cache.purgeFreqMs == DefaultPurgeFreqMs
      ensures fresh(streams) && streams.groupStreams == None
      ensures !idle && output == [] && !outputClosed
    {
      this.logGroupName := logGroupName;
      this.follow := follow;
      this.grep := grep;
      this.grepv := grepv;
      this.matchesGrepv := matchesGrepv;
      endTimeMs := if endUnixSec.None? then 0 else endUnixSec.value * 1000;
      cache := new EventCache(TailCacheTtlMs, 0);
      streams := new StreamSet();
      lastSeenTimestamp := startUnixSec * 1000;
      idle := false;
      output := [];
      outputClosed := false;
    }

    function State(): PageState
      reads this, cache
    {
      PageState(cache.seen, cache.mostRecentTS, lastSeenTimestamp, output)
    }

    /** Tail's choice between the initialiser (a non-empty stream name was given) and
        tailing the whole group at once. */
    method Open(logStreamName: Option<string>, retry: bool, probes: seq<Probe>) returns (r: InitResult)
      modifies this, streams
      ensures logStreamName.None? || logStreamName.value == "" ==>
        r == Ready(None, 0) && idle && streams.groupStreams == old(streams.groupStreams)
      ensures logStreamName.Some? && logStreamName.value != "" ==>
        r == InitSpec(retry, probes) && idle == r.Ready?
        && streams.groupStreams == if r.Ready? then r.names else old(streams.groupStreams)
      ensures State() == old(State()) && outputClosed == old(outputClosed)
    {
      if logStreamName.Some? && logStreamName.value != "" {
        var signals;
        r, signals := InitialiseStreams(retry, probes, streams);
        idle := signals > 0;
      } else {
        r := Ready(None, 0);
        idle := true;
      }
    }

    /** The event loop over one page's events. */
    method ProcessPage(events: seq<FilteredLogEvent>)
      modifies this, cache
      ensures State() == ProcessEvents(old(State()), events, grepv, matchesGrepv)
      ensures idle == old(idle) && outputClosed == old(outputClosed)
    {
      var i := 0;
      while i < |events|
        invariant 0 <= i <= |events|
        invariant ProcessEvents(old(State()), events, grepv, matchesGrepv)
               == ProcessEvents(State(), events[i..], grepv, matchesGrepv)
        invariant idle == old(idle) && outputClosed == old(outputClosed)
      {
        ProcessEventsStep(State(), events, i, grepv, matchesGrepv);
        HandleEvent(events[i]);
        i := i + 1;
      }
    }

    /** The body of the event loop: an event that survives grepv and is not cached
        moves the watermark to its timestamp, enters the cache and is sent out. */
    method HandleEvent(event: FilteredLogEvent)
      modifies this, cache
      ensures State() == Step(old(State()), event, grepv, matchesGrepv)
      ensures idle == old(idle) && outputClosed == old(outputClosed)
    {
      if grepv == "" || !matchesGrepv(event.message) {
        if !cache.Has(event.eventId) {
          var eventTimestamp := event.timestamp;
          if eventTimestamp != lastSeenTimestamp {
            lastSeenTimestamp := eventTimestamp;
          }
          cache.Add(event.eventId, event.timestamp);
          output := output + [event];
        }
      }
    }

    /** One limiter tick: with the idle token, build the request from the current
        watermark and stream set and drain the pages; without it, skip. */
    method Tick(pages: seq<PageFetch>) returns (outcome: PollOutcome, params: Option<FilterParams>)
      modifies this, cache
      ensures !old(idle) ==> (outcome == Skipped && params == None
        && State() == old(State()) && !idle && outputClosed == old(outputClosed))
      ensures old(idle) ==>
        params == Some(MakeParams(logGroupName, streams.groupStreams, old(lastSeenTimestamp), endTimeMs, grep, follow))
        && var rr := Round(old(State()), pages, follow, grepv, matchesGrepv);
           State() == rr.state && outcome == rr.outcome
           && idle == (outcome == Rearmed)
           && outputClosed == (old(outputClosed) || outcome == Closed)
    {
      if !idle {
        outcome := Skipped;
        params := None;
        return;
      }
      idle := false;
      params := Some(MakeParams(logGroupName, streams.Get(), lastSeenTimestamp, endTimeMs, grep, follow));
      var i := 0;
      while i < |pages|
        invariant 0 <= i <= |pages|
        invariant Round(old(State()), pages, follow, grepv, matchesGrepv)
               == Round(State(), pages[i..], follow, grepv, matchesGrepv)
        invariant !idle && outputClosed == old(outputClosed)
      {
        RoundStep(State(), pages, i, follow, grepv, matchesGrepv);
        var res := FetchPage(pages[i]);
        if res.Err? {
          outcome := Fatal(res.error);
          return;
        }
        ProcessPage(res.value);
        i := i + 1;
      }
      if !follow {
        outputClosed := true;
        outcome := Closed;
      } else {
        idle := true;
        outcome := Rearmed;
      }
    }
  }
}

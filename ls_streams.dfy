/** The stream lister of cloudwatch/lsstreams.go: the DescribeLogStreams request, and
    `getStreams`, which drains a pager page by page, sorts each page by last ingestion
    time and emits the stream names. The pager is a sequence of NextPage replies; the
    name channel is the emitted sequence; os.Exit and panics are outcomes. */
module LsStreams {
  import opened Common
  import opened Types

  /** The parts of `DescribeLogStreamsInput` LsStreams sets. */
  datatype DescribeParams = DescribeParams(logGroupName: string, logStreamNamePrefix: Option<string>)

  /** The prefix is passed on only when given and not empty. */
  function LsStreamsParams(groupName: string, streamName: Option<string>): (p: DescribeParams)
    ensures p.logGroupName == groupName
    ensures p.logStreamNamePrefix.Some? <==> streamName.Some? && streamName.value != ""
    ensures p.logStreamNamePrefix.Some? ==> p.logStreamNamePrefix == streamName
  {
    DescribeParams(groupName, if streamName.Some? && streamName.value != "" then streamName else None)
  }

  /** One NextPage reply: the output pointer (nil or a page of streams) and the error. */
  datatype PageReply = PageReply(res: Option<seq<LogStream>>, err: Option<string>)

  /** The SDK answers either a page and no error, or nil and an error. */
  predicate WellFormed(p: PageReply) {
    p.res.Some? <==> p.err.None?
  }

  /** How the listing ends: both channels closed after the last page, an error sent on
      the error channel followed by os.Exit(1), or a nil-pointer panic. */
  datatype ListingOutcome = Completed | ErrorSent(msg: string) | Panicked

  datatype Listing = Listing(names: seq<string>, outcome: ListingOutcome)

  /** The names one page contributes: all of its streams, stably sorted. */
  function PageNames(page: seq<LogStream>): (r: seq<string>)
    ensures |r| == |page|
    ensures multiset(r) == multiset(Names(page))
  {
    NamesOfSort(page);
    Names(StableSortByIngestion(page))
  }

  lemma {:induction false} NamesOfInsert(x: LogStream, ss: seq<LogStream>)
    ensures multiset(Names(Insert(x, ss))) == multiset(Names(ss)) + multiset{x.name}
    decreases |ss|
  {
    if ss != [] && IngestionKey(x) > IngestionKey(ss[0]) {
      NamesOfInsert(x, ss[1..]);
    }
  }

  /** Sorting moves the streams but keeps every name. */
  lemma {:induction false} NamesOfSort(ss: seq<LogStream>)
    ensures multiset(Names(StableSortByIngestion(ss))) == multiset(Names(ss))
    decreases |ss|
  {
    if ss != [] {
      NamesOfSort(ss[1..]);
      NamesOfInsert(ss[0], StableSortByIngestion(ss[1..]));
    }
  }

  lemma NamesAppend(a: seq<LogStream>, b: seq<LogStream>)
    ensures Names(a + b) == Names(a) + Names(b)
  {
  }

  /** getStreams as written: the reply is dereferenced before the error is looked at,
      so a nil page panics whether or not an error came with it, and the error is
      sent only for a reply that carries both a page and an error, which the SDK
      never produces. */
  function ListAsWritten(pages: seq<PageReply>): (r: Listing)
    ensures r.outcome.ErrorSent? ==> exists i :: 0 <= i < |pages| && !WellFormed(pages[i])
    decreases |pages|
  {
    if pages == [] then Listing([], Completed)
    else if pages[0].res.None? then Listing([], Panicked)
    else if pages[0].err.Some? then Listing([], ErrorSent(pages[0].err.value))
    else
      var rest := ListAsWritten(pages[1..]);
      assert rest.outcome.ErrorSent? ==> exists i :: 0 <= i < |pages| && !WellFormed(pages[i]) by {
        if rest.outcome.ErrorSent? {
          var i :| 0 <= i < |pages[1..]| && !WellFormed(pages[1..][i]);
          assert pages[i + 1] == pages[1..][i];
        }
      }
      Listing(PageNames(pages[0].res.value) + rest.names, rest.outcome)
  }

  /** getStreams with the error looked at first, as the error channel's presence
      intends. A completed listing emits one name per stream of the pages. */
  function ListChecked(pages: seq<PageReply>): (r: Listing)
    ensures r.outcome == Completed ==> |r.names| == TotalStreams(pages)
    decreases |pages|
  {
    if pages == [] then Listing([], Completed)
    else if pages[0].err.Some? then Listing([], ErrorSent(pages[0].err.value))
    else if pages[0].res.None? then Listing([], Panicked)
    else
      var rest := ListChecked(pages[1..]);
      Listing(PageNames(pages[0].res.value) + rest.names, rest.outcome)
  }

  /** The number of streams the pages hold, nil pages counting as empty. */
  function TotalStreams(pages: seq<PageReply>): nat {
    if pages == [] then 0 else |pages[0].res.GetOr([])| + TotalStreams(pages[1..])
  }

  /** The pages' names laid end to end, each page sorted on its own. */
  function AllPageNames(pages: seq<PageReply>): seq<string> {
    if pages == [] then [] else PageNames(pages[0].res.GetOr([])) + AllPageNames(pages[1..])
  }

  /** getStreams as written, with its page loop and its emission loop. */
  method GetStreams(pages: seq<PageReply>) returns (emitted: seq<string>, outcome: ListingOutcome)
    ensures Listing(emitted, outcome) == ListAsWritten(pages)
  {
    emitted := [];
    var i := 0;
    while i < |pages|
      invariant 0 <= i <= |pages|
      invariant ListAsWritten(pages) == Prefixed(emitted, ListAsWritten(pages[i..]))
    {
      var reply := pages[i];
      if reply.res.None? {
        outcome := Panicked;
        return;
      }
      if reply.err.Some? {
        outcome := ErrorSent(reply.err.value);
        return;
      }
      var sorted := StableSortByIngestion(reply.res.value);
      var names := EmitNames(sorted);
      ghost var before := emitted;
      emitted := emitted + names;
      ListStep(pages, i, before);
      i := i + 1;
    }
    outcome := Completed;
  }

  /** The emission loop: the names of the sorted page, sent one after another. */
  method EmitNames(sorted: seq<LogStream>) returns (names: seq<string>)
    ensures names == Names(sorted)
  {
    names := [];
    var j := 0;
    while j < |sorted|
      invariant 0 <= j <= |sorted|
      invariant names == Names(sorted[..j])
    {
      assert sorted[..j + 1] == sorted[..j] + [sorted[j]];
      NamesAppend(sorted[..j], [sorted[j]]);
      names := names + [sorted[j].name];
      j := j + 1;
    }
    assert sorted[..j] == sorted;
  }

  /** One page that arrives without error, seen from the loop. */
  lemma ListStep(pages: seq<PageReply>, i: nat, emitted: seq<string>)
    requires i < |pages| && pages[i].res.Some? && pages[i].err.None?
    ensures Prefixed(emitted, ListAsWritten(pages[i..]))
         == Prefixed(emitted + PageNames(pages[i].res.value), ListAsWritten(pages[i + 1..]))
  {
    assert pages[i..][1..] == pages[i + 1..];
  }

  /** The same listing with `names` emitted in front of it. */
  function Prefixed(names: seq<string>, l: Listing): Listing {
    Listing(names + l.names, l.outcome)
  }

  /** Reading the reply first only changes how a failing page ends: on SDK-shaped
      replies both versions emit the same names, but where the intended version sends
      the error, the written one panics. */
  lemma {:induction false} AsWrittenPanicsInsteadOfSending(pages: seq<PageReply>)
    requires forall i :: 0 <= i < |pages| ==> WellFormed(pages[i])
    ensures ListAsWritten(pages).names == ListChecked(pages).names
    ensures ListAsWritten(pages).outcome
         == if ListChecked(pages).outcome.ErrorSent? then Panicked else ListChecked(pages).outcome
    decreases |pages|
  {
    if pages != [] && pages[0].res.Some? {
      assert forall i :: 0 <= i < |pages[1..]| ==> pages[1..][i] == pages[i + 1];
      AsWrittenPanicsInsteadOfSending(pages[1..]);
    }
  }

  /** The smallest case: a pager whose first reply is an error never delivers it. */
  lemma ErrorReplyPanics(msg: string)
    ensures ListAsWritten([PageReply(None, Some(msg))]).outcome == Panicked
    ensures ListChecked([PageReply(None, Some(msg))]).outcome == ErrorSent(msg)
  {
  }

  /** The intended lister on SDK-shaped replies never panics, and completes exactly
      when no reply is an error. */
  lemma {:induction false} CheckedListingEnds(pages: seq<PageReply>)
    requires forall i :: 0 <= i < |pages| ==> WellFormed(pages[i])
    ensures ListChecked(pages).outcome != Panicked
    ensures ListChecked(pages).outcome == Completed <==> forall i :: 0 <= i < |pages| ==> pages[i].err.None?
    decreases |pages|
  {
    if pages != [] && pages[0].err.None? {
      var rest := pages[1..];
      assert forall i :: 0 <= i < |rest| ==> rest[i] == pages[i + 1];
      CheckedListingEnds(rest);
    }
  }

  /** A completed listing has emitted every stream of every page once, page after
      page, each page sorted on its own: as many names as the pages hold streams. */
  lemma {:induction false} CheckedListingEmitsAll(pages: seq<PageReply>)
    requires ListChecked(pages).outcome == Completed
    ensures ListChecked(pages).names == AllPageNames(pages)
    ensures |ListChecked(pages).names| == TotalStreams(pages)
    decreases |pages|
  {
    if pages != [] {
      CheckedListingEmitsAll(pages[1..]);
    }
  }

  /** A listing that sends an error sends the first error reply's message, after the
      names of the pages before it. */
  lemma {:induction false} CheckedListingStopsAtError(pages: seq<PageReply>)
    requires ListChecked(pages).outcome.ErrorSent?
    ensures exists k :: (FirstErrorAt(pages, k) && pages[k].err.value == ListChecked(pages).outcome.msg
        && ListChecked(pages).names == AllPageNames(pages[..k]))
    decreases |pages|
  {
    if pages[0].err.Some? {
      assert AllPageNames(pages[..0]) == [];
      assert FirstErrorAt(pages, 0);
    } else {
      var rest := pages[1..];
      CheckedListingStopsAtError(rest);
      var k :| FirstErrorAt(rest, k) && rest[k].err.value == ListChecked(rest).outcome.msg
        && ListChecked(rest).names == AllPageNames(rest[..k]);
      AllPageNamesStep(pages, k);
      FirstErrorShift(pages, k);
      assert ListChecked(pages) == Prefixed(PageNames(pages[0].res.GetOr([])), ListChecked(rest));
    }
  }

  lemma FirstErrorShift(pages: seq<PageReply>, k: nat)
    requires pages != [] && pages[0].err.None? && FirstErrorAt(pages[1..], k)
    ensures FirstErrorAt(pages, k + 1) && pages[k + 1] == pages[1..][k]
  {
    assert forall i :: 0 < i < k + 1 ==> pages[i] == pages[1..][i - 1];
  }

  /** Page k is the first reply carrying an error. */
  predicate FirstErrorAt(pages: seq<PageReply>, k: int) {
    0 <= k < |pages| && pages[k].err.Some? && forall i :: 0 <= i < k ==> pages[i].err.None?
  }

  lemma AllPageNamesStep(pages: seq<PageReply>, k: nat)
    requires k < |pages|
    ensures AllPageNames(pages[..k + 1]) == PageNames(pages[0].res.GetOr([])) + AllPageNames(pages[1..][..k])
  {
    assert pages[..k + 1][1..] == pages[1..][..k];
  }

  /** The source's test: one page holding "stream1" and "stream2", both last ingested at
      the same time, lists both names in that order and closes the channels. */
  lemma LsStreamsTestScenario(t: int)
    ensures var page := [LogStream("stream1", None, Some(t)), LogStream("stream2", None, Some(t))];
      ListAsWritten([PageReply(Some(page), None)]) == Listing(["stream1", "stream2"], Completed)
  {
    var a, b := LogStream("stream1", None, Some(t)), LogStream("stream2", None, Some(t));
    var page := [a, b];
    var sorted := StableSortByIngestion(page);
    assert page[1..] == [b];
    assert StableSortByIngestion([b]) == [b];
    assert sorted == [a, b];
    assert [PageReply(Some(page), None)][1..] == [];
  }
}

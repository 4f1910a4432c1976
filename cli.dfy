/** The string logic of main.go: splitting a `group:prefix` target, the optional
    JMESPath rewrite of a message, and the order in which the printed line gets its
    prefixes. The JSON codec, the JMESPath engine, the colours and the time layout are
    parameters: functions the model knows nothing about. */
module Cli {
  import opened Common
  import opened Types

  const TargetSeparator: char := ':'

  /** Go's `strings.Split` with a one-character separator: the pieces between the
      separators, empty ones included, and one piece for a string without any. */
  function Split(s: string, sep: char): (r: seq<string>)
    ensures |r| >= 1
    decreases |s|
  {
    if s == [] then [""]
    else
      var rest := Split(s[1..], sep);
      if s[0] == sep then [""] + rest
      else [[s[0]] + rest[0]] + rest[1..]
  }

  /** No piece holds the separator. */
  lemma {:induction false} SplitPiecesFree(s: string, sep: char)
    ensures forall i :: 0 <= i < |Split(s, sep)| ==> sep !in Split(s, sep)[i]
    decreases |s|
  {
    if s != [] {
      var rest := Split(s[1..], sep);
      SplitPiecesFree(s[1..], sep);
      var r := Split(s, sep);
      if s[0] == sep {
        assert r == [""] + rest;
        assert forall i :: 1 <= i < |r| ==> r[i] == rest[i - 1];
      } else {
        assert r == [[s[0]] + rest[0]] + rest[1..];
        assert forall i :: 1 <= i < |r| ==> r[i] == rest[i];
      }
    }
  }

  /** There is a single piece exactly when the string holds no separator. */
  lemma {:induction false} SplitSingle(s: string, sep: char)
    ensures |Split(s, sep)| == 1 <==> sep !in s
    decreases |s|
  {
    if s != [] {
      SplitSingle(s[1..], sep);
      assert s == [s[0]] + s[1..];
    }
  }

  /** Go's `strings.Join`: the pieces with the separator between them. */
  function Join(parts: seq<string>, sep: char): string
    requires |parts| >= 1
    decreases |parts|
  {
    if |parts| == 1 then parts[0] else parts[0] + [sep] + Join(parts[1..], sep)
  }

  /** Joining the pieces gives back the string. */
  lemma {:induction false} JoinSplit(s: string, sep: char)
    ensures Join(Split(s, sep), sep) == s
    decreases |s|
  {
    if s != [] {
      JoinSplit(s[1..], sep);
      JoinSplitCons(s[0], s[1..], sep);
      assert [s[0]] + s[1..] == s;
    }
  }

  /** One more character in front of a string that splits and joins back. */
  lemma JoinSplitCons(c: char, t: string, sep: char)
    requires Join(Split(t, sep), sep) == t
    ensures Join(Split([c] + t, sep), sep) == [c] + t
  {
    var u := [c] + t;
    assert u[0] == c && u[1..] == t;
    var rest := Split(t, sep);
    if c == sep {
      JoinCons("", rest, sep);
    } else if |rest| == 1 {
      assert Split(u, sep) == [[c] + rest[0]];
    } else {
      assert Split(u, sep) == [[c] + rest[0]] + rest[1..];
      JoinPrepend(c, rest, sep);
    }
  }

  /** A character added to the first piece comes out in front of the joined string. */
  lemma JoinPrepend(c: char, rest: seq<string>, sep: char)
    requires |rest| >= 2
    ensures Join([[c] + rest[0]] + rest[1..], sep) == [c] + Join(rest, sep)
  {
    var t := Join(rest[1..], sep);
    JoinCons(rest[0], rest[1..], sep);
    assert rest == [rest[0]] + rest[1..];
    JoinCons([c] + rest[0], rest[1..], sep);
    assert ([c] + rest[0]) + [sep] + t == [c] + (rest[0] + [sep] + t);
  }

  lemma JoinCons(p: string, rest: seq<string>, sep: char)
    requires |rest| >= 1
    ensures Join([p] + rest, sep) == p + [sep] + Join(rest, sep)
  {
    assert ([p] + rest)[0] == p && ([p] + rest)[1..] == rest;
  }

  /** Splitting pieces that hold no separator gives back the pieces. */
  lemma {:induction false} SplitJoin(parts: seq<string>, sep: char)
    requires |parts| >= 1
    requires forall i :: 0 <= i < |parts| ==> sep !in parts[i]
    ensures Split(Join(parts, sep), sep) == parts
    decreases |parts|
  {
    if |parts| == 1 {
      SplitNoSeparator(parts[0], sep);
    } else {
      assert forall i :: 0 <= i < |parts[1..]| ==> parts[1..][i] == parts[i + 1];
      SplitJoin(parts[1..], sep);
      SplitAfterPiece(parts[0], Join(parts[1..], sep), sep);
      assert parts == [parts[0]] + parts[1..];
    }
  }

  /** A piece followed by the separator splits off as the first piece. */
  lemma {:induction false} SplitAfterPiece(p: string, t: string, sep: char)
    requires sep !in p
    ensures Split(p + [sep] + t, sep) == [p] + Split(t, sep)
    decreases |p|
  {
    var s := p + [sep] + t;
    if p == [] {
      assert s == [sep] + t;
      assert s[1..] == t;
    } else {
      assert s[0] == p[0];
      assert s[1..] == p[1..] + [sep] + t;
      SplitAfterPiece(p[1..], t, sep);
      assert [p[0]] + p[1..] == p;
    }
  }

  lemma {:induction false} SplitNoSeparator(s: string, sep: char)
    requires sep !in s
    ensures Split(s, sep) == [s]
    decreases |s|
  {
    if s != [] {
      SplitNoSeparator(s[1..], sep);
      assert [s[0]] + s[1..] == s;
    }
  }

  /** The log group and stream-name prefix of a target: the group is the first piece,
      the prefix the second unless it is "*"; further pieces are ignored. */
  datatype Target = Target(group: string, prefix: string)

  function SplitTarget(groupStream: string): (t: Target)
    ensures TargetSeparator !in t.group && t.group <= groupStream
    ensures TargetSeparator !in groupStream ==> t == Target(groupStream, "")
  {
    var tokens := Split(groupStream, TargetSeparator);
    JoinSplit(groupStream, TargetSeparator);
    SplitPiecesFree(groupStream, TargetSeparator);
    SplitSingle(groupStream, TargetSeparator);
    var group := tokens[0];
    var prefix := if |tokens| > 1 && tokens[1] != "*" then tokens[1] else "";
    Target(group, prefix)
  }

  /** A target whose colon-separated pieces are a group, a second piece and possibly
      more: the second piece is the prefix unless it is "*", which targets the whole
      group, and anything after a second colon is ignored. */
  lemma TargetOfPieces(parts: seq<string>)
    requires |parts| >= 2
    requires forall i :: 0 <= i < |parts| ==> TargetSeparator !in parts[i]
    ensures SplitTarget(Join(parts, TargetSeparator))
         == Target(parts[0], if parts[1] == "*" then "" else parts[1])
  {
    var s := Join(parts, TargetSeparator);
    assert Split(s, TargetSeparator) == parts by {
      SplitJoin(parts, TargetSeparator);
    }
  }

  // ---------------------------------------------------------------- JMESPath

  /** The JSON codec the query goes through. */
  datatype Json<!J> = Json(unmarshal: string -> Result<J, string>, marshal: J -> Result<string, string>)

  /** A compiled query: a search that fails, finds nothing (nil), or finds a value. */
  type Query<!J> = J -> Result<Option<J>, string>

  const EmptyResultTag: string := "<cw: empty jmesPath query result> "

  /** jmespathQuery: the marshalled search result; the message itself when parsing,
      searching or marshalling fails; a tagged copy of it when the search finds nothing. */
  function JmespathQuery<J>(s: string, json: Json<J>, query: Query<J>): (r: string)
    ensures r == s || r == EmptyResultTag + s
         || (json.unmarshal(s).Ok? && query(json.unmarshal(s).value).Ok?
             && query(json.unmarshal(s).value).value.Some?
             && json.marshal(query(json.unmarshal(s).value).value.value) == Ok(r))
  {
    match json.unmarshal(s)
    case Err(_) => s
    case Ok(data) =>
      match query(data)
      case Err(_) => s
      case Ok(None) => EmptyResultTag + s
      case Ok(Some(result)) =>
        match json.marshal(result)
        case Err(_) => s
        case Ok(searchResult) => searchResult
  }

  /** Each failure falls back to the message; only a nil result is tagged. */
  lemma JmespathFallbacks<J>(s: string, json: Json<J>, query: Query<J>)
    ensures json.unmarshal(s).Err? ==> JmespathQuery(s, json, query) == s
    ensures json.unmarshal(s).Ok? && query(json.unmarshal(s).value).Err? ==> JmespathQuery(s, json, query) == s
    ensures json.unmarshal(s).Ok? && query(json.unmarshal(s).value) == Ok(None) ==>
      JmespathQuery(s, json, query) == EmptyResultTag + s
    ensures (json.unmarshal(s).Ok? && query(json.unmarshal(s).value).Ok?
             && query(json.unmarshal(s).value).value.Some?
             && json.marshal(query(json.unmarshal(s).value).value.value).Err?)
            ==> JmespathQuery(s, json, query) == s
    ensures (json.unmarshal(s).Ok? && query(json.unmarshal(s).value).Ok?
             && query(json.unmarshal(s).value).value.Some?
             && json.marshal(query(json.unmarshal(s).value).value.value).Ok?)
            ==> JmespathQuery(s, json, query) == json.marshal(query(json.unmarshal(s).value).value.value).value
  {
  }

  // ---------------------------------------------------------------- the printed line

  /** Which prefixes to print, and the query when one was given. */
  datatype FormatConfig<!J> = FormatConfig(
    printTime: bool, printStreamName: bool, printGroupName: bool, printEventId: bool,
    query: Option<Query<J>>)

  /** The colours, and the layout of a time given in epoch seconds. */
  datatype Render = Render(
    yellow: string -> string, blue: string -> string, cyan: string -> string, green: string -> string,
    formatTime: int -> string)

  /** The message after the optional query. */
  function Body<J>(ev: FilteredLogEvent, cfg: FormatConfig<J>, json: Json<J>): string {
    if cfg.query.Some? then JmespathQuery(ev.message, json, cfg.query.value) else ev.message
  }

  /** "x - m". */
  function Dash(x: string, m: string): string {
    x + " - " + m
  }

  /** formatLogMsg: the query first, then each enabled prefix wrapped around the line in
      the order id, stream, group, time; the time is the timestamp's whole seconds. */
  function FormatLogMsg<J>(ev: FilteredLogEvent, logGroup: string, cfg: FormatConfig<J>,
                           json: Json<J>, render: Render): (r: string)
    ensures EndsWith(r, Body(ev, cfg, json))
    ensures cfg.printTime ==> render.green(render.formatTime(GoDiv(ev.timestamp, 1000))) + " - " <= r
  {
    var body := Body(ev, cfg, json);
    var msg := body;
    var msg := if cfg.printEventId then DashKeepsEnd(render.yellow(ev.eventId), msg, body); Dash(render.yellow(ev.eventId), msg) else msg;
    var msg := if cfg.printStreamName then DashKeepsEnd(render.blue(ev.logStreamName), msg, body); Dash(render.blue(ev.logStreamName), msg) else msg;
    var msg := if cfg.printGroupName then DashKeepsEnd(render.cyan(logGroup), msg, body); Dash(render.cyan(logGroup), msg) else msg;
    var ts := render.green(render.formatTime(GoDiv(ev.timestamp, 1000)));
    var msg := if cfg.printTime then DashKeepsEnd(ts, msg, body); Dash(ts, msg) else msg;
    msg
  }

  /** t is the tail of s. */
  predicate EndsWith(s: string, t: string) {
    |t| <= |s| && s[|s| - |t|..] == t
  }

  /** A prefix added with " - " keeps the line's end and puts x first. */
  lemma DashKeepsEnd(x: string, m: string, t: string)
    requires EndsWith(m, t)
    ensures EndsWith(Dash(x, m), t) && x + " - " <= Dash(x, m)
  {
    var d := Dash(x, m);
    assert d == (x + " - ") + m;
    assert d[|d| - |t|..] == m[|m| - |t|..];
  }

  /** The enabled fields in reading order: time, group, stream, event id. */
  function Fields<J>(ev: FilteredLogEvent, logGroup: string, cfg: FormatConfig<J>, render: Render): (r: seq<string>)
    ensures |r| <= 4
  {
    (if cfg.printTime then [render.green(render.formatTime(GoDiv(ev.timestamp, 1000)))] else [])
    + (if cfg.printGroupName then [render.cyan(logGroup)] else [])
    + (if cfg.printStreamName then [render.blue(ev.logStreamName)] else [])
    + (if cfg.printEventId then [render.yellow(ev.eventId)] else [])
  }

  /** The fields, then the message, with " - " between them. */
  function DashJoin(fields: seq<string>, last: string): string
    decreases |fields|
  {
    if fields == [] then last else Dash(fields[0], DashJoin(fields[1..], last))
  }

  lemma {:induction false} DashJoinAppend(a: seq<string>, b: seq<string>, last: string)
    ensures DashJoin(a + b, last) == DashJoin(a, DashJoin(b, last))
    decreases |a|
  {
    if a != [] {
      assert (a + b)[1..] == a[1..] + b;
      DashJoinAppend(a[1..], b, last);
    } else {
      assert a + b == b;
    }
  }

  /** The printed line reads left to right: time, group, stream, event id, whichever
      are enabled, then the (queried) message, all separated by " - ". */
  lemma FormatIsFieldsThenMessage<J>(ev: FilteredLogEvent, logGroup: string, cfg: FormatConfig<J>,
                                     json: Json<J>, render: Render)
    ensures FormatLogMsg(ev, logGroup, cfg, json, render) == DashJoin(Fields(ev, logGroup, cfg, render), Body(ev, cfg, json))
  {
    var t := if cfg.printTime then [render.green(render.formatTime(GoDiv(ev.timestamp, 1000)))] else [];
    var g := if cfg.printGroupName then [render.cyan(logGroup)] else [];
    var s := if cfg.printStreamName then [render.blue(ev.logStreamName)] else [];
    var i := if cfg.printEventId then [render.yellow(ev.eventId)] else [];
    var body := Body(ev, cfg, json);
    DashJoinAppend(t + g + s, i, body);
    DashJoinAppend(t + g, s, DashJoin(i, body));
    DashJoinAppend(t, g, DashJoin(s, DashJoin(i, body)));
    assert Fields(ev, logGroup, cfg, render) == t + g + s + i;
  }

  /** With every flag on: `time - group - stream - id - message`. */
  lemma FormatAllFlags<J>(ev: FilteredLogEvent, logGroup: string, query: Option<Query<J>>, json: Json<J>, render: Render)
    ensures var cfg := FormatConfig(true, true, true, true, query);
      FormatLogMsg(ev, logGroup, cfg, json, render)
      == render.green(render.formatTime(GoDiv(ev.timestamp, 1000))) + " - " + render.cyan(logGroup) + " - "
         + render.blue(ev.logStreamName) + " - " + render.yellow(ev.eventId) + " - " + Body(ev, cfg, json)
  {
    var cfg := FormatConfig(true, true, true, true, query);
    DashChain(render.green(render.formatTime(GoDiv(ev.timestamp, 1000))), render.cyan(logGroup),
      render.blue(ev.logStreamName), render.yellow(ev.eventId), Body(ev, cfg, json));
  }

  lemma DashChain(a: string, b: string, c: string, d: string, m: string)
    ensures Dash(a, Dash(b, Dash(c, Dash(d, m)))) == a + " - " + b + " - " + c + " - " + d + " - " + m
  {
    var s := " - ";
    assert Dash(c, Dash(d, m)) == c + s + d + s + m;
    assert Dash(b, Dash(c, Dash(d, m))) == b + s + c + s + d + s + m;
  }

  /** With no flag on, the line is the message, queried if a query was given. */
  lemma FormatNoFlags<J>(ev: FilteredLogEvent, logGroup: string, query: Option<Query<J>>, json: Json<J>, render: Render)
    ensures FormatLogMsg(ev, logGroup, FormatConfig(false, false, false, false, query), json, render)
         == if query.Some? then JmespathQuery(ev.message, json, query.value) else ev.message
  {
  }
}

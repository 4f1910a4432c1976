/** The CloudWatch Logs records the tool handles, and the order both stream listers
    put streams in: `sort.SliceStable` ascending by last ingestion time, a missing time
    counting as 0 (cloudwatch/tail.go and cloudwatch/lsstreams.go use the same comparison). */
module Types {
  import opened Common

  /** The fields of `types.LogStream` that the tool reads. */
  datatype LogStream = LogStream(name: string, creationTime: Option<int>, lastIngestionTime: Option<int>)

  /** The fields of `types.FilteredLogEvent` that the tool reads; the timestamp is in
      milliseconds since the epoch. */
  datatype FilteredLogEvent = FilteredLogEvent(eventId: string, timestamp: int, message: string, logStreamName: string)

  /** The sort key: the last ingestion time, or 0 when there is none. */
  function IngestionKey(s: LogStream): int {
    s.lastIngestionTime.GetOr(0)
  }

  predicate SortedByIngestion(ss: seq<LogStream>) {
    forall i, j :: 0 <= i < j < |ss| ==> IngestionKey(ss[i]) <= IngestionKey(ss[j])
  }

  /** The streams of ss whose key is k, in the order ss has them. */
  function WithKey(ss: seq<LogStream>, k: int): seq<LogStream>
  {
    if ss == [] then []
    else (if IngestionKey(ss[0]) == k then [ss[0]] else []) + WithKey(ss[1..], k)
  }

  /** Stability: for every key, the streams with that key come in the same order. */
  ghost predicate SameOrderPerKey(a: seq<LogStream>, b: seq<LogStream>) {
    forall k :: WithKey(a, k) == WithKey(b, k)
  }

  /** The names of the streams, in order. */
  function Names(ss: seq<LogStream>): (r: seq<string>)
    ensures |r| == |ss|
    ensures forall i :: 0 <= i < |ss| ==> r[i] == ss[i].name
    decreases |ss|
  {
    if ss == [] then [] else [ss[0].name] + Names(ss[1..])
  }

  /** The ids of a run of emitted events. */
  function Ids(s: seq<FilteredLogEvent>): set<string> {
    set i | 0 <= i < |s| :: s[i].eventId
  }

  lemma IdsCons(e: FilteredLogEvent, s: seq<FilteredLogEvent>)
    ensures Ids([e] + s) == {e.eventId} + Ids(s)
  {
    forall id | id in Ids([e] + s) ensures id in {e.eventId} + Ids(s) {
      var i :| 0 <= i < |[e] + s| && ([e] + s)[i].eventId == id;
      if i > 0 {
        assert s[i - 1].eventId == id;
      }
    }
    forall id | id in Ids(s) ensures id in Ids([e] + s) {
      var i :| 0 <= i < |s| && s[i].eventId == id;
      assert ([e] + s)[i + 1].eventId == id;
    }
    assert ([e] + s)[0].eventId == e.eventId;
  }

  /** No id occurs twice. */
  predicate DistinctIds(s: seq<FilteredLogEvent>) {
    forall i, j :: 0 <= i < j < |s| ==> s[i].eventId != s[j].eventId
  }

  lemma DistinctCons(e: FilteredLogEvent, s: seq<FilteredLogEvent>)
    requires DistinctIds(s) && e.eventId !in Ids(s)
    ensures DistinctIds([e] + s)
  {
    var t := [e] + s;
    forall i, j | 0 <= i < j < |t| ensures t[i].eventId != t[j].eventId {
      assert t[j] == s[j - 1];
      if i > 0 {
        assert t[i] == s[i - 1];
      }
    }
  }

  /** Insert x before the first stream whose key is not smaller than x's. */
  function Insert(x: LogStream, ss: seq<LogStream>): (r: seq<LogStream>)
    ensures |r| == |ss| + 1
  {
    if ss == [] || IngestionKey(x) <= IngestionKey(ss[0]) then [x] + ss
    else [ss[0]] + Insert(x, ss[1..])
  }

  /** Inserting into a sorted sequence keeps it sorted; the head is x or the old head. */
  lemma {:induction false} InsertSorted(x: LogStream, ss: seq<LogStream>)
    requires SortedByIngestion(ss)
    ensures SortedByIngestion(Insert(x, ss))
    ensures Insert(x, ss)[0] == x || (ss != [] && Insert(x, ss)[0] == ss[0])
    decreases |ss|
  {
    if ss != [] && IngestionKey(x) > IngestionKey(ss[0]) {
      var t := Insert(x, ss[1..]);
      InsertSorted(x, ss[1..]);
      assert |ss| > 1 ==> IngestionKey(ss[0]) <= IngestionKey(ss[1]);
      assert forall j :: 0 <= j < |t| ==> IngestionKey(t[0]) <= IngestionKey(t[j]);
      assert Insert(x, ss) == [ss[0]] + t;
    }
  }

  /** Inserting adds x and nothing else. */
  lemma {:induction false} InsertMultiset(x: LogStream, ss: seq<LogStream>)
    ensures multiset(Insert(x, ss)) == multiset(ss) + multiset{x}
    decreases |ss|
  {
    if ss != [] && IngestionKey(x) > IngestionKey(ss[0]) {
      InsertMultiset(x, ss[1..]);
      assert ss == [ss[0]] + ss[1..];
    }
  }

  /** Inserting x puts it in front of the streams already carrying its key and
      leaves every other key's streams alone. */
  lemma {:induction false} InsertKeepsOrder(x: LogStream, ss: seq<LogStream>, k: int)
    ensures WithKey(Insert(x, ss), k) == (if IngestionKey(x) == k then [x] else []) + WithKey(ss, k)
    decreases |ss|
  {
    var hx := if IngestionKey(x) == k then [x] else [];
    if ss == [] || IngestionKey(x) <= IngestionKey(ss[0]) {
      assert Insert(x, ss) == [x] + ss;
      WithKeyCons(x, ss, k);
    } else {
      var t := Insert(x, ss[1..]);
      var h0 := if IngestionKey(ss[0]) == k then [ss[0]] else [];
      assert Insert(x, ss) == [ss[0]] + t;
      WithKeyCons(ss[0], t, k);
      InsertKeepsOrder(x, ss[1..], k);
      assert WithKey(t, k) == hx + WithKey(ss[1..], k);
      WithKeyCons(ss[0], ss[1..], k);
      assert [ss[0]] + ss[1..] == ss;
      assert WithKey(ss, k) == h0 + WithKey(ss[1..], k);
      assert h0 == [] || hx == [];
      SwapOneEmpty(h0, hx, WithKey(ss[1..], k));
    }
  }

  lemma SwapOneEmpty<T>(a: seq<T>, b: seq<T>, w: seq<T>)
    requires a == [] || b == []
    ensures a + (b + w) == b + (a + w)
  {
    if a == [] {
      assert a + (b + w) == b + w;
      assert a + w == w;
    } else {
      assert b + w == w;
      assert b + (a + w) == a + w;
    }
  }

  lemma WithKeyCons(y: LogStream, t: seq<LogStream>, k: int)
    ensures WithKey([y] + t, k) == (if IngestionKey(y) == k then [y] else []) + WithKey(t, k)
  {
    assert ([y] + t)[0] == y && ([y] + t)[1..] == t;
  }

  /** The stable sort by last ingestion time. */
  function StableSortByIngestion(ss: seq<LogStream>): (r: seq<LogStream>)
    ensures |r| == |ss|
    ensures SortedByIngestion(r)
    ensures multiset(r) == multiset(ss)
  {
    if ss == [] then []
    else
      var t := StableSortByIngestion(ss[1..]);
      InsertSorted(ss[0], t);
      InsertMultiset(ss[0], t);
      assert ss == [ss[0]] + ss[1..];
      Insert(ss[0], t)
  }

  /** The sort is stable: streams with equal keys keep their relative order. */
  lemma {:induction false} StableSortKeepsOrder(ss: seq<LogStream>, k: int)
    ensures WithKey(StableSortByIngestion(ss), k) == WithKey(ss, k)
    decreases |ss|
  {
    if ss != [] {
      StableSortKeepsOrder(ss[1..], k);
      InsertKeepsOrder(ss[0], StableSortByIngestion(ss[1..]), k);
    }
  }

  lemma {:induction false} InWithKey(s: seq<LogStream>, k: int, y: LogStream)
    ensures y in WithKey(s, k) <==> y in s && IngestionKey(y) == k
    decreases |s|
  {
    if s != [] {
      InWithKey(s[1..], k, y);
      assert s == [s[0]] + s[1..];
    }
  }

  lemma WithKeyHead(s: seq<LogStream>)
    requires s != []
    ensures WithKey(s, IngestionKey(s[0])) == [s[0]] + WithKey(s[1..], IngestionKey(s[0]))
  {
  }

  lemma WithKeyTail(s: seq<LogStream>, k: int)
    requires s != [] && IngestionKey(s[0]) != k
    ensures WithKey(s, k) == WithKey(s[1..], k)
  {
  }

  /** In a sorted sequence nothing comes before an element with a smaller key. */
  lemma SortedHeadIsLeast(b: seq<LogStream>, y: LogStream)
    requires SortedByIngestion(b) && y in b
    ensures IngestionKey(b[0]) <= IngestionKey(y)
  {
    var j :| 0 <= j < |b| && b[j] == y;
    if j > 0 {
      assert IngestionKey(b[0]) <= IngestionKey(b[j]);
    }
  }

  /** There is only one sorted arrangement that keeps equal keys in their original
      order, so any stable sort by this key, `sort.SliceStable` included, returns
      exactly StableSortByIngestion. */
  lemma {:induction false} StableSortIsUnique(a: seq<LogStream>, b: seq<LogStream>)
    requires SortedByIngestion(a) && SortedByIngestion(b)
    requires SameOrderPerKey(a, b)
    ensures a == b
    decreases |a|
  {
    if a == [] || b == [] {
      if a != [] {
        WithKeyHead(a);
        assert false;
      } else if b != [] {
        WithKeyHead(b);
        assert false;
      }
    } else {
      var ka, kb := IngestionKey(a[0]), IngestionKey(b[0]);
      WithKeyHead(a);
      WithKeyHead(b);
      assert a[0] in WithKey(b, ka) by { assert WithKey(a, ka) == WithKey(b, ka); }
      InWithKey(b, ka, a[0]);
      SortedHeadIsLeast(b, a[0]);
      assert b[0] in WithKey(a, kb) by { assert WithKey(a, kb) == WithKey(b, kb); }
      InWithKey(a, kb, b[0]);
      SortedHeadIsLeast(a, b[0]);
      assert ka == kb;
      var ta, tb := WithKey(a[1..], ka), WithKey(b[1..], ka);
      assert [a[0]] + ta == [b[0]] + tb by { assert WithKey(a, ka) == WithKey(b, ka); }
      assert a[0] == b[0] && ta == tb by {
        assert ([a[0]] + ta)[0] == a[0] && ([b[0]] + tb)[0] == b[0];
        assert ([a[0]] + ta)[1..] == ta && ([b[0]] + tb)[1..] == tb;
      }
      forall k ensures WithKey(a[1..], k) == WithKey(b[1..], k) {
        if k != ka {
          assert WithKey(a, k) == WithKey(b, k);
          WithKeyTail(a, k);
          WithKeyTail(b, k);
        }
      }
      StableSortIsUnique(a[1..], b[1..]);
      assert a == [a[0]] + a[1..] && b == [b[0]] + b[1..];
    }
  }
}

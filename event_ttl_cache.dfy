/** The time-to-live deduplication cache of the tailer (cloudwatch/eventTTLCache.go):
    a map from event id to the event's timestamp in milliseconds, the timestamp of the
    last added event, and a janitor that periodically sweeps out old entries.
    The janitor's ticker and the lock are not modelled; one sweep is the method Purge. */
module EventTtlCache {
  import opened Common

  /** The janitor's default period, 10 seconds, in milliseconds. */
  const DefaultPurgeFreqMs: int := 10_000

  /** A purge period of 0 is replaced by the default. */
  function EffectivePurgeFreq(purgeFreqMs: int): (r: int)
    ensures r != 0
    ensures purgeFreqMs != 0 ==> r == purgeFreqMs
    ensures purgeFreqMs == 0 ==> r == DefaultPurgeFreqMs
  {
    if purgeFreqMs == 0 then DefaultPurgeFreqMs else purgeFreqMs
  }

  /** Presence as the cache reports it: Go's map lookup yields 0 for a missing id,
      so an id counts as seen exactly when its stored timestamp is not 0. */
  predicate Present(seen: map<string, int>, id: string) {
    id in seen && seen[id] != 0
  }

  /** The janitor's age test: the entry's time is its timestamp truncated to whole
      seconds, and it is old when `now - that time >= ttl` (all in milliseconds). */
  predicate Expired(nowMs: int, ts: int, ttlMs: int) {
    nowMs - GoDiv(ts, 1000) * 1000 >= ttlMs
  }

  /** An entry the sweep deletes: not carrying the most recent timestamp, and old. */
  predicate Purgeable(seen: map<string, int>, mostRecentTS: int, nowMs: int, ttlMs: int, id: string) {
    id in seen && seen[id] != mostRecentTS && Expired(nowMs, seen[id], ttlMs)
  }

  /** The map as one sweep leaves it. */
  function Purged(seen: map<string, int>, mostRecentTS: int, nowMs: int, ttlMs: int): map<string, int> {
    map id | id in seen && !Purgeable(seen, mostRecentTS, nowMs, ttlMs, id) :: seen[id]
  }

  /** The janitor's first loop: walk the map (in no particular order) and collect
      the ids to delete. */
  method CollectPurgeable(seen: map<string, int>, mostRecentTS: int, nowMs: int, ttlMs: int)
    returns (ids: seq<string>)
    ensures forall id :: id in ids <==> Purgeable(seen, mostRecentTS, nowMs, ttlMs, id)
    ensures forall i, j :: 0 <= i < j < |ids| ==> ids[i] != ids[j]
  {
    ids := [];
    var rest := seen.Keys;
    while rest != {}
      invariant rest <= seen.Keys
      invariant forall id :: id in ids <==> id in seen.Keys - rest && Purgeable(seen, mostRecentTS, nowMs, ttlMs, id)
      invariant forall i, j :: 0 <= i < j < |ids| ==> ids[i] != ids[j]
      decreases rest
    {
      var id :| id in rest;
      var ts := seen[id];
      if ts != mostRecentTS {
        if Expired(nowMs, ts, ttlMs) {
          assert id !in ids;
          ids := ids + [id];
        }
      }
      rest := rest - {id};
    }
  }

  class EventCache {
    var seen: map<string, int>
    var mostRecentTS: int
    /** The janitor's period, as createCache settles it. */
    const purgeFreqMs: int
    /** The time to live the janitor sweeps with. */
    const ttlMs: int

    constructor (ttlMs: int, purgeFreqMs: int)
      ensures seen == map[] && mostRecentTS == 0
      ensures this.ttlMs == ttlMs && this.purgeFreqMs == EffectivePurgeFreq(purgeFreqMs)
    {
      seen := map[];
      mostRecentTS := 0;
      this.ttlMs := ttlMs;
      this.purgeFreqMs := EffectivePurgeFreq(purgeFreqMs);
    }

    /** An id stored with timestamp 0 reads as unseen, like a missing one. */
    function Has(id: string): (r: bool)
      reads this
      ensures r ==> id in seen
      ensures id in seen && seen[id] == 0 ==> !r
    {
      Present(seen, id)
    }

    /** The number of stored ids, those stored with timestamp 0 included. */
    function Size(): (r: nat)
      reads this
      ensures r == 0 ==> forall id :: !Has(id)
      ensures r == |seen.Keys|
    {
      |seen|
    }

    /** Record an event: its timestamp overwrites any earlier one for the same id,
        and becomes the most recent timestamp even when it is older than others. */
    method Add(id: string, ts: int)
      modifies this
      ensures seen == old(seen)[id := ts] && mostRecentTS == ts
      ensures Has(id) <==> ts != 0
      ensures forall other :: other != id ==> (Has(other) <==> old(Has(other)))
      ensures Size() == if id in old(seen) then old(Size()) else old(Size()) + 1
    {
      if id !in seen {
        assert (seen[id := ts]).Keys == seen.Keys + {id};
      } else {
        assert (seen[id := ts]).Keys == seen.Keys;
      }
      seen := seen[id := ts];
      mostRecentTS := ts;
    }

    /** One sweep of the janitor at time nowMs with the cache's time to live. */
    method Purge(nowMs: int)
      modifies this
      ensures seen == Purged(old(seen), old(mostRecentTS), nowMs, ttlMs)
      ensures mostRecentTS == old(mostRecentTS)
    {
      var ids := CollectPurgeable(seen, mostRecentTS, nowMs, ttlMs);
      ghost var before := seen;
      var i := 0;
      while i < |ids|
        invariant 0 <= i <= |ids|
        invariant seen == map id | id in before && id !in ids[..i] :: before[id]
        invariant mostRecentTS == old(mostRecentTS)
      {
        seen := seen - {ids[i]};
        i := i + 1;
        assert forall id :: id in ids[..i] <==> id in ids[..i - 1] || id == ids[i - 1];
      }
      assert ids[..i] == ids;
    }
  }

  /** The entry carrying the most recent timestamp survives every sweep, however old. */
  lemma PurgeKeepsMostRecent(seen: map<string, int>, mostRecentTS: int, nowMs: int, ttlMs: int, id: string)
    requires id in seen && seen[id] == mostRecentTS
    ensures id in Purged(seen, mostRecentTS, nowMs, ttlMs)
    ensures Purged(seen, mostRecentTS, nowMs, ttlMs)[id] == mostRecentTS
  {
  }

  /** A sweep deletes exactly the old entries other than the most recent one, and
      leaves every other entry and its timestamp as it was. */
  lemma PurgeRemovesExactlyExpired(seen: map<string, int>, mostRecentTS: int, nowMs: int, ttlMs: int)
    ensures forall id :: id in Purged(seen, mostRecentTS, nowMs, ttlMs) <==>
      id in seen && (seen[id] == mostRecentTS || !Expired(nowMs, seen[id], ttlMs))
    ensures forall id :: id in Purged(seen, mostRecentTS, nowMs, ttlMs) ==>
      Purged(seen, mostRecentTS, nowMs, ttlMs)[id] == seen[id]
  {
  }

  /** A sweep never adds an entry and never grows the cache; a second sweep at the
      same time removes nothing more. */
  lemma PurgeOnlyShrinks(seen: map<string, int>, mostRecentTS: int, nowMs: int, ttlMs: int)
    ensures Purged(seen, mostRecentTS, nowMs, ttlMs).Keys <= seen.Keys
    ensures |Purged(seen, mostRecentTS, nowMs, ttlMs)| <= |seen|
    ensures Purged(Purged(seen, mostRecentTS, nowMs, ttlMs), mostRecentTS, nowMs, ttlMs)
            == Purged(seen, mostRecentTS, nowMs, ttlMs)
  {
    var p := Purged(seen, mostRecentTS, nowMs, ttlMs);
    assert p.Keys <= seen.Keys;
    SubsetCard(p.Keys, seen.Keys);
  }

  lemma {:induction false} SubsetCard<T>(a: set<T>, b: set<T>)
    requires a <= b
    ensures |a| <= |b|
    decreases b
  {
    if a != {} {
      var x :| x in a;
      SubsetCard(a - {x}, b - {x});
    }
  }

  /** The source's test: ids "1", "2", "3" added at 1, 2 and 3 ms, swept with a
      one-second time to live at least one second after the epoch: only "3", the
      last added, is left. */
  lemma CacheTestScenario(nowMs: int)
    requires nowMs >= 1000
    ensures Purged(map["1" := 1, "2" := 2, "3" := 3], 3, nowMs, 1000) == map["3" := 3]
    ensures Present(map["3" := 3], "3") && !Present(map["3" := 3], "1") && !Present(map["3" := 3], "2")
  {
    var m := map["1" := 1, "2" := 2, "3" := 3];
    assert Purgeable(m, 3, nowMs, 1000, "1") && Purgeable(m, 3, nowMs, 1000, "2");
    assert !Purgeable(m, 3, nowMs, 1000, "3");
    assert Purged(m, 3, nowMs, 1000).Keys == {"3"};
  }

  /** A cache holding a single event added with a non-zero timestamp keeps it
      through any sweep, since that event is the most recent one. */
  lemma SingleEntryNeverPurged(id: string, ts: int, nowMs: int, ttlMs: int)
    requires ts != 0
    ensures Present(Purged(map[id := ts], ts, nowMs, ttlMs), id)
  {
    PurgeKeepsMostRecent(map[id := ts], ts, nowMs, ttlMs, id);
  }
}

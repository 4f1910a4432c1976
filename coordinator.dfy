/** The fair round-robin coordinator (coordinator.go). It keeps the trigger channels
    of all tailed targets in a `container/ring` and, once per tick, signals the
    channel under the ring pointer and moves the pointer on.

    A Go ring has no first element, only the element the pointer designates, so the
    model lists the ring's values starting at the pointer: `ring[0]` is
    `f.targets.Value`, `ring[1]` is `f.targets.Next().Value`, and so on; `[]` is the
    nil ring. `Next` and `Prev` rotate this sequence, and `Unlink(1)` drops `ring[1]`. */
module Coordinator {
  import opened Common

  /** A trigger channel, compared by identity. `NilChan` is the nil value a slot of
      a fresh ring holds until `start` fills it. */
  datatype Handle = NilChan | Chan(id: nat)

  /** `r.Next()`: the pointer moves to the following element. */
  function Next<T>(r: seq<T>): seq<T> {
    if r == [] then [] else r[1..] + [r[0]]
  }

  /** `r.Prev()`: the pointer moves to the preceding element. */
  function Prev<T>(r: seq<T>): seq<T> {
    if r == [] then [] else [r[|r| - 1]] + r[..|r| - 1]
  }

  /** `r.Unlink(1)`: the element after the pointer leaves the ring. */
  function Unlink1<T>(r: seq<T>): seq<T>
    requires |r| >= 2
  {
    [r[0]] + r[2..]
  }

  /** The ring seen from k elements further on. */
  function RotateLeft<T>(r: seq<T>, k: nat): seq<T>
    requires k <= |r|
  {
    r[k..] + r[..k]
  }

  function RemoveAt<T>(s: seq<T>, i: nat): seq<T>
    requires i < |s|
  {
    s[..i] + s[i + 1..]
  }

  /** How many `Next` steps from the pointer reach the first element holding h. */
  function FirstIndex(r: seq<Handle>, h: Handle): (k: nat)
    requires h in r
    ensures k < |r| && r[k] == h
    ensures forall j :: 0 <= j < k ==> r[j] != h
  {
    if r[0] == h then 0 else 1 + FirstIndex(r[1..], h)
  }

  /** The handles the next k ticks signal, in order. */
  function Schedule(r: seq<Handle>, k: nat): (s: seq<Handle>)
    ensures |s| == if r == [] then 0 else k
    ensures forall x :: x in s ==> x in r
    decreases k
  {
    if k == 0 || r == [] then [] else [r[0]] + Schedule(Next(r), k - 1)
  }

  /** The ring after k ticks. */
  function Ticked(r: seq<Handle>, k: nat): seq<Handle>
    decreases k
  {
    if k == 0 then r else Ticked(Next(r), k - 1)
  }

  /** The ring that `remove` leaves, as the source computes it. On a one-element ring
      it is emptied whatever handle is given. Otherwise the walk stops at the first
      element holding h after `visited` steps; the pointer steps back once, the
      element after it is unlinked, and the pointer is then rewound `visited` times.
      That lands one element before the element that was current. */
  function RemoveAsWritten(r: seq<Handle>, h: Handle): (w: seq<Handle>)
    ensures |w| == if |r| == 1 then 0 else if h in r then |r| - 1 else |r|
    ensures forall x :: x in w ==> x in r
  {
    if |r| == 1 then []
    else if h in r then Prev(RemoveAt(r, FirstIndex(r, h)))
    else r
  }

  /** Whether `remove` closes the handle's channel: only on the unlink path. */
  predicate ClosesOnRemove(r: seq<Handle>, h: Handle) {
    |r| >= 2 && h in r
  }

  /** The removal the coordinator's invariant calls for: the handle leaves the ring
      and the pointer stays on the element that was current, or moves to the
      following one when the current element is the one removed. */
  function RemoveKeepingTurn(r: seq<Handle>, h: Handle): (w: seq<Handle>)
    ensures |w| == if |r| == 1 then 0 else if h in r then |r| - 1 else |r|
    ensures |r| >= 2 && h in r ==> multiset(w) == multiset(r) - multiset{h}
  {
    if |r| == 1 then []
    else if h in r then MultisetRemoveAt(r, FirstIndex(r, h)); RemoveAt(r, FirstIndex(r, h))
    else r
  }

  /** The values of a fresh `ring.New(n)`. */
  function Unset(n: nat): (r: seq<Handle>)
    ensures |r| == n && forall i :: 0 <= i < n ==> r[i] == NilChan
  {
    seq(n, _ => NilChan)
  }

  class TailCoordinator {
    /** The ring as seen from `f.targets`. */
    var ring: seq<Handle>
    /** The trigger channels that a removal has closed. */
    var closed: set<Handle>

    constructor ()
      ensures ring == [] && closed == {}
    {
      ring := [];
      closed := {};
    }

    /** `start`: a ring of one slot per target, filled in the given order, with the
        pointer back on the first target. */
    method Start(targets: seq<Handle>)
      modifies this
      ensures ring == targets && closed == old(closed)
    {
      ring := Unset(|targets|);
      var i := 0;
      while i < |ring|
        invariant 0 <= i <= |targets| == |ring|
        invariant ring == Unset(|targets| - i) + targets[..i]
        invariant closed == old(closed)
      {
        assert ring[1..] == Unset(|targets| - i - 1) + targets[..i];
        assert targets[..i + 1] == targets[..i] + [targets[i]];
        ring := [targets[i]] + ring[1..];
        ring := Next(ring);
        i := i + 1;
      }
    }

    /** One tick of the scheduler: on the nil ring nothing is signalled and the
        scheduler ends; otherwise the current handle is signalled and the pointer
        moves to the next one. */
    method Tick() returns (signalled: Option<Handle>)
      modifies this
      ensures old(ring) == [] ==> signalled == None
      ensures old(ring) != [] ==> signalled == Some(old(ring)[0])
      ensures ring == Next(old(ring)) && closed == old(closed)
    {
      if ring == [] {
        return None;
      }
      signalled := Some(ring[0]);
      ring := Next(ring);
    }

    /** The rewind at the end of `remove`: the pointer steps back `steps` times from
        k elements into w, wrapping round to w's last element at most once. */
    method Rewind(steps: nat, ghost w: seq<Handle>, ghost k: nat)
      modifies this
      requires 0 < |w| && k <= |w| && steps <= k + 1 && ring == RotateLeft(w, k)
      ensures ring == RotateLeft(w, if steps <= k then k - steps else |w| - 1)
      ensures closed == old(closed)
    {
      var i := 0;
      while i < steps
        invariant 0 <= i <= steps
        invariant ring == RotateLeft(w, if i <= k then k - i else |w| - 1)
        invariant closed == old(closed)
      {
        PrevRotate(w, k - i);
        ring := Prev(ring);
        i := i + 1;
      }
    }

    /** The walk of `remove`: step the pointer forward until it rests on h, or
        until it has gone once round the ring. */
    method Seek(h: Handle) returns (visited: nat, found: bool)
      modifies this
      ensures visited <= |old(ring)| && ring == RotateLeft(old(ring), visited)
      ensures forall j :: 0 <= j < visited ==> old(ring)[j] != h
      ensures found ==> visited < |old(ring)| && old(ring)[visited] == h
      ensures !found ==> visited == |old(ring)|
      ensures closed == old(closed)
    {
      ghost var start := ring;
      assert ring == RotateLeft(start, 0) by {
        RotateLeftFull(start);
      }
      var n := |ring|;
      visited := 0;
      while visited < n
        invariant 0 <= visited <= n == |start|
        invariant ring == RotateLeft(start, visited)
        invariant forall j :: 0 <= j < visited ==> start[j] != h
        invariant closed == old(closed)
      {
        RotateLeftHead(start, visited);
        if ring[0] == h {
          found := true;
          return;
        }
        NextRotate(start, visited);
        ring := Next(ring);
        visited := visited + 1;
      }
      found := false;
    }

    /** `remove`, as written. */
    method Remove(h: Handle)
      modifies this
      ensures ring == RemoveAsWritten(old(ring), h)
      ensures closed == if ClosesOnRemove(old(ring), h) then old(closed) + {h} else old(closed)
    {
      var initialLen := |ring|;
      if |ring| == 1 {
        ring := [];
        return;
      }
      ghost var start := ring;
      var visited, found := Seek(h);
      if found {
        UnlinkAfterPrev(start, visited);
        ring := Prev(ring);
        ring := Unlink1(ring);
        closed := closed + {h};
      }
      if |ring| < initialLen {
        ghost var w := RemoveAt(start, visited);
        Rewind(visited, w, if visited == 0 then |w| - 1 else visited - 1);
        PrevIsRotate(w);
        RemoveFoundAt(start, h, visited);
      } else {
        RotateLeftFull(start);
        RemoveNotFound(start, h);
      }
    }

    /** `remove` with the rewind corrected: after the unlink the pointer first moves
        to the element that followed the removed one, and only then is rewound. */
    method RemoveFair(h: Handle)
      modifies this
      ensures ring == RemoveKeepingTurn(old(ring), h)
      ensures closed == if ClosesOnRemove(old(ring), h) then old(closed) + {h} else old(closed)
    {
      var initialLen := |ring|;
      if |ring| == 1 {
        ring := [];
        return;
      }
      ghost var start := ring;
      var visited, found := Seek(h);
      if found {
        UnlinkThenNext(start, visited);
        ring := Prev(ring);
        ring := Unlink1(ring);
        ring := Next(ring);
        closed := closed + {h};
      }
      if |ring| < initialLen {
        ghost var w := RemoveAt(start, visited);
        Rewind(visited, w, visited);
        RotateLeftFull(w);
        RemoveFoundAt(start, h, visited);
      } else {
        RotateLeftFull(start);
        RemoveNotFound(start, h);
      }
    }
  }

  lemma RemoveFoundAt(r: seq<Handle>, h: Handle, v: nat)
    requires 2 <= |r| && v < |r| && r[v] == h
    requires forall j :: 0 <= j < v ==> r[j] != h
    ensures FirstIndex(r, h) == v && ClosesOnRemove(r, h)
    ensures RemoveAsWritten(r, h) == Prev(RemoveAt(r, v))
    ensures RemoveKeepingTurn(r, h) == RemoveAt(r, v)
  {
  }

  lemma RemoveNotFound(r: seq<Handle>, h: Handle)
    requires |r| != 1
    requires forall j :: 0 <= j < |r| ==> r[j] != h
    ensures !ClosesOnRemove(r, h)
    ensures RemoveAsWritten(r, h) == r && RemoveKeepingTurn(r, h) == r
  {
  }

  lemma RotateLeftHead<T>(r: seq<T>, k: nat)
    requires k < |r|
    ensures |RotateLeft(r, k)| == |r| && RotateLeft(r, k)[0] == r[k]
  {
  }

  lemma RotateLeftFull<T>(r: seq<T>)
    ensures RotateLeft(r, |r|) == r && RotateLeft(r, 0) == r
  {
    assert r[|r|..] == [] && r[..|r|] == r;
    assert r[0..] == r && r[..0] == [];
  }

  lemma NextRotate<T>(r: seq<T>, k: nat)
    requires k < |r|
    ensures Next(RotateLeft(r, k)) == RotateLeft(r, k + 1)
  {
    var q := RotateLeft(r, k);
    assert q[0] == r[k];
    assert q[1..] == r[k + 1..] + r[..k];
    assert r[..k + 1] == r[..k] + [r[k]];
  }

  lemma PrevRotate<T>(r: seq<T>, k: nat)
    requires 0 < |r| && k <= |r|
    ensures Prev(RotateLeft(r, k)) == RotateLeft(r, if k == 0 then |r| - 1 else k - 1)
  {
    if k == 0 || k == |r| {
      RotateLeftFull(r);
      PrevIsRotate(r);
    } else {
      PrevRotateInside(r, k);
    }
  }

  lemma PrevRotateInside<T>(r: seq<T>, k: nat)
    requires 0 < k < |r|
    ensures Prev(RotateLeft(r, k)) == RotateLeft(r, k - 1)
  {
    var a, b, c := r[k..], r[..k - 1], r[k - 1];
    assert r[..k] == b + [c];
    var q := a + b + [c];
    assert RotateLeft(r, k) == q;
    assert q[..|q| - 1] == a + b && q[|q| - 1] == c;
    assert Prev(q) == [c] + (a + b);
    assert r[k - 1..] == [c] + a;
    assert RotateLeft(r, k - 1) == [c] + a + b;
  }

  lemma PrevIsRotate<T>(w: seq<T>)
    requires |w| > 0
    ensures Prev(w) == RotateLeft(w, |w| - 1)
  {
    assert w[|w| - 1..] == [w[|w| - 1]];
  }

  lemma UnlinkAfterPrev(r: seq<Handle>, v: nat)
    requires 2 <= |r| && v < |r|
    ensures |Prev(RotateLeft(r, v))| == |r|
    ensures Unlink1(Prev(RotateLeft(r, v))) == RotateLeft(RemoveAt(r, v), if v == 0 then |r| - 2 else v - 1)
  {
    PrevRotate(r, v);
    if v == 0 {
      UnlinkAtHead(r);
    } else {
      UnlinkInside(r, v);
    }
  }

  lemma UnlinkAtHead(r: seq<Handle>)
    requires 2 <= |r|
    ensures Unlink1(RotateLeft(r, |r| - 1)) == RotateLeft(RemoveAt(r, 0), |r| - 2)
  {
    var n := |r|;
    var w := RemoveAt(r, 0);
    var p := RotateLeft(r, n - 1);
    assert p == [r[n - 1]] + r[..n - 1];
    assert Unlink1(p) == [r[n - 1]] + r[1..n - 1];
    assert w == r[1..];
    assert w[n - 2..] == [r[n - 1]];
    assert w[..n - 2] == r[1..n - 1];
  }

  lemma UnlinkInside(r: seq<Handle>, v: nat)
    requires 2 <= |r| && 0 < v < |r|
    ensures Unlink1(RotateLeft(r, v - 1)) == RotateLeft(RemoveAt(r, v), v - 1)
  {
    var w := RemoveAt(r, v);
    var p := RotateLeft(r, v - 1);
    assert p == [r[v - 1], r[v]] + r[v + 1..] + r[..v - 1];
    assert Unlink1(p) == [r[v - 1]] + r[v + 1..] + r[..v - 1];
    assert w[v - 1..] == [r[v - 1]] + r[v + 1..];
    assert w[..v - 1] == r[..v - 1];
  }

  lemma UnlinkThenNext(r: seq<Handle>, v: nat)
    requires 2 <= |r| && v < |r|
    ensures |Prev(RotateLeft(r, v))| == |r|
    ensures Next(Unlink1(Prev(RotateLeft(r, v)))) == RotateLeft(RemoveAt(r, v), if v == 0 then 0 else v)
  {
    var w := RemoveAt(r, v);
    UnlinkAfterPrev(r, v);
    NextRotate(w, if v == 0 then |w| - 1 else v - 1);
    RotateLeftFull(w);
  }

  lemma {:induction false} ScheduleFrom(r: seq<Handle>, i: nat)
    requires i <= |r|
    ensures Schedule(RotateLeft(r, i), |r| - i) == r[i..]
    ensures Ticked(RotateLeft(r, i), |r| - i) == r
    decreases |r| - i
  {
    if i == |r| {
      RotateLeftFull(r);
    } else {
      NextRotate(r, i);
      ScheduleFrom(r, i + 1);
      assert r[i..] == [r[i]] + r[i + 1..];
    }
  }

  /** Fairness of the tick: over |r| ticks every handle of the ring is signalled once,
      in ring order, and the pointer is back where it started. */
  lemma ScheduleFullCycle(r: seq<Handle>)
    ensures Schedule(r, |r|) == r
    ensures Ticked(r, |r|) == r
  {
    ScheduleFrom(r, 0);
    RotateLeftFull(r);
  }

  lemma MultisetRemoveAt<T>(s: seq<T>, i: nat)
    requires i < |s|
    ensures multiset(RemoveAt(s, i)) == multiset(s) - multiset{s[i]}
  {
    assert s == s[..i] + [s[i]] + s[i + 1..];
  }

  /** Removal as written, on a ring of two or more that holds h: the ring shrinks by
      one, loses exactly h, keeps the cyclic order of the others, and the pointer is
      left one step before the element that was current, so that one tick later the
      ring reads as before with h deleted. */
  lemma RemoveAsWrittenShape(r: seq<Handle>, h: Handle)
    requires |r| >= 2 && h in r
    ensures |RemoveAsWritten(r, h)| == |r| - 1
    ensures multiset(RemoveAsWritten(r, h)) == multiset(r) - multiset{h}
    ensures Next(RemoveAsWritten(r, h)) == RemoveAt(r, FirstIndex(r, h))
  {
    var k := FirstIndex(r, h);
    var w := RemoveAt(r, k);
    MultisetRemoveAt(r, k);
    var n := |w|;
    assert w == w[..n - 1] + [w[n - 1]];
    assert Prev(w)[1..] == w[..n - 1];
  }

  /** The handle that the last tick signalled is signalled again by the next tick
      after removing another handle that was not current: a removal repeats a
      neighbour, whereas the ring's invariant is that it must not. */
  lemma RemoveAfterTickRepeats(r: seq<Handle>, h: Handle)
    requires |r| >= 2 && h in r && h != r[0]
    ensures RemoveAsWritten(Next(r), h) != []
    ensures RemoveAsWritten(Next(r), h)[0] == r[0]
  {
    var r1 := Next(r);
    assert r1 == r[1..] + [r[0]];
    assert h in r1;
    var k := FirstIndex(r1, h);
    assert k < |r1| - 1;
    var w := RemoveAt(r1, k);
    assert w[|w| - 1] == r[0];
  }

  /** The input that shows it: start on channels A, B, C; three ticks signal A, B, C
      and bring the pointer back to A; removing B then makes the next two ticks
      signal C (again) and A. */
  lemma RemoveRepeatsExample()
    ensures Schedule([Chan(1), Chan(2), Chan(3)], 3) == [Chan(1), Chan(2), Chan(3)]
    ensures Ticked([Chan(1), Chan(2), Chan(3)], 3) == [Chan(1), Chan(2), Chan(3)]
    ensures RemoveAsWritten([Chan(1), Chan(2), Chan(3)], Chan(2)) == [Chan(3), Chan(1)]
    ensures Schedule([Chan(3), Chan(1)], 2) == [Chan(3), Chan(1)]
  {
    ScheduleFullCycle([Chan(1), Chan(2), Chan(3)]);
    ScheduleFullCycle([Chan(3), Chan(1)]);
    var r := [Chan(1), Chan(2), Chan(3)];
    assert FirstIndex(r, Chan(2)) == 1;
    assert RemoveAt(r, 1) == [Chan(1), Chan(3)];
  }

  /** The corrected removal is fair: the next |r| - 1 ticks signal exactly the handles
      the next |r| ticks would have signalled, minus h, in the same order. The
      current handle keeps its turn, or passes it to its successor when it is the
      one removed. */
  lemma RemoveKeepingTurnFair(r: seq<Handle>, h: Handle)
    requires |r| >= 2 && h in r
    ensures |RemoveKeepingTurn(r, h)| == |r| - 1
    ensures |Schedule(r, |r|)| == |r|
    ensures Schedule(RemoveKeepingTurn(r, h), |r| - 1) == RemoveAt(Schedule(r, |r|), FirstIndex(r, h))
    ensures h != r[0] ==> RemoveKeepingTurn(r, h)[0] == r[0]
    ensures h == r[0] ==> RemoveKeepingTurn(r, h) == r[1..]
  {
    var k := FirstIndex(r, h);
    var w := RemoveAt(r, k);
    RemoveAtHead(r, k);
    assert RemoveKeepingTurn(r, h) == w;
    assert Schedule(r, |r|) == r by { ScheduleFullCycle(r); }
    assert Schedule(w, |w|) == w by { ScheduleFullCycle(w); }
  }

  lemma RemoveAtHead<T>(r: seq<T>, k: nat)
    requires k < |r|
    ensures |RemoveAt(r, k)| == |r| - 1
    ensures k == 0 ==> RemoveAt(r, k) == r[1..]
    ensures 0 < k ==> RemoveAt(r, k)[0] == r[0]
  {
    if k == 0 {
      assert r[..0] == [];
    } else {
      assert r[..k][0] == r[0];
    }
  }

  /** On a one-element ring, removal empties the ring whatever handle is given and
      closes nothing; a handle that is not in the ring, or the nil ring, leaves
      everything as it was. */
  lemma RemoveEdgeCases(r: seq<Handle>, h: Handle)
    ensures |r| == 1 ==> RemoveAsWritten(r, h) == [] && !ClosesOnRemove(r, h)
    ensures h !in r && |r| != 1 ==> RemoveAsWritten(r, h) == r && !ClosesOnRemove(r, h)
  {
  }
}

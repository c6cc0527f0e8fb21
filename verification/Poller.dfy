/**
 The poller: a list of polled handles, each with the kernel's poll handle (a resource to be
 notified and destroyed once) and the mask of the last sweep.
 */
module Poller {
  import opened Options

  datatype PollInfo = PollInfo(handle: int, ph: Option<nat>, mask: nat)

  datatype PhEvent = Notify(ph: nat) | Destroy(ph: nat)

  /** The first entry of that handle, or |phs|. */
  function IndexOf(phs: seq<PollInfo>, h: int): (i: nat)
    ensures i <= |phs|
    ensures i < |phs| ==> phs[i].handle == h
    ensures forall j :: 0 <= j < i ==> phs[j].handle != h
  {
    if phs == [] || phs[0].handle == h then 0 else 1 + IndexOf(phs[1..], h)
  }

  /** A handle that is already there gets the new poll handle and keeps its mask. */
  function Registered(phs: seq<PollInfo>, h: int, ph: nat): seq<PollInfo> {
    var i := IndexOf(phs, h);
    if i == |phs| then phs + [PollInfo(h, Some(ph), 0)] else phs[i := phs[i].(ph := Some(ph))]
  }

  /** Replacing a poll handle destroys the one it replaces. */
  function RegisterEvents(phs: seq<PollInfo>, h: int): seq<PhEvent> {
    var i := IndexOf(phs, h);
    if i < |phs| && phs[i].ph.Some? then [Destroy(phs[i].ph.value)] else []
  }

  function Unregistered(phs: seq<PollInfo>, h: int): seq<PollInfo> {
    if phs == [] then []
    else (if phs[0].handle == h then [] else [phs[0]]) + Unregistered(phs[1..], h)
  }

  function Status(phs: seq<PollInfo>, h: int): nat {
    var i := IndexOf(phs, h);
    if i == |phs| then 0 else phs[i].mask
  }

  /** One entry of a sweep, when its operation answered with the mask m. */
  function Swept(info: PollInfo, m: nat): PollInfo {
    if m == 0 then info.(mask := 0) else PollInfo(info.handle, None, m)
  }

  function SweepEvents(info: PollInfo, m: nat): seq<PhEvent> {
    if m != 0 && info.ph.Some? then [Notify(info.ph.value), Destroy(info.ph.value)] else []
  }

  /** The first n entries have been swept, the others are as they were. */
  ghost predicate SweptTo(before: seq<PollInfo>, answers: int -> nat, n: nat, after: seq<PollInfo>) {
    && n <= |before| == |after|
    && (forall i :: 0 <= i < n ==> after[i] == Swept(before[i], answers(before[i].handle)))
    && (forall i :: n <= i < |before| ==> after[i] == before[i])
  }

  function PrefixEvents(phs: seq<PollInfo>, answers: int -> nat, n: nat): seq<PhEvent>
    requires n <= |phs|
  {
    if n == 0 then [] else PrefixEvents(phs, answers, n - 1) + SweepEvents(phs[n - 1], answers(phs[n - 1].handle))
  }

  lemma PrefixStep(phs: seq<PollInfo>, answers: int -> nat, i: nat)
    requires i < |phs|
    ensures PrefixEvents(phs, answers, i + 1)
         == PrefixEvents(phs, answers, i) + SweepEvents(phs[i], answers(phs[i].handle))
  {
  }

  /** An entry that a sweep wakes: it holds a poll handle, and its operation is ready. */
  predicate Wakes(info: PollInfo, answers: int -> nat) {
    info.ph.Some? && answers(info.handle) != 0
  }

  /** The kernel is told to notify the poll handle, and after that to destroy it. */
  ghost predicate WokenIn(events: seq<PhEvent>, ph: nat) {
    exists i, j :: 0 <= i < j < |events| && events[i] == Notify(ph) && events[j] == Destroy(ph)
  }

  /** What the entries of a sweep up to n make of the poll handles: each one woken, and no other touched. */
  ghost predicate WakesExactly(phs: seq<PollInfo>, answers: int -> nat, n: nat, events: seq<PhEvent>) {
    && n <= |phs|
    && (forall i :: 0 <= i < n && Wakes(phs[i], answers) ==> WokenIn(events, phs[i].ph.value))
    && (forall e :: e in events ==> exists i :: 0 <= i < n && Wakes(phs[i], answers) && phs[i].ph == Some(e.ph))
  }

  lemma {:induction false} PrefixWakes(phs: seq<PollInfo>, answers: int -> nat, n: nat)
    requires n <= |phs|
    ensures WakesExactly(phs, answers, n, PrefixEvents(phs, answers, n))
  {
    hide WokenIn;
    if n > 0 {
      PrefixWakes(phs, answers, n - 1);
      var front := PrefixEvents(phs, answers, n - 1);
      var last := SweepEvents(phs[n - 1], answers(phs[n - 1].handle));
      var all := front + last;
      forall i | 0 <= i < n && Wakes(phs[i], answers) ensures WokenIn(all, phs[i].ph.value) {
        if i < n - 1 {
          StillWoken(front, last, phs[i].ph.value);
        } else {
          LastWoken(front, phs[i].ph.value);
        }
      }
    }
  }

  lemma StillWoken(front: seq<PhEvent>, last: seq<PhEvent>, ph: nat)
    requires WokenIn(front, ph)
    ensures WokenIn(front + last, ph)
  {
    var i, j :| 0 <= i < j < |front| && front[i] == Notify(ph) && front[j] == Destroy(ph);
    assert (front + last)[i] == Notify(ph) && (front + last)[j] == Destroy(ph);
  }

  lemma LastWoken(front: seq<PhEvent>, ph: nat)
    ensures WokenIn(front + [Notify(ph), Destroy(ph)], ph)
  {
    var all := front + [Notify(ph), Destroy(ph)];
    assert all[|front|] == Notify(ph) && all[|front| + 1] == Destroy(ph);
  }

  lemma {:induction false} UnregisteredFacts(phs: seq<PollInfo>, h: int)
    ensures forall i :: 0 <= i < |Unregistered(phs, h)| ==>
        Unregistered(phs, h)[i] in phs && Unregistered(phs, h)[i].handle != h
    ensures |Unregistered(phs, h)| <= |phs|
  {
    if phs != [] {
      UnregisteredFacts(phs[1..], h);
    }
  }

  ghost predicate DistinctHandles(phs: seq<PollInfo>) {
    forall i, j :: 0 <= i < j < |phs| ==> phs[i].handle != phs[j].handle
  }

  lemma {:induction false} UnregisteredDistinct(phs: seq<PollInfo>, h: int)
    requires DistinctHandles(phs)
    ensures DistinctHandles(Unregistered(phs, h))
  {
    if phs != [] {
      UnregisteredDistinct(phs[1..], h);
      UnregisteredFacts(phs[1..], h);
      var r := Unregistered(phs[1..], h);
      forall j | 0 <= j < |r| ensures r[j].handle != phs[0].handle {
        assert r[j] in phs[1..];
      }
    }
  }

  /** Index i is the first entry of h. */
  ghost predicate IsFirst(phs: seq<PollInfo>, i: nat, h: int) {
    i < |phs| && phs[i].handle == h && forall j :: 0 <= j < i ==> phs[j].handle != h
  }

  /** The entries of a stand in b in the same order. */
  ghost predicate InOrder(a: seq<PollInfo>, b: seq<PollInfo>) {
    forall i, j :: 0 <= i < j < |a| ==> Before(b, a[i], a[j])
  }

  ghost predicate Before(phs: seq<PollInfo>, x: PollInfo, y: PollInfo) {
    exists i, j :: 0 <= i < j < |phs| && phs[i] == x && phs[j] == y
  }

  lemma BeforeBehind(x: PollInfo, phs: seq<PollInfo>, a: PollInfo, b: PollInfo)
    requires Before(phs, a, b)
    ensures Before([x] + phs, a, b)
  {
    var i, j :| 0 <= i < j < |phs| && phs[i] == a && phs[j] == b;
    assert ([x] + phs)[i + 1] == a && ([x] + phs)[j + 1] == b;
  }

  lemma HeadBefore(x: PollInfo, phs: seq<PollInfo>, b: PollInfo)
    requires b in phs
    ensures Before([x] + phs, x, b)
  {
    var j :| 0 <= j < |phs| && phs[j] == b;
    assert ([x] + phs)[0] == x && ([x] + phs)[j + 1] == b;
  }

  lemma {:induction false} UnregisteredInOrder(phs: seq<PollInfo>, h: int)
    ensures InOrder(Unregistered(phs, h), phs)
    ensures forall x :: x in phs && x.handle != h ==> x in Unregistered(phs, h)
  {
    hide Before;
    if phs != [] {
      var x, tail := phs[0], phs[1..];
      UnregisteredInOrder(tail, h);
      UnregisteredFacts(tail, h);
      assert phs == [x] + tail;
      var r, rest := Unregistered(phs, h), Unregistered(tail, h);
      forall i, j | 0 <= i < j < |r| ensures Before(phs, r[i], r[j]) {
        if x.handle != h && i == 0 {
          assert r[j] == rest[j - 1];
          HeadBefore(x, tail, r[j]);
        } else {
          var k := |r| - |rest|;
          assert r[i] == rest[i - k] && r[j] == rest[j - k];
          BeforeBehind(x, tail, r[i], r[j]);
        }
      }
    }
  }

  /** Handle h is not polled. */
  ghost predicate NotPolled(phs: seq<PollInfo>, h: int) {
    forall x :: x in phs ==> x.handle != h
  }

  /** Only handles of that set are polled. */
  ghost predicate OnlyLive(phs: seq<PollInfo>, live: set<int>) {
    forall x :: x in phs ==> x.handle in live
  }

  lemma {:induction false} UnregisterNotPolled(phs: seq<PollInfo>, h: int)
    requires NotPolled(phs, h)
    ensures Unregistered(phs, h) == phs
  {
    if phs != [] {
      assert phs[0] in phs;
      UnregisterNotPolled(phs[1..], h);
    }
  }

  lemma RegisteredLive(phs: seq<PollInfo>, h: int, ph: nat, live: set<int>)
    requires OnlyLive(phs, live) && h in live
    ensures OnlyLive(Registered(phs, h, ph), live)
  {
  }

  lemma UnregisteredLive(phs: seq<PollInfo>, h: int, live: set<int>)
    requires OnlyLive(phs, live)
    ensures OnlyLive(Unregistered(phs, h), live - {h})
  {
    UnregisteredFacts(phs, h);
  }

  class FusePoller {
    var phs: seq<PollInfo>
    var events: seq<PhEvent>   // what the kernel was told about poll handles

    constructor ()
      ensures phs == [] && events == []
    {
      phs, events := [], [];
    }

    method RegisterNew(h: int, ph: nat)
      modifies this
      ensures phs == Registered(old(phs), h, ph)
      ensures events == old(events) + RegisterEvents(old(phs), h)
      ensures PollInfo(h, Some(ph), Status(old(phs), h)) in phs
      ensures |phs| == |old(phs)| + if NotPolled(old(phs), h) then 1 else 0
      ensures forall i :: 0 <= i < |old(phs)| ==> phs[i].handle == old(phs)[i].handle
      ensures forall i :: 0 <= i < |old(phs)| && phs[i].handle != h ==> phs[i] == old(phs)[i]
      ensures DistinctHandles(old(phs)) ==> DistinctHandles(phs)
      ensures forall x :: x in old(phs) && x.ph.Some? && x !in phs ==>
                x.handle == h && Destroy(x.ph.value) in events[|old(events)|..]
    {
      var i := IndexOf(phs, h);
      if i == |phs| {
        phs := phs + [PollInfo(h, Some(ph), 0)];
      } else {
        if phs[i].ph.Some? {
          events := events + [Destroy(phs[i].ph.value)];
        }
        phs := phs[i := phs[i].(ph := Some(ph))];
        assert phs[i] == PollInfo(h, Some(ph), Status(old(phs), h));
      }
    }

    method Unregister(h: int)
      modifies this`phs
      ensures phs == Unregistered(old(phs), h)
      ensures NotPolled(phs, h) && InOrder(phs, old(phs))
      ensures forall x :: x in old(phs) && x.handle != h ==> x in phs
      ensures DistinctHandles(old(phs)) ==> DistinctHandles(phs)
    {
      UnregisteredFacts(phs, h);
      UnregisteredInOrder(phs, h);
      if DistinctHandles(phs) {
        UnregisteredDistinct(phs, h);
      }
      phs := Unregistered(phs, h);
    }

    method GetStatus(h: int) returns (mask: nat)
      ensures mask == Status(phs, h)
      ensures NotPolled(phs, h) ==> mask == 0
      ensures !NotPolled(phs, h) ==> exists i :: 0 <= i < |phs| && IsFirst(phs, i, h) && mask == phs[i].mask
    {
      var i := IndexOf(phs, h);
      assert i < |phs| ==> IsFirst(phs, i, h);
      mask := if i == |phs| then 0 else phs[i].mask;
    }

    /** One turn of the sweep; a handle that is not registered makes it throw, with the mask already cleared. */
    method SweepEntry(i: nat, live: set<int>, answers: int -> nat) returns (threw: bool)
      requires i < |phs|
      modifies this
      ensures threw <==> old(phs)[i].handle !in live
      ensures threw ==> phs == old(phs)[i := old(phs)[i].(mask := 0)] && events == old(events)
      ensures !threw ==>
        var m := answers(old(phs)[i].handle);
        phs == old(phs)[i := Swept(old(phs)[i], m)] && events == old(events) + SweepEvents(old(phs)[i], m)
      ensures !threw ==>
        var x, m := old(phs)[i], answers(old(phs)[i].handle);
        && phs[i] == PollInfo(x.handle, if m != 0 then None else x.ph, m)
        && events == old(events) + (if m != 0 && x.ph.Some? then [Notify(x.ph.value), Destroy(x.ph.value)] else [])
    {
      phs := phs[i := phs[i].(mask := 0)];
      if phs[i].handle !in live {
        return true;
      }
      var m := answers(phs[i].handle);
      phs := phs[i := phs[i].(mask := m)];
      if m != 0 {
        if phs[i].ph.Some? {
          events := events + [Notify(phs[i].ph.value)];
          events := events + [Destroy(phs[i].ph.value)];
        }
        phs := phs[i := phs[i].(ph := None)];
      }
      return false;
    }

    /**
     One sweep under the lock. It throws exactly when some polled handle is not registered; it then stops at the
     first such entry, clears its mask and leaves the later ones untouched.
     */
    method PollHandles(live: set<int>, answers: int -> nat) returns (threw: bool, ghost n: nat)
      modifies this
      ensures n <= |old(phs)| && forall j :: 0 <= j < n ==> old(phs)[j].handle in live
      ensures threw <==> n < |old(phs)| && old(phs)[n].handle !in live
      ensures !threw ==> n == |old(phs)| && SweptTo(old(phs), answers, n, phs)
      ensures threw ==>
        exists swept :: SweptTo(old(phs), answers, n, swept) && phs == swept[n := old(phs)[n].(mask := 0)]
      ensures events == old(events) + PrefixEvents(old(phs), answers, n)
      ensures WakesExactly(old(phs), answers, n, events[|old(events)|..])
      ensures |phs| == |old(phs)|
      ensures forall i :: 0 <= i < n ==>
                var x, m := old(phs)[i], answers(old(phs)[i].handle);
                phs[i] == PollInfo(x.handle, if m != 0 then None else x.ph, m)
    {
      hide WakesExactly;
      ghost var start, before := phs, events;
      var i := 0;
      while i < |phs|
        invariant 0 <= i <= |phs| == |start|
        invariant forall j :: 0 <= j < i ==> start[j].handle in live
        invariant SweptTo(start, answers, i, phs)
        invariant events == before + PrefixEvents(start, answers, i)
      {
        n := i;
        var failed := SweepEntry(i, live, answers);
        if failed {
          PrefixWakes(start, answers, n);
          return true, n;
        }
        PrefixStep(start, answers, i);
        i := i + 1;
      }
      PrefixWakes(start, answers, i);
      return false, i;
    }
  }
}

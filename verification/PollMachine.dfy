/**
 Every interleaving of the polling thread with the file system's own calls: opens, polls,
 and closes in their three separate steps (release, leave the poller, leave the handle table).
 The poller's lock is held for a whole sweep; the handle table is not protected by it.
 */
module PollMachine {
  import opened Options
  import opened Poller

  datatype Stage = Released | Unpolled

  /**
   `opening` are the registered handles whose open has not returned, `given` the poll handles the kernel has
   handed out, `sweep` the next entry of a running sweep, and `hit` records a sweep that met a handle that is
   not registered.
   */
  datatype State = State(live: set<int>, last: int, opening: set<int>, closing: map<int, Stage>, phs: seq<PollInfo>,
                         events: seq<PhEvent>, sweep: Option<nat>, given: set<nat>, hit: bool)

  const INIT: State := State({}, 0, {}, map[], [], [], None, {}, false)

  datatype Step =
    | OpenBegin
    | OpenReturn(h: int)
    | OpenFail(h: int)
    | Poll(h: int, ph: nat)
    | Release(h: int)
    | LeavePoller(h: int)
    | LeaveTable(h: int)
    | SweepBegin
    | SweepNext(h: int, mask: nat)
    | SweepEnd

  /** What the program order and the lock enforce. */
  predicate Enabled(s: State, t: Step) {
    match t
    case OpenBegin => true
    case OpenReturn(h) => h in s.opening
    case OpenFail(h) => h in s.opening
    case Poll(_, _) => s.sweep.None?
    case Release(h) => h in s.live && h !in s.opening && h !in s.closing
    case LeavePoller(h) => h in s.closing && s.closing[h] == Released && s.sweep.None?
    case LeaveTable(h) => h in s.closing && s.closing[h] == Unpolled
    case SweepBegin => s.sweep.None?
    case SweepNext(h, _) => s.sweep.Some? && s.sweep.value < |s.phs| && s.phs[s.sweep.value].handle == h
    case SweepEnd => s.sweep == Some(|s.phs|)
  }

  function Next(s: State, t: Step): State
    requires Enabled(s, t)
  {
    match t
    case OpenBegin => s.(live := s.live + {s.last + 1}, opening := s.opening + {s.last + 1}, last := s.last + 1)
    case OpenReturn(h) => s.(opening := s.opening - {h})
    case OpenFail(h) => s.(opening := s.opening - {h}, live := s.live - {h})   // without leaving the poller
    case Poll(h, ph) =>
      s.(phs := Registered(s.phs, h, ph), events := s.events + RegisterEvents(s.phs, h), given := s.given + {ph})
    case Release(h) => s.(closing := s.closing[h := Released])
    case LeavePoller(h) => s.(closing := s.closing[h := Unpolled], phs := Unregistered(s.phs, h))
    case LeaveTable(h) => s.(closing := s.closing - {h}, live := s.live - {h})
    case SweepBegin => s.(sweep := Some(0))
    case SweepNext(h, m) =>
      var i := s.sweep.value;
      if h !in s.live then s.(phs := s.phs[i := s.phs[i].(mask := 0)], sweep := None, hit := true)
      else
        var events := s.events + SweepEvents(s.phs[i], m);
        s.(phs := s.phs[i := Swept(s.phs[i], m)], events := events, sweep := Some(i + 1))
    case SweepEnd => s.(sweep := None)
  }

  /** A handle that may be polled: its open returned, and its close has not left the poller. */
  predicate Pollable(s: State, h: int) {
    h in s.live && h !in s.opening && !(h in s.closing && s.closing[h] == Unpolled)
  }

  /** What the kernel promises: it polls open files only, with a poll handle it has not used before. */
  predicate KernelPromise(s: State, t: Step) {
    t.Poll? ==> Pollable(s, t.h) && t.ph !in s.given
  }

  predicate Admissible(s: State, run: seq<Step>)
    decreases run
  {
    run == [] || (Enabled(s, run[0]) && KernelPromise(s, run[0]) && Admissible(Next(s, run[0]), run[1..]))
  }

  function Exec(s: State, run: seq<Step>): State
    requires Admissible(s, run)
    decreases run
  {
    if run == [] then s else Exec(Next(s, run[0]), run[1..])
  }

  // ----- The invariant -----

  ghost predicate Bookkeeping(s: State) {
    && (forall h :: h in s.live ==> h <= s.last)
    && (forall h :: h in s.closing ==> h in s.live && h !in s.opening)
    && (forall h :: h in s.opening ==> h in s.live)
    && (s.sweep.Some? ==> s.sweep.value <= |s.phs|)
  }

  /** Every polled handle is one that may be polled. */
  ghost predicate OnlyPollable(s: State) {
    forall i :: 0 <= i < |s.phs| ==> Pollable(s, s.phs[i].handle)
  }

  /** Each poll handle is notified at most once and destroyed at most once, and not notified once destroyed. */
  ghost predicate UsedOnce(events: seq<PhEvent>) {
    forall i, j :: 0 <= i < j < |events| && events[i].ph == events[j].ph ==> events[i].Notify? && events[j].Destroy?
  }

  /** No poll handle is held twice. */
  ghost predicate DistinctHeld(phs: seq<PollInfo>) {
    forall i, j :: 0 <= i < j < |phs| && phs[i].ph.Some? ==> phs[i].ph != phs[j].ph
  }

  /** The poll handles held are the kernel's, distinct, and neither notified nor destroyed yet. */
  ghost predicate HeldUnused(s: State) {
    && (forall i :: 0 <= i < |s.phs| && s.phs[i].ph.Some? ==>
          s.phs[i].ph.value in s.given && forall e :: 0 <= e < |s.events| ==> s.events[e].ph != s.phs[i].ph.value)
    && DistinctHeld(s.phs)
    && (forall e :: 0 <= e < |s.events| ==> s.events[e].ph in s.given)
  }

  ghost predicate Inv(s: State) {
    Bookkeeping(s) && DistinctHandles(s.phs) && OnlyPollable(s) && UsedOnce(s.events) && HeldUnused(s) && !s.hit
  }

  lemma {:induction false} UnregisteredPhDistinct(phs: seq<PollInfo>, h: int)
    requires DistinctHeld(phs)
    ensures DistinctHeld(Unregistered(phs, h))
  {
    if phs != [] {
      UnregisteredPhDistinct(phs[1..], h);
      UnregisteredFacts(phs[1..], h);
      var r := Unregistered(phs[1..], h);
      forall j | 0 <= j < |r| && phs[0].ph.Some? ensures r[j].ph != phs[0].ph {
        assert r[j] in phs[1..];
      }
    }
  }

  lemma PollKeeps(s: State, h: int, ph: nat)
    requires Inv(s) && s.sweep.None? && Pollable(s, h) && ph !in s.given
    ensures Inv(Next(s, Poll(h, ph)))
  {
    hide UsedOnce, HeldUnused;
    PollKeepsHeld(s, h, ph);
  }

  lemma PollKeepsHeld(s: State, h: int, ph: nat)
    requires UsedOnce(s.events) && HeldUnused(s) && s.sweep.None? && ph !in s.given
    ensures UsedOnce(Next(s, Poll(h, ph)).events) && HeldUnused(Next(s, Poll(h, ph)))
  {
  }

  lemma LeavePollerKeeps(s: State, h: int)
    requires Inv(s) && Enabled(s, LeavePoller(h))
    ensures Inv(Next(s, LeavePoller(h)))
  {
    var t := Next(s, LeavePoller(h));
    UnregisteredFacts(s.phs, h);
    UnregisteredDistinct(s.phs, h);
    UnregisteredPhDistinct(s.phs, h);
    forall i | 0 <= i < |t.phs| ensures Pollable(t, t.phs[i].handle) {
      assert t.phs[i] in s.phs;
    }
    forall i | 0 <= i < |t.phs| && t.phs[i].ph.Some?
      ensures t.phs[i].ph.value in t.given && forall e :: 0 <= e < |t.events| ==> t.events[e].ph != t.phs[i].ph.value
    {
      assert t.phs[i] in s.phs;
    }
  }

  lemma SweepNextKeeps(s: State, h: int, m: nat)
    requires Inv(s) && Enabled(s, SweepNext(h, m))
    ensures Inv(Next(s, SweepNext(h, m)))
  {
  }

  lemma StepKeeps(s: State, t: Step)
    requires Inv(s) && Enabled(s, t) && KernelPromise(s, t)
    ensures Inv(Next(s, t))
  {
    match t
    case Poll(h, ph) => PollKeeps(s, h, ph);
    case LeavePoller(h) => LeavePollerKeeps(s, h);
    case SweepNext(h, m) => SweepNextKeeps(s, h, m);
    case _ =>
  }

  /**
   Over every admissible interleaving: polled handles are distinct and registered, no sweep meets an invalid
   handle, and every poll handle is notified and destroyed at most once, never notified once destroyed.
   */
  lemma {:induction false} EveryInterleavingIsSafe(s: State, run: seq<Step>)
    requires Inv(s) && Admissible(s, run)
    ensures Inv(Exec(s, run))
    decreases run
  {
    if run != [] {
      StepKeeps(s, run[0]);
      EveryInterleavingIsSafe(Next(s, run[0]), run[1..]);
    }
  }

  /** Some admissible continuation has a sweep that meets an invalid handle. */
  ghost predicate CanHit(s: State) {
    exists run :: Admissible(s, run) && Exec(s, run).hit
  }

  lemma CanHitBefore(s: State, t: Step)
    requires Enabled(s, t) && KernelPromise(s, t) && CanHit(Next(s, t))
    ensures CanHit(s)
  {
    var run :| Admissible(Next(s, t), run) && Exec(Next(s, t), run).hit;
    assert ([t] + run)[1..] == run;
    assert Admissible(s, [t] + run) && Exec(s, [t] + run).hit;
  }

  /** A sweep that has not passed an invalid handle yet gets to it, or to an earlier one. */
  lemma {:induction false} SweepReaches(s: State, i: nat)
    requires s.sweep.Some? && s.sweep.value <= i < |s.phs| && s.phs[i].handle !in s.live
    ensures CanHit(s)
    decreases i - s.sweep.value
  {
    var t := SweepNext(s.phs[s.sweep.value].handle, 0);
    var u := Next(s, t);
    if t.h in s.live {
      SweepReaches(u, i);
    } else {
      assert Admissible(u, []) && Exec(u, []).hit;
    }
    CanHitBefore(s, t);
  }

  lemma InvalidIsReached(s: State, i: nat)
    requires s.sweep.None? && i < |s.phs| && s.phs[i].handle !in s.live
    ensures CanHit(s)
  {
    SweepReaches(Next(s, SweepBegin), i);
    CanHitBefore(s, SweepBegin);
  }

  /**
   Exactly the polls on handles that may be polled are harmless: after any other, some continuation has a
   sweep that meets an invalid handle.
   */
  lemma PollIsHarmlessIff(s: State, h: int, ph: nat)
    requires Inv(s) && Enabled(s, Poll(h, ph)) && ph !in s.given
    ensures CanHit(Next(s, Poll(h, ph))) <==> !Pollable(s, h)
  {
    hide CanHit, UsedOnce, HeldUnused, DistinctHandles;
    var u := Next(s, Poll(h, ph));
    if Pollable(s, h) {
      PollKeeps(s, h, ph);
      NeverHits(u);
    } else {
      var i := IndexOf(s.phs, h);
      assert u.phs[i].handle == h;
      if h !in s.live {
        InvalidIsReached(u, i);
      } else {
        var t := if h in s.opening then OpenFail(h) else LeaveTable(h);
        InvalidIsReached(Next(u, t), i);
        CanHitBefore(u, t);
      }
    }
  }

  lemma NeverHits(s: State)
    requires Inv(s)
    ensures !CanHit(s)
  {
    forall run | Admissible(s, run) ensures !Exec(s, run).hit {
      EveryInterleavingIsSafe(s, run);
    }
  }

  /** A poll that comes between the last two steps of a close makes a later sweep hit an invalid handle. */
  lemma LatePollIsHit()
    ensures var s1 := Next(Next(INIT, OpenBegin), OpenReturn(1));
            var s2 := Next(s1, Release(1));
            var s3 := Next(s2, LeavePoller(1));
            Enabled(s3, Poll(1, 7)) &&
            var s4 := Next(s3, Poll(1, 7));
            var s5 := Next(s4, LeaveTable(1));
            var s6 := Next(s5, SweepBegin);
            Enabled(s6, SweepNext(1, 0)) && Next(s6, SweepNext(1, 0)).hit
  {
    var s1 := Next(Next(INIT, OpenBegin), OpenReturn(1));
    var s2 := Next(s1, Release(1));
    var s3 := Next(s2, LeavePoller(1));
    var s4 := Next(s3, Poll(1, 7));
    assert s4.phs == [PollInfo(1, Some(7), 0)];
  }

  // ----- What becomes of a poll handle -----

  datatype Fate =
    | NotGiven
    | Held       // by some entry
    | Woken      // a sweep found its file ready
    | Superseded // another poll of the same handle replaced it
    | Dropped    // its handle left the poller

  ghost predicate HeldBy(phs: seq<PollInfo>, h: int, ph: nat) {
    exists i :: 0 <= i < |phs| && phs[i].handle == h && phs[i].ph == Some(ph)
  }

  ghost predicate IsHeld(phs: seq<PollInfo>, ph: nat) {
    exists i :: 0 <= i < |phs| && phs[i].ph == Some(ph)
  }

  /** What a step makes of a poll handle, told from the step and the entry that holds it. */
  ghost function FateAfter(s: State, t: Step, ph: nat, fate: Fate): Fate {
    match t
    case Poll(h, p) => if p == ph then Held else if HeldBy(s.phs, h, ph) then Superseded else fate
    case LeavePoller(h) => if HeldBy(s.phs, h, ph) then Dropped else fate
    case SweepNext(h, m) => if HeldBy(s.phs, h, ph) && m != 0 then Woken else fate
    case _ => fate
  }

  ghost function FateOf(s: State, run: seq<Step>, ph: nat, fate: Fate): Fate
    requires Admissible(s, run)
    decreases run
  {
    if run == [] then fate else FateOf(Next(s, run[0]), run[1..], ph, FateAfter(s, run[0], ph, fate))
  }

  /** The events about one poll handle, in order. */
  function About(events: seq<PhEvent>, ph: nat): seq<PhEvent> {
    if events == [] then []
    else About(events[..|events| - 1], ph) + if events[|events| - 1].ph == ph then [events[|events| - 1]] else []
  }

  /** What the kernel has been told about a poll handle of that fate. */
  function Due(fate: Fate, ph: nat): seq<PhEvent> {
    match fate
    case Woken => [Notify(ph), Destroy(ph)]
    case Superseded => [Destroy(ph)]
    case _ => []
  }

  ghost predicate FateOk(s: State, ph: nat, fate: Fate) {
    && (fate == NotGiven <==> ph !in s.given)
    && (fate == Held <==> IsHeld(s.phs, ph))
    && About(s.events, ph) == Due(fate, ph)
  }

  lemma AboutSnoc(events: seq<PhEvent>, e: PhEvent, ph: nat)
    ensures About(events + [e], ph) == About(events, ph) + if e.ph == ph then [e] else []
  {
    assert (events + [e])[..|events|] == events;
  }

  lemma {:induction false} AboutMore(events: seq<PhEvent>, more: seq<PhEvent>, ph: nat)
    ensures About(events + more, ph) == About(events, ph) + About(more, ph)
    decreases more
  {
    hide About;
    if more == [] {
      AboutNothing(ph);
      assert events + more == events;
    } else {
      var front, last := more[..|more| - 1], more[|more| - 1];
      assert more == front + [last] && events + more == events + front + [last];
      AboutMore(events, front, ph);
      AboutSnoc(front, last, ph);
      AboutSnoc(events + front, last, ph);
    }
  }

  lemma AboutNothing(ph: nat)
    ensures About([], ph) == []
  {
  }

  lemma OneHolder(phs: seq<PollInfo>, i: nat, ph: nat)
    requires DistinctHandles(phs) && i < |phs|
    ensures HeldBy(phs, phs[i].handle, ph) <==> phs[i].ph == Some(ph)
  {
  }

  /** What a change of one entry's poll handle does to who is held. */
  lemma HeldAfter(phs: seq<PollInfo>, i: nat, x: PollInfo, ph: nat)
    requires DistinctHeld(phs) && i < |phs|
    ensures IsHeld(phs[i := x], ph) <==> x.ph == Some(ph) || (IsHeld(phs, ph) && phs[i].ph != Some(ph))
  {
    var after := phs[i := x];
    if x.ph == Some(ph) {
      assert after[i].ph == Some(ph);
    }
    if IsHeld(phs, ph) && phs[i].ph != Some(ph) {
      var j :| 0 <= j < |phs| && phs[j].ph == Some(ph);
      assert after[j].ph == Some(ph);
    }
    if IsHeld(after, ph) && x.ph != Some(ph) {
      var j :| 0 <= j < |after| && after[j].ph == Some(ph);
      assert phs[j].ph == Some(ph);
    }
  }

  lemma HeldAppended(phs: seq<PollInfo>, x: PollInfo, ph: nat)
    ensures IsHeld(phs + [x], ph) <==> x.ph == Some(ph) || IsHeld(phs, ph)
  {
    var after := phs + [x];
    if x.ph == Some(ph) {
      assert after[|phs|].ph == Some(ph);
    }
    if IsHeld(phs, ph) {
      var j :| 0 <= j < |phs| && phs[j].ph == Some(ph);
      assert after[j].ph == Some(ph);
    }
  }

  lemma FateOfPoll(s: State, h: int, p: nat, ph: nat, fate: Fate)
    requires Inv(s) && Enabled(s, Poll(h, p)) && KernelPromise(s, Poll(h, p)) && FateOk(s, ph, fate)
    ensures FateOk(Next(s, Poll(h, p)), ph, FateAfter(s, Poll(h, p), ph, fate))
  {
    hide IsHeld, About;
    var i := IndexOf(s.phs, h);
    AboutMore(s.events, RegisterEvents(s.phs, h), ph);
    if IsHeld(s.phs, ph) {
      GivenWhenHeld(s, ph);
    }
    AboutDestroy(if i < |s.phs| && s.phs[i].ph.Some? then s.phs[i].ph.value else 0, ph);
    if i == |s.phs| {
      HeldAppended(s.phs, PollInfo(h, Some(p), 0), ph);
    } else {
      HeldAfter(s.phs, i, s.phs[i].(ph := Some(p)), ph);
      OneHolder(s.phs, i, ph);
      if s.phs[i].ph == Some(ph) {
        HolderIsHeld(s.phs, i, ph);
      }
    }
  }

  lemma GivenWhenHeld(s: State, ph: nat)
    requires HeldUnused(s) && IsHeld(s.phs, ph)
    ensures ph in s.given
  {
  }

  lemma AboutDestroy(p: nat, ph: nat)
    ensures About([], ph) == [] && About([Destroy(p)], ph) == if p == ph then [Destroy(ph)] else []
  {
    assert About([], ph) == [];
    AboutSnoc([], Destroy(p), ph);
    assert [] + [Destroy(p)] == [Destroy(p)];
  }

  lemma AboutWaking(p: nat, ph: nat)
    ensures About([Notify(p), Destroy(p)], ph) == if p == ph then [Notify(ph), Destroy(ph)] else []
  {
    AboutDestroy(p, ph);
    AboutSnoc([], Notify(p), ph);
    AboutSnoc([Notify(p)], Destroy(p), ph);
    assert [] + [Notify(p)] == [Notify(p)] && [Notify(p)] + [Destroy(p)] == [Notify(p), Destroy(p)];
  }

  lemma FateOfLeave(s: State, h: int, ph: nat, fate: Fate)
    requires Inv(s) && Enabled(s, LeavePoller(h)) && FateOk(s, ph, fate)
    ensures FateOk(Next(s, LeavePoller(h)), ph, FateAfter(s, LeavePoller(h), ph, fate))
  {
    var r := Unregistered(s.phs, h);
    UnregisteredFacts(s.phs, h);
    UnregisteredInOrder(s.phs, h);
  }

  lemma FateOfSweep(s: State, h: int, m: nat, ph: nat, fate: Fate)
    requires Inv(s) && Enabled(s, SweepNext(h, m)) && FateOk(s, ph, fate)
    ensures FateOk(Next(s, SweepNext(h, m)), ph, FateAfter(s, SweepNext(h, m), ph, fate))
  {
    hide IsHeld, About;
    var i := s.sweep.value;
    AboutMore(s.events, SweepEvents(s.phs[i], m), ph);
    AboutDestroy(0, ph);
    AboutWaking(if s.phs[i].ph.Some? then s.phs[i].ph.value else 0, ph);
    HeldAfter(s.phs, i, Swept(s.phs[i], m), ph);
    OneHolder(s.phs, i, ph);
    if s.phs[i].ph == Some(ph) {
      HolderIsHeld(s.phs, i, ph);
    }
  }

  lemma HolderIsHeld(phs: seq<PollInfo>, i: nat, ph: nat)
    requires i < |phs| && phs[i].ph == Some(ph)
    ensures IsHeld(phs, ph)
  {
  }

  lemma FateStep(s: State, t: Step, ph: nat, fate: Fate)
    requires Inv(s) && Enabled(s, t) && KernelPromise(s, t) && FateOk(s, ph, fate)
    ensures FateOk(Next(s, t), ph, FateAfter(s, t, ph, fate))
  {
    hide Inv, IsHeld, HeldBy, About, Due;
    match t
    case Poll(h, p) => FateOfPoll(s, h, p, ph, fate);
    case LeavePoller(h) => FateOfLeave(s, h, ph, fate);
    case SweepNext(h, m) => FateOfSweep(s, h, m, ph, fate);
    case _ =>
  }

  lemma {:induction false} FateOfRun(s: State, run: seq<Step>, ph: nat, fate: Fate)
    requires Inv(s) && Admissible(s, run) && FateOk(s, ph, fate)
    ensures FateOk(Exec(s, run), ph, FateOf(s, run, ph, fate))
    decreases run
  {
    hide Inv, FateOk, FateAfter;
    if run != [] {
      StepKeeps(s, run[0]);
      FateStep(s, run[0], ph, fate);
      FateOfRun(Next(s, run[0]), run[1..], ph, FateAfter(s, run[0], ph, fate));
    }
  }

  /**
   Every poll handle the kernel ever gave is held by an entry, with no event about it, or was woken by a sweep that
   found its file ready, notified and then destroyed, or was destroyed when another poll superseded it, or was dropped
   without an event when its file left the poller; and nothing else happens to it.
   */
  lemma EveryPollHandleHasItsFate(run: seq<Step>, ph: nat)
    requires Admissible(INIT, run)
    ensures var s := Exec(INIT, run);
            match FateOf(INIT, run, ph, NotGiven)
            case NotGiven => ph !in s.given && About(s.events, ph) == []
            case Held => IsHeld(s.phs, ph) && About(s.events, ph) == []
            case Woken => ph in s.given && !IsHeld(s.phs, ph) && About(s.events, ph) == [Notify(ph), Destroy(ph)]
            case Superseded => ph in s.given && !IsHeld(s.phs, ph) && About(s.events, ph) == [Destroy(ph)]
            case Dropped => ph in s.given && !IsHeld(s.phs, ph) && About(s.events, ph) == []
  {
    FateOfRun(INIT, run, ph, NotGiven);
  }

  // ----- What a status read means -----

  /** The mask the handle had at its last sweep since it entered the poller, or 0. */
  ghost function LastMask(s: State, run: seq<Step>, h: int, mask: nat): nat
    requires Admissible(s, run)
    decreases run
  {
    if run == [] then mask
    else
      var t := run[0];
      LastMask(Next(s, t), run[1..], h,
               if t == LeavePoller(h) then 0 else if t.SweepNext? && t.h == h then t.mask else mask)
  }

  lemma {:induction false} StatusOfUnregistered(phs: seq<PollInfo>, h: int, k: int)
    ensures Status(Unregistered(phs, h), k) == if k == h then 0 else Status(phs, k)
  {
    if phs != [] {
      StatusOfUnregistered(phs[1..], h, k);
      StatusCons(phs[0], phs[1..], k);
      assert phs == [phs[0]] + phs[1..];
      StatusCons(phs[0], Unregistered(phs[1..], h), k);
      assert phs[0].handle == h ==> Unregistered(phs, h) == Unregistered(phs[1..], h);
    }
  }

  lemma StatusCons(x: PollInfo, phs: seq<PollInfo>, k: int)
    ensures Status([x] + phs, k) == if x.handle == k then x.mask else Status(phs, k)
  {
    assert ([x] + phs)[1..] == phs;
  }

  lemma StatusStep(s: State, t: Step, k: int)
    requires Inv(s) && Enabled(s, t) && KernelPromise(s, t)
    ensures Status(Next(s, t).phs, k)
         == if t == LeavePoller(k) then 0 else if t.SweepNext? && t.h == k then t.mask else Status(s.phs, k)
  {
    hide UsedOnce, HeldUnused, OnlyPollable, Unregistered;
    StepKeeps(s, t);
    var u := Next(s, t);
    match t
    case LeavePoller(h) => StatusOfUnregistered(s.phs, h, k);
    case _ => assert forall i :: 0 <= i < |s.phs| ==> u.phs[i].handle == s.phs[i].handle;
  }

  /** A status read after any admissible run. */
  lemma {:induction false} StatusIsLastMask(s: State, run: seq<Step>, h: int)
    requires Inv(s) && Admissible(s, run)
    ensures Status(Exec(s, run).phs, h) == LastMask(s, run, h, Status(s.phs, h))
    decreases run
  {
    if run != [] {
      StepKeeps(s, run[0]);
      StatusStep(s, run[0], h);
      StatusIsLastMask(Next(s, run[0]), run[1..], h);
    }
  }

  /** From the program's start: what every admissible run keeps, and what it reports. */
  lemma SafeFromTheStart(run: seq<Step>)
    requires Admissible(INIT, run)
    ensures var s := Exec(INIT, run);
            && !s.hit && UsedOnce(s.events) && DistinctHandles(s.phs)
            && (forall i :: 0 <= i < |s.phs| ==> s.phs[i].handle in s.live)
            && (forall h :: Status(s.phs, h) == LastMask(INIT, run, h, 0))
  {
    EveryInterleavingIsSafe(INIT, run);
    var s := Exec(INIT, run);
    assert forall i :: 0 <= i < |s.phs| ==> Pollable(s, s.phs[i].handle);
    forall h ensures Status(s.phs, h) == LastMask(INIT, run, h, 0) {
      StatusIsLastMask(INIT, run, h);
    }
  }
}

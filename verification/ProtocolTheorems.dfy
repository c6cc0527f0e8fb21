/**
 What the protocol promises over every run from the program's start.
 */
module ProtocolTheorems {
  import opened Options
  import opened Decimal
  import opened Paths
  import opened Routes
  import opened Sessions
  import opened FdTable
  import opened Requests
  import opened Protocol
  import opened ProtocolInvariant
  import opened ProtocolSteps

  // ----- The table, the tree and the counter -----

  /** d names an existing session that the counter has reached and that has its control file. */
  ghost predicate LiveSession(w: World, d: string) {
    && Canonical(d) && Val(d) <= w.current
    && DirOf(d) in w.tree && w.tree[DirOf(d)].isDir
    && FileOf(d, Ctl) in w.tree && !w.tree[FileOf(d, Ctl)].isDir
  }

  lemma KeyIsLive(w: World, k: string)
    requires Inv(w) && k in w.net.table && !PathKey(k)
    ensures LiveSession(w, k)
  {
    hide Dec, Val, Canonical, IsNumeral;
    var n :| k == Dec(n) && HasSession(w.tree, n);
    DecIsNumeral(n);
    assert GoodSession(w.tree, k, w.current);
  }

  /**
   Over every run: the table's values are open and distinct, each of its keys is a path or the number of an
   existing session, every session directory has a canonical number the counter has reached and its control
   file, every control handle is on such a session, and every clone handle owns a control handle of its own.
   */
  lemma TableTreeAndCounter(run: seq<Call>)
    requires AllowedRun(START(), run)
    ensures var w := Exec(START(), run);
            && Owned(w.net)
            && (forall k :: k in w.net.table && !PathKey(k) ==> LiveSession(w, k))
            && (forall d :: DirOf(d) in w.tree && w.tree[DirOf(d)].isDir && IsNumeral(d) ==> LiveSession(w, d))
            && (forall h :: h in w.handles && w.handles[h].CtlOp? ==> LiveSession(w, Dec(w.handles[h].n)))
            && (forall h :: h in w.handles && w.handles[h].CloneOp? ==>
                  w.handles[h].ctl in w.handles && w.handles[w.handles[h].ctl].CtlOp?)
            && (forall h, g :: h in w.handles && g in w.handles ==>
                  w.handles[h].CloneOp? && w.handles[h] == w.handles[g] ==> h == g)
  {
    hide Dec, Val, Canonical, IsNumeral;
    StartIsGood();
    RunKeeps(START(), run);
    var w := Exec(START(), run);
    forall k | k in w.net.table && !PathKey(k) ensures LiveSession(w, k) {
      KeyIsLive(w, k);
    }
    forall d | DirOf(d) in w.tree && w.tree[DirOf(d)].isDir && IsNumeral(d) ensures LiveSession(w, d) {
      assert GoodSession(w.tree, d, w.current);
    }
    forall h | h in w.handles && w.handles[h].CtlOp? ensures LiveSession(w, Dec(w.handles[h].n)) {
      DecIsNumeral(w.handles[h].n);
      assert HasSession(w.tree, w.handles[h].n);
    }
  }

  // ----- Accepting -----

  /** Every socket that was connected or listening is still open, in the same state. */
  ghost predicate SparesLiveSockets(n: Net, m: Net) {
    forall fd :: fd in n.sockets && n.sockets[fd] != Other ==> fd in m.sockets && m.sockets[fd] == n.sockets[fd]
  }

  /** The accepted socket replaced at most an idle one, under the key of the number that was handed out. */
  ghost predicate AcceptedAs(w: World, u: World, n: nat, fd: int) {
    && u.current == n && HasSession(u.tree, n)
    && u.net.table == w.net.table[Dec(n) := fd]
    && fd in u.net.sockets && u.net.sockets[fd] == Established
  }

  lemma InsertSpares(n: Net, num: nat, fd: int)
    requires Owned(n) && !InUse(n, num)
    ensures var m := FdTable.Insert(n, Dec(num), fd);
            && (forall x :: x in n.sockets && n.sockets[x] != Other ==> x in m.sockets && m.sockets[x] == n.sockets[x])
            && m.table == n.table[Dec(num) := fd]
  {
    var e := Erase(n, Dec(num));
    assert (n.table - {Dec(num)})[Dec(num) := fd] == n.table[Dec(num) := fd];
  }

  lemma AcceptedIsSafe(w: World, h: int, path: string, fd: int, size: nat, ans: Answers)
    requires Inv(w) && Unheld(w.net, fd) && w.net.sockets[fd] == Established
    requires h in w.handles && w.handles[h].ListenOp?
    requires forall g :: g in w.handles && w.handles[g].ConnOp? ==> w.handles[g].fd != fd
    ensures var r := AcceptedSpec(w, h, path, fd, size, ans);
            && (forall x :: x in w.net.sockets && w.net.sockets[x] != Other && x != fd ==>
                  x in r.w.net.sockets && r.w.net.sockets[x] == w.net.sockets[x])
            && (if r.r.Text? then AcceptedAs(w, r.w, r.w.current, fd) && r.r.s == Dec(r.w.current) + "\n"
                else r.w.net.table == w.net.table)
  {
    hide Inv, Dec, OpenClone, CloseSpec, HasSession, InUse, FdTable.Insert;
    if CLONE in w.tree && !w.tree[CLONE].isDir {
      OpenCloneKeeps(w, ans);
      var o := OpenClone(w, ans);
      if o.h.Some? {
        CloseAfterClone(w, o);
        InvOwned(w);
        InsertSpares(w.net, o.w.current, fd);
      }
    }
  }

  lemma InvOwned(w: World)
    requires Inv(w)
    ensures Owned(w.net)
  {
  }

  /**
   The insert after an accept never closes a connected or listening socket: whatever the read of a listen file
   comes to, every such socket is still open in the same state, and on success the new connection is the one the
   table holds under the number that was read.
   */
  lemma AcceptIsSafe(run: seq<Call>, h: int, size: nat, ans: Answers)
    requires AllowedRun(START(), run)
    requires var w := Exec(START(), run);
             FreshAnswer(w.net, ans) && h in w.handles && w.handles[h].ListenOp? && !w.handles[h].once
    ensures var w := Exec(START(), run);
            var r := ReadSpec(w, h, size, ans);
            && SparesLiveSockets(w.net, r.w.net)
            && (if r.r.Text?
                then ans.fd.Some? && AcceptedAs(w, r.w, r.w.current, ans.fd.value) && r.r.s == Dec(r.w.current) + "\n"
                else r.w.net.table == w.net.table)
  {
    var w := Exec(START(), run);
    StartIsGood();
    RunKeeps(START(), run);
    AcceptFrom(w, h, size, ans);
  }

  lemma AcceptFrom(w: World, h: int, size: nat, ans: Answers)
    requires Inv(w) && FreshAnswer(w.net, ans) && h in w.handles && w.handles[h].ListenOp? && !w.handles[h].once
    ensures var r := ReadSpec(w, h, size, ans);
            && SparesLiveSockets(w.net, r.w.net)
            && (if r.r.Text?
                then ans.fd.Some? && AcceptedAs(w, r.w, r.w.current, ans.fd.value) && r.r.s == Dec(r.w.current) + "\n"
                else r.w.net.table == w.net.table)
  {
    hide Inv, Dec, AcceptedSpec, DirNumber, HasSession;
    if ans.fd.Some? {
      OpenKeeps(w, ans.fd.value, Established);
      var w1 := w.(net := OpenSocket(w.net, ans.fd.value, Established));
      AcceptedIsSafe(w1, h, w.handles[h].path, ans.fd.value, size, ans);
    }
  }

  /** The session an accept would get, as far as its probes answer. */
  ghost function NextNo(w: World): nat {
    if FileOf(Dec(w.current), Ctl) in w.tree && InUse(w.net, w.current) then w.current + 1 else w.current
  }

  lemma CloneTakesNextNo(w: World, ans: Answers)
    ensures OpenClone(w, ans).w.net == w.net
    ensures OpenClone(w, ans).h.Some? ==>
              && OpenClone(w, ans).w.current == NextNo(w)
              && CloseSpec(OpenClone(w, ans).w, OpenClone(w, ans).h.value).net == w.net
  {
    hide Dec, WithSession;
  }

  lemma InsertSparesIff(n: Net, num: nat, fd: int)
    requires Owned(n) && fd !in n.sockets
    ensures SparesLiveSockets(n, FdTable.Insert(OpenSocket(n, fd, Established), Dec(num), fd)) <==> !InUse(n, num)
  {
    hide Dec;
    var o := OpenSocket(n, fd, Established);
    if !InUse(n, num) {
      InsertSpares(o, num, fd);
    } else {
      assert n.table[Dec(num)] !in FdTable.Insert(o, Dec(num), fd).sockets;
    }
  }

  lemma DropSpares(n: Net, fd: int)
    requires fd !in n.sockets
    ensures SparesLiveSockets(n, CloseSocket(OpenSocket(n, fd, Established), fd))
    ensures SparesLiveSockets(n, OpenSocket(n, fd, Established))
  {
  }

  /**
   What this rests on, in any world: a successful accept spares the connected and listening sockets exactly when the
   session it is about to get is not in use. The probes see that only through the session's control file.
   */
  lemma AcceptSparesIff(w: World, h: int, size: nat, ans: Answers)
    requires Owned(w.net) && FreshAnswer(w.net, ans) && h in w.handles && w.handles[h].ListenOp? && !w.handles[h].once
    ensures var r := ReadSpec(w, h, size, ans);
            SparesLiveSockets(w.net, r.w.net) <==> (r.r.Text? ==> !InUse(w.net, NextNo(w)))
  {
    hide Owned, FreshAnswer, DirNumber, OpenClone, CloseSpec, NextNo, InUse, SparesLiveSockets, FdTable.Insert, Dec,
         OpenSocket, CloseSocket;
    SparesItself(w.net);
    if ans.fd.Some? {
      FreshIsClosed(w.net, ans);
      var u := w.(net := OpenSocket(w.net, ans.fd.value, Established));
      SameNextNo(w, ans.fd.value);
      CloneTakesNextNo(u, ans);
      DropSpares(w.net, ans.fd.value);
      InsertSparesIff(w.net, NextNo(w), ans.fd.value);
    }
  }

  lemma SparesItself(n: Net)
    ensures SparesLiveSockets(n, n)
  {
  }

  lemma FreshIsClosed(n: Net, ans: Answers)
    requires FreshAnswer(n, ans)
    ensures ans.fd.Some? ==> ans.fd.value !in n.sockets
  {
  }

  lemma SameNextNo(w: World, fd: int)
    requires Owned(w.net) && fd !in w.net.sockets
    ensures NextNo(w.(net := OpenSocket(w.net, fd, Established))) == NextNo(w)
  {
    hide Dec;
  }

  // ----- Session numbers -----

  /** What one call does to the counter and to the numbers handed out. */
  ghost predicate NumberEffect(w: World, u: World) {
    && (u.current == w.current || (u.current == w.current + 1 && InUse(w.net, w.current)))
    && (u.handed == w.handed || (u.handed == w.handed + [u.current] && !InUse(w.net, u.current)))
  }

  lemma CloneNumbers(w: World, o: Opened)
    requires CloneEffect(w, o)
    ensures NumberEffect(w, o.w)
  {
  }

  lemma AcceptNumbers(w: World, h: int, size: nat, ans: Answers)
    requires Inv(w) && FreshAnswer(w.net, ans) && h in w.handles && w.handles[h].ListenOp?
    ensures NumberEffect(w, ReadSpec(w, h, size, ans).w)
  {
    hide Inv, Dec, DirNumber, OpenClone, CloseSpec, HasSession;
    if ans.fd.Some? {
      var fd := ans.fd.value;
      OpenKeeps(w, fd, Established);
      var w1 := w.(net := OpenSocket(w.net, fd, Established));
      if CLONE in w.tree && !w.tree[CLONE].isDir {
        OpenCloneKeeps(w1, ans);
        var o := OpenClone(w1, ans);
        InvOwned(w);
        forall n ensures InUse(w1.net, n) <==> InUse(w.net, n) {
        }
        if o.h.Some? {
          CloseAfterClone(w1, o);
        }
      }
    }
  }

  /** The counter goes up by one only past a session in use, and a number given out names a session not in use. */
  lemma CallNumbers(w: World, a: Action, ans: Answers)
    requires Inv(w) && Allowed(w, a, ans)
    ensures NumberEffect(w, Do(w, a, ans))
  {
    hide Inv, InUse, Dec, OpenClone, HasSession;
    match a
    case OpenFile(c) =>
      if c in w.tree && !w.tree[c].isDir && KindAt(c, false) == Clone {
        CloneIsThere(w, c);
        OpenCloneKeeps(w, ans);
        CloneNumbers(w, OpenClone(w, ans));
      }
    case Read(h, size, _) =>
      if h in w.handles && w.handles[h].ListenOp? {
        AcceptNumbers(w, h, size, ans);
      }
    case _ =>
  }

  /**
   Over any run the numbers clone hands out start at 0 and go up by 0 or 1, so no failed allocation loses
   one; the counter never decreases; and whenever a number is given out a second time, its session was neither
   connected nor announced at that moment.
   */
  lemma NumbersOverRuns(run: seq<Call>, a: Action, ans: Answers)
    requires AllowedRun(START(), run) && Allowed(Exec(START(), run), a, ans)
    ensures var w := Exec(START(), run);
            var u := Do(w, a, ans);
            && Steps(u.handed) && w.handed <= u.handed && w.current <= u.current <= w.current + 1
            && (u.handed != w.handed ==>
                  u.handed == w.handed + [u.current] && !InUse(w.net, u.current)
                  && (u.current in w.handed <==> w.handed != [] && u.current == w.handed[|w.handed| - 1]))
  {
    hide InUse, Dec, HasSession, TreeOk, SessionsOk, TableOk, HandlesOk, ConnsOk, Exec, AllowedRun, Do;
    var w := Exec(START(), run);
    StartIsGood();
    RunKeeps(START(), run);
    CallNumbers(w, a, ans);
    CallKeeps(w, a, ans);
    var u := Do(w, a, ans);
    if u.handed != w.handed && u.current in w.handed {
      var i :| 0 <= i < |w.handed| && w.handed[i] == u.current;
      HandedBelowLast(w.handed, i);
      assert u.handed[|w.handed|] == u.current;
    }
  }

  lemma CloneRoute(w: World, ans: Answers)
    requires FreshAnswer(w.net, ans) && CLONE in w.tree && !w.tree[CLONE].isDir
    ensures OpenSpec(w, CLONE, ans) == OpenClone(w, ans)
  {
    hide OpenClone, KindAt, Str, CtlNumber, DirNumber;
    assert IsName("tcp") && IsName("clone");
    RouteOfNames(CLONE);
  }

  /** The first session as the first open of clone leaves it. */
  lemma FirstOpen(a: Answers)
    requires a.hookFault.None?
    ensures var w := OpenClone(START(), a).w;
            && w.handed == [0] && w.current == 0 && w.net == EMPTY
            && DirOf(Dec(0)) in w.tree && FileOf(Dec(0), Ctl) in w.tree && !w.tree[FileOf(Dec(0), Ctl)].isDir
            && CLONE in w.tree && !w.tree[CLONE].isDir
  {
    hide Dec, WithSession, NameOf;
    var d, t := Dec(0), START().tree;
    DecIsNumeral(0);
    assert d != "clone";
    assert DirOf(d)[1] == d && CLONE[1] == "clone" && |FileOf(d, Ctl)| == 3;
    AddedEntry(t, d, DirOf(d));
    AddedEntry(t, d, FileOf(d, Ctl));
    AddedEntry(t, d, CLONE);
    assert FileNo(1) == Ctl;
  }

  lemma RunOfTwo(w: World, c: Call, d: Call)
    requires Allowed(w, c.a, c.ans) && Allowed(Do(w, c.a, c.ans), d.a, d.ans)
    ensures AllowedRun(w, [c, d]) && Exec(w, [c, d]) == Do(Do(w, c.a, c.ans), d.a, d.ans)
  {
    hide Do;
    var u := Do(w, c.a, c.ans);
    var v := Do(u, d.a, d.ans);
    assert [c, d][1..] == [d] && [d][1..] == [];
    assert AllowedRun(v, []) && Exec(v, []) == v;
    assert AllowedRun(u, [d]) && Exec(u, [d]) == v;
  }

  /** Numbers do repeat: two opens with no connect in between get the same session. */
  lemma TwoOpensShareASession(a: Answers, b: Answers)
    requires a.hookFault.None? && FreshAnswer(EMPTY, a) && FreshAnswer(EMPTY, b)
    ensures var run := [Call(OpenFile(CLONE), a), Call(OpenFile(CLONE), b)];
            AllowedRun(START(), run) && Exec(START(), run).handed == [0, 0]
  {
    hide OpenClone, OpenSpec, Dec, AllowedRun, Exec;
    CloneRoute(START(), a);
    FirstOpen(a);
    var w := OpenClone(START(), a).w;
    CloneRoute(w, b);
    SecondOpen(w, b);
    RunOfTwo(START(), Call(OpenFile(CLONE), a), Call(OpenFile(CLONE), b));
  }

  lemma SecondOpen(w: World, b: Answers)
    requires w.current == 0 && w.net == EMPTY
    requires DirOf(Dec(0)) in w.tree && FileOf(Dec(0), Ctl) in w.tree && !w.tree[FileOf(Dec(0), Ctl)].isDir
    ensures OpenClone(w, b).w.handed == w.handed + [0]
  {
    hide Dec, WithSession;
  }

  /**
   The two probes fail on their own: when the first one answers and the second throws, the open fails, two handle
   numbers are used up, and nothing else has changed, the counter included.
   */
  lemma SecondProbeThrows(w: World, ans: Answers)
    requires FileOf(Dec(w.current), Ctl) in w.tree && w.current <= INT_MAX
    requires Dec(w.current) in w.net.table && w.net.table[Dec(w.current)] in w.net.sockets
    requires w.net.table[Dec(w.current)] !in ans.connectedFails && w.net.table[Dec(w.current)] in ans.announcedFails
    ensures ProbeSession(w, w.current, Established, ans).Some? && ProbeSession(w, w.current, Listening, ans).None?
    ensures OpenClone(w, ans) == Opened(w.(last := w.last + 2), None)
  {
    hide Dec;
  }

  /** When the first probe throws there is no second: one handle number is used up, and nothing else has changed. */
  lemma FirstProbeThrows(w: World, ans: Answers)
    requires FileOf(Dec(w.current), Ctl) in w.tree
    requires Dec(w.current) in w.net.table && w.net.table[Dec(w.current)] in ans.connectedFails
    ensures OpenClone(w, ans) == Opened(w.(last := w.last + 1), None)
  {
    hide Dec;
  }

  // ----- Handles -----

  /** A successful open gives a number never used before; closing it restores the handles; a failed open leaves them. */
  lemma OpenCloseBalance(w: World, c: Path, ans: Answers)
    requires Inv(w) && FreshAnswer(w.net, ans)
    ensures var o := OpenSpec(w, c, ans);
            && w.last <= o.w.last
            && (o.h.None? ==> o.w.handles == w.handles)
            && (o.h.Some? ==>
                  && w.last < o.h.value <= o.w.last && o.h.value in o.w.handles
                  && CloseSpec(o.w, o.h.value).handles == w.handles)
  {
    hide Inv, KindAt, CtlNumber, DirNumber, OpenClone, Str, HasSession, InUse;
    if c in w.tree && !w.tree[c].isDir {
      NoLaterHandles(w);
      if KindAt(c, false) == Clone {
        CloneIsThere(w, c);
        OpenCloneKeeps(w, ans);
        var o := OpenClone(w, ans);
        if o.h.Some? {
          CloseAfterClone(w, o);
        }
      } else {
        var o := OpenSpec(w, c, ans);
        if o.h.Some? {
          assert o.w.handles - {o.h.value} == w.handles;
        }
      }
    }
  }

  lemma NoLaterHandles(w: World)
    requires Inv(w)
    ensures forall h :: h in w.handles ==> h <= w.last
  {
  }

  lemma CallHandles(w: World, a: Action, ans: Answers, h: int)
    requires Inv(w) && Allowed(w, a, ans)
    ensures w.last <= Do(w, a, ans).last
    ensures h <= w.last && h !in w.handles ==> h !in Do(w, a, ans).handles
  {
    hide Inv, Dec, OpenClone, HasSession, InUse, Str, KindAt, DirNumber, CtlNumber;
    match a
    case OpenFile(c) => OpenHandles(w, c, ans, h);
    case Read(g, size, _) => ReadHandles(w, g, size, ans, h);
    case _ =>
  }

  lemma OpenHandles(w: World, c: Path, ans: Answers, h: int)
    requires Inv(w) && FreshAnswer(w.net, ans)
    ensures w.last <= OpenSpec(w, c, ans).w.last
    ensures h <= w.last && h !in w.handles ==> h !in OpenSpec(w, c, ans).w.handles
  {
    hide Inv, Dec, OpenClone, HasSession, InUse, Str, KindAt, DirNumber, CtlNumber;
    if c in w.tree && !w.tree[c].isDir && KindAt(c, false) == Clone {
      CloneIsThere(w, c);
      OpenCloneKeeps(w, ans);
    }
  }

  lemma ReadHandles(w: World, g: int, size: nat, ans: Answers, h: int)
    requires Inv(w) && FreshAnswer(w.net, ans)
    ensures w.last <= ReadSpec(w, g, size, ans).w.last
    ensures h <= w.last && h !in w.handles ==> h !in ReadSpec(w, g, size, ans).w.handles
  {
    hide Inv, Dec, OpenClone, CloseSpec, HasSession, InUse, DirNumber;
    if g in w.handles && w.handles[g].ListenOp? && ans.fd.Some? && CLONE in w.tree && !w.tree[CLONE].isDir {
      OpenKeeps(w, ans.fd.value, Established);
      var w1 := w.(net := OpenSocket(w.net, ans.fd.value, Established));
      OpenCloneKeeps(w1, ans);
      var o := OpenClone(w1, ans);
      if o.h.Some? {
        CloseAfterClone(w1, o);
      }
    }
  }

  /** A handle that was closed, or whose open failed, is never live again. */
  lemma {:induction false} HandlesAreNotReused(w: World, run: seq<Call>, h: int)
    requires Inv(w) && AllowedRun(w, run) && h <= w.last && h !in w.handles
    ensures h !in Exec(w, run).handles
    decreases run
  {
    if run != [] {
      CallHandles(w, run[0].a, run[0].ans, h);
      CallKeeps(w, run[0].a, run[0].ans);
      HandlesAreNotReused(Do(w, run[0].a, run[0].ans), run[1..], h);
    }
  }
}

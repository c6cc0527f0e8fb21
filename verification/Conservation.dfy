/**
 What becomes of sockets over protocol runs: every opening is matched by one closing or by a socket that is still
 open, and the open sockets without an owner are exactly those that some call stranded.
 */
module Conservation {
  import opened Options
  import opened Decimal
  import opened Paths
  import opened Routes
  import opened Sessions
  import opened FdTable
  import opened Requests
  import opened Protocol
  import opened ProtocolInvariant
  import opened ProtocolSteps

  ghost predicate NoServer(handles: map<int, Op>, fd: int) {
    forall h :: h in handles ==> handles[h] != ConnOp(fd)
  }

  /** An open socket that neither the table nor a handle on a server file holds. */
  ghost predicate Ownerless(n: Net, handles: map<int, Op>, fd: int) {
    Unheld(n, fd) && NoServer(handles, fd)
  }

  ghost predicate SameServers(a: map<int, Op>, b: map<int, Op>) {
    forall fd :: NoServer(a, fd) <==> NoServer(b, fd)
  }

  /** The ownerless sockets after something are those before it, and those of `more`. */
  ghost predicate Strands(n: Net, a: map<int, Op>, m: Net, b: map<int, Op>, more: set<int>) {
    && Balanced(m)
    && forall fd :: Ownerless(m, b, fd) <==> Ownerless(n, a, fd) || fd in more
  }

  // ----- The table's operations -----

  lemma EraseStrands(n: Net, hs: map<int, Op>, k: string)
    requires Owned(n) && Balanced(n)
    ensures Strands(n, hs, Erase(n, k), hs, {})
  {
    hide Balanced, NoServer, Unheld;
    EraseKeeps(n, k);
    forall x ensures Unheld(Erase(n, k), x) <==> Unheld(n, x) {
      ErasedHolds(n, k, x);
    }
  }

  lemma ErasedHolds(n: Net, k: string, x: int)
    requires Owned(n)
    ensures Unheld(Erase(n, k), x) <==> Unheld(n, x)
  {
    var m := Erase(n, k);
    if Unheld(m, x) {
      forall l | l in n.table ensures n.table[l] != x {
        assert l != k ==> l in m.table;
      }
    }
  }

  lemma OpenStrands(n: Net, hs: map<int, Op>, fd: int, st: SockState)
    requires Owned(n) && Balanced(n) && fd !in n.sockets && NoServer(hs, fd)
    ensures Strands(n, hs, OpenSocket(n, fd, st), hs, {fd}) && Owned(OpenSocket(n, fd, st))
  {
    hide Balanced, NoServer;
    OpenKeepsBalance(n, fd, st);
  }

  lemma CloseUnstrands(n: Net, hs: map<int, Op>, fd: int)
    requires Balanced(n)
    ensures Balanced(CloseSocket(n, fd))
    ensures forall x :: Ownerless(CloseSocket(n, fd), hs, x) <==> Ownerless(n, hs, x) && x != fd
  {
    hide Balanced, NoServer;
    CloseKeepsBalance(n, fd);
  }

  /** A socket that is inserted has an owner, and the one whose place it takes is closed. */
  lemma InsertUnstrands(n: Net, hs: map<int, Op>, k: string, fd: int)
    requires Owned(n) && Balanced(n) && Unheld(n, fd)
    ensures Balanced(FdTable.Insert(n, k, fd))
    ensures forall x :: Ownerless(FdTable.Insert(n, k, fd), hs, x) <==> Ownerless(n, hs, x) && x != fd
  {
    hide Balanced, NoServer;
    EraseKeeps(n, k);
    var e, m := Erase(n, k), FdTable.Insert(n, k, fd);
    SameSockets(e, m);
    forall x ensures Ownerless(m, hs, x) <==> Ownerless(n, hs, x) && x != fd {
      InsertedHolds(n, k, fd, x);
    }
  }

  lemma InsertedHolds(n: Net, k: string, fd: int, x: int)
    requires Owned(n) && Unheld(n, fd)
    ensures Unheld(FdTable.Insert(n, k, fd), x) <==> Unheld(n, x) && x != fd
  {
    var m := FdTable.Insert(n, k, fd);
    assert k in m.table && m.table[k] == fd;
    if Unheld(m, x) {
      forall l | l in n.table ensures n.table[l] != x {
        assert l != k ==> l in m.table;
      }
    }
  }

  lemma {:induction false} StraysStrand(n: Net, hs: map<int, Op>, left: seq<Stray>)
    requires Owned(n) && Balanced(n) && FreshStrays(n, left) && forall x :: x in Fds(left) ==> NoServer(hs, x)
    ensures Strands(n, hs, LeaveOpen(n, left), hs, Fds(left)) && Owned(LeaveOpen(n, left))
    decreases left
  {
    hide Balanced, NoServer, Owned, Unheld;
    if left != [] {
      var front, s := left[..|left| - 1], left[|left| - 1];
      assert left == front + [s];
      assert Fds(left) == Fds(front) + {s.fd};
      StraysStrand(n, hs, front);
      OpenStrands(LeaveOpen(n, front), hs, s.fd, if s.connected then Established else Other);
    }
  }

  lemma ServersAreOpen(w: World)
    requires Inv(w)
    ensures Owned(w.net) && forall fd :: fd !in w.net.sockets ==> NoServer(w.handles, fd)
  {
    forall fd, h | fd !in w.net.sockets && h in w.handles ensures w.handles[h] != ConnOp(fd) {
      assert w.handles[h].ConnOp? ==> Unheld(w.net, w.handles[h].fd);
    }
  }

  /** A setup strands what it leaves open on its way. */
  lemma SetUpStrands(w: World, key: string, st: SockState, ans: Answers)
    requires Inv(w) && Balanced(w.net) && FreshAnswer(w.net, ans)
    ensures Strands(w.net, w.handles, SetUp(w.net, key, st, ans), w.handles, Fds(Strays(st, ans)))
  {
    hide Inv, Balanced, NoServer, Owned, Unheld, FdTable.Insert, OpenSocket, FreshStrays, Fds, Strays, LeaveOpen;
    ServersAreOpen(w);
    StraysAreFresh(w.net, st, ans);
    StraysAreClosed(w.net, Strays(st, ans));
    StraysStrand(w.net, w.handles, Strays(st, ans));
    var m := LeaveOpen(w.net, Strays(st, ans));
    if ans.fd.Some? {
      var fd := ans.fd.value;
      assert fd !in w.net.sockets && NoServer(w.handles, fd);
      OpenStrands(m, w.handles, fd, st);
      OpenedIsUnheld(m, fd, st);
      InsertUnstrands(OpenSocket(m, fd, st), w.handles, key, fd);
    }
  }

  lemma StraysAreClosed(n: Net, left: seq<Stray>)
    requires FreshStrays(n, left)
    ensures forall x :: x in Fds(left) ==> x !in n.sockets
  {
  }

  lemma OpenedIsUnheld(n: Net, fd: int, st: SockState)
    requires Owned(n) && fd !in n.sockets
    ensures Unheld(OpenSocket(n, fd, st), fd) && !Unheld(n, fd)
  {
  }

  // ----- Every call -----

  /** The session that writes through a control or clone handle speak to. */
  function Controlled(handles: map<int, Op>, h: int): set<nat> {
    if h !in handles then {}
    else if handles[h].CtlOp? then {handles[h].n}
    else if handles[h].CloneOp? && handles[h].ctl in handles && handles[handles[h].ctl].CtlOp?
      then {handles[handles[h].ctl].n}
    else {}
  }

  /** An accepted connection gets a session whose number does not fit the buffer. */
  predicate NumberTooLong(w: World, size: nat, ans: Answers) {
    && CLONE in w.tree && !w.tree[CLONE].isDir && OpenClone(w, ans).h.Some?
    && size < |Dec(OpenClone(w, ans).w.current) + "\n"| <= CLONE_BUFFER
  }

  predicate ReadStrands(w: World, h: int, size: nat, ans: Answers)
    requires FreshAnswer(w.net, ans)
  {
    && h in w.handles && w.handles[h].ListenOp? && !w.handles[h].once
    && DirNumber(w.handles[h].path).Some? && DirNumber(w.handles[h].path).value in w.net.table
    && ans.fd.Some? && NumberTooLong(w.(net := OpenSocket(w.net, ans.fd.value, Established)), size, ans)
  }

  function StraysOf(setup: Option<SockState>, ans: Answers): set<int> {
    if setup.None? then {} else Fds(Strays(setup.value, ans))
  }

  /** The sockets a call leaves open without an owner: an accepted one, or the strays of a setup. */
  function StrandedBy(w: World, a: Action, ans: Answers): set<int>
    requires FreshAnswer(w.net, ans)
  {
    match a
    case Read(h, size, _) => if ReadStrands(w, h, size, ans) then {ans.fd.value} else {}
    case Write(h, text, _) =>
      set n, fd | n in Controlled(w.handles, h) && fd in StraysOf(SetupOf(w.net, n, text, ans), ans) :: fd
    case Mknod(c) =>
      if !Creatable(w, c) then {}
      else if KindAt(c, false) == Client then Fds(Strays(Established, ans))
      else if KindAt(c, false) == Server then Fds(Strays(Listening, ans))
      else {}
    case _ => {}
  }

  ghost predicate CallStrandsJust(w: World, u: World, more: set<int>) {
    Strands(w.net, w.handles, u.net, u.handles, more)
  }

  lemma SameStrands(w: World, u: World)
    requires Balanced(w.net) && u.net == w.net && SameServers(w.handles, u.handles)
    ensures CallStrandsJust(w, u, {})
  {
    hide Balanced, NoServer;
  }

  lemma WriteStrandsStrays(w: World, h: int, n: nat, text: string, ans: Answers)
    requires FreshAnswer(w.net, ans) && Controlled(w.handles, h) == {n}
    ensures StrandedBy(w, Write(h, text, 0), ans) == StraysOf(SetupOf(w.net, n, text, ans), ans)
  {
    hide FreshAnswer, Controlled, StraysOf, SetupOf;
    var more := StraysOf(SetupOf(w.net, n, text, ans), ans);
    assert n in Controlled(w.handles, h);
    forall fd ensures fd in StrandedBy(w, Write(h, text, 0), ans) <==> fd in more {
      assert fd in more ==> n in Controlled(w.handles, h) && fd in StraysOf(SetupOf(w.net, n, text, ans), ans);
    }
  }

  lemma RequestStrands(w: World, h: int, n: nat, text: string, ans: Answers)
    requires Inv(w) && Balanced(w.net) && FreshAnswer(w.net, ans) && Controlled(w.handles, h) == {n}
    ensures var m := Interpret(w.net, n, text, ans).net;
            Strands(w.net, w.handles, m, w.handles, StrandedBy(w, Write(h, text, 0), ans))
  {
    hide Inv, Balanced, Ownerless, Owned, Interpret, SetupOf, SetUp, Fds, Strays, FreshAnswer;
    InterpretBySetup(w.net, n, text, ans);
    ServersAreOpen(w);
    EraseStrands(w.net, w.handles, Dec(n));
    WriteStrandsStrays(w, h, n, text, ans);
    if SetupOf(w.net, n, text, ans).Some? {
      var st := SetupOf(w.net, n, text, ans).value;
      SetUpStrands(w, Dec(n), st, ans);
    }
  }

  lemma WriteStrands(w: World, h: int, text: string, ans: Answers)
    requires Inv(w) && Balanced(w.net) && FreshAnswer(w.net, ans)
    ensures CallStrandsJust(w, WriteSpec(w, h, text, ans).w, StrandedBy(w, Write(h, text, 0), ans))
  {
    hide Inv, Balanced, Ownerless, Interpret, SetupOf, FreshAnswer, NoServer;
    if Controlled(w.handles, h) != {} {
      var n :| n in Controlled(w.handles, h);
      RequestStrands(w, h, n, text, ans);
    }
  }

  lemma OpenAddsServers(w: World, c: Path, ans: Answers)
    requires Inv(w) && Balanced(w.net) && FreshAnswer(w.net, ans)
    ensures CallStrandsJust(w, OpenSpec(w, c, ans).w, {})
  {
    hide Inv, Balanced, Ownerless, NoServer, KindAt, CtlNumber, DirNumber, OpenClone, Str, HasSession, InUse,
         FreshAnswer;
    NoneAfterLast(w);
    var o := OpenSpec(w, c, ans);
    if c in w.tree && !w.tree[c].isDir {
      match KindAt(c, false)
      case Clone =>
        CloneIsThere(w, c);
        OpenCloneKeeps(w, ans);
        CloneServers(w, o);
        SameStrands(w, o.w);
      case Server =>
        if Str(c) in w.net.table && ans.fd.Some? {
          AnswerIsFresh(w.net, ans);
          ServerOwns(w, ans.fd.value);
        } else {
          SameStrands(w, o.w);
        }
      case _ =>
        OthersAddNoServer(w, c, ans);
        SameStrands(w, o.w);
    }
  }

  lemma OthersAddNoServer(w: World, c: Path, ans: Answers)
    requires FreshAnswer(w.net, ans) && w.last + 1 !in w.handles
    requires c in w.tree && !w.tree[c].isDir && KindAt(c, false) != Clone && KindAt(c, false) != Server
    ensures SameServers(w.handles, OpenSpec(w, c, ans).w.handles) && OpenSpec(w, c, ans).w.net == w.net
  {
    hide KindAt, CtlNumber, DirNumber, Str, FreshAnswer, SameServers;
    var u := OpenSpec(w, c, ans).w;
    RegisteredServers(w, u, if w.last + 1 in u.handles then u.handles[w.last + 1] else Plain);
  }

  lemma AnswerIsFresh(n: Net, ans: Answers)
    requires FreshAnswer(n, ans)
    ensures ans.fd.Some? ==> ans.fd.value !in n.sockets
  {
  }

  lemma NoneAfterLast(w: World)
    requires Inv(w)
    ensures w.last + 1 !in w.handles && forall h :: h in w.handles ==> h <= w.last
  {
  }

  lemma CloneServers(w: World, o: Opened)
    requires CloneEffect(w, o) && forall h :: h in w.handles ==> h <= w.last
    ensures SameServers(w.handles, o.w.handles)
  {
    hide HasSession, InUse;
    assert forall h :: h in w.handles ==> h in o.w.handles && o.w.handles[h] == w.handles[h];
  }

  lemma RegisteredServers(w: World, u: World, op: Op)
    requires w.last + 1 !in w.handles && !op.ConnOp?
    requires u.handles == w.handles || u.handles == w.handles[w.last + 1 := op]
    ensures SameServers(w.handles, u.handles)
  {
    assert u.handles != w.handles ==> forall h :: h in w.handles ==> h in u.handles && u.handles[h] == w.handles[h];
  }

  /** The connection a server file accepts belongs to its handle. */
  lemma ServerOwns(w: World, fd: int)
    requires Inv(w) && Balanced(w.net) && fd !in w.net.sockets
    ensures CallStrandsJust(w, Protocol.Register(w.(net := OpenSocket(w.net, fd, Established)), ConnOp(fd)).w, {})
  {
    hide Inv, Balanced, Owned, Unheld;
    NoneAfterLast(w);
    ServersAreOpen(w);
    OpenStrands(w.net, w.handles, fd, Established);
    var u := Protocol.Register(w.(net := OpenSocket(w.net, fd, Established)), ConnOp(fd)).w;
    OpenedIsUnheld(w.net, fd, Established);
    assert u.handles[w.last + 1] == ConnOp(fd);
    forall x ensures NoServer(u.handles, x) <==> NoServer(w.handles, x) && x != fd {
      assert forall h :: h in w.handles ==> h in u.handles && u.handles[h] == w.handles[h];
    }
  }

  lemma ReadStrandsJust(w: World, h: int, size: nat, offset: nat, ans: Answers)
    requires Inv(w) && Balanced(w.net) && FreshAnswer(w.net, ans)
    ensures CallStrandsJust(w, ReadSpec(w, h, size, ans).w, StrandedBy(w, Read(h, size, offset), ans))
  {
    hide Inv, Balanced, Ownerless, NoServer, AcceptSpec, ReadStrands, FreshAnswer, Dec;
    if h in w.handles && w.handles[h].ListenOp? {
      AcceptStrands(w, h, size, ans);
    } else {
      ReadsNoServer(w, h, size, ans);
      SameStrands(w, ReadSpec(w, h, size, ans).w);
      NoListenNoStrand(w, h, size, ans);
    }
  }

  lemma NoListenNoStrand(w: World, h: int, size: nat, ans: Answers)
    requires FreshAnswer(w.net, ans) && !(h in w.handles && w.handles[h].ListenOp?)
    ensures !ReadStrands(w, h, size, ans)
  {
  }

  lemma ReadsNoServer(w: World, h: int, size: nat, ans: Answers)
    requires FreshAnswer(w.net, ans) && !(h in w.handles && w.handles[h].ListenOp?)
    ensures SameServers(w.handles, ReadSpec(w, h, size, ans).w.handles) && ReadSpec(w, h, size, ans).w.net == w.net
  {
    hide Dec;
    var u := ReadSpec(w, h, size, ans).w;
    assert forall g :: g in w.handles <==> g in u.handles;
    assert forall g :: g in w.handles && w.handles[g].ConnOp? ==> u.handles[g] == w.handles[g];
    assert forall g :: g in w.handles && u.handles[g].ConnOp? ==> u.handles[g] == w.handles[g];
  }

  lemma AcceptStrands(w: World, h: int, size: nat, ans: Answers)
    requires Inv(w) && Balanced(w.net) && FreshAnswer(w.net, ans) && h in w.handles && w.handles[h].ListenOp?
    ensures var u := AcceptSpec(w, h, w.handles[h].path, w.handles[h].once, size, ans).w;
            CallStrandsJust(w, u, if ReadStrands(w, h, size, ans) then {ans.fd.value} else {})
  {
    hide Inv, Balanced, Ownerless, NoServer, AcceptedSpec, DirNumber, FreshAnswer, OpenSocket, NumberTooLong;
    SameStrands(w, w);
    AnswerIsFresh(w.net, ans);
    if ans.fd.Some? {
      var fd := ans.fd.value;
      OpenKeeps(w, fd, Established);
      ServersAreOpen(w);
      OpenStrands(w.net, w.handles, fd, Established);
      var o := w.(net := OpenSocket(w.net, fd, Established));
      AcceptedStrands(o, h, w.handles[h].path, fd, size, ans);
      assert forall x :: Ownerless(o.net, o.handles, x) <==> Ownerless(w.net, w.handles, x) || x == fd;
      ClosedIsNotOwnerless(w, fd);
      var u := AcceptSpec(w, h, w.handles[h].path, w.handles[h].once, size, ans).w;
      if DirNumber(w.handles[h].path).Some? && DirNumber(w.handles[h].path).value in w.net.table && !w.handles[h].once {
        assert u == AcceptedSpec(o, h, w.handles[h].path, fd, size, ans).w;
        assert ReadStrands(w, h, size, ans) <==> NumberTooLong(o, size, ans);
      } else {
        assert u == w;
        assert !ReadStrands(w, h, size, ans);
      }
    }
  }

  lemma ClosedIsNotOwnerless(w: World, fd: int)
    requires fd !in w.net.sockets
    ensures !Ownerless(w.net, w.handles, fd)
  {
  }

  /** An accepted socket is dropped, or inserted, or stranded; nothing else changes hands. */
  lemma AcceptedStrands(w: World, h: int, path: string, fd: int, size: nat, ans: Answers)
    requires Inv(w) && Balanced(w.net) && Ownerless(w.net, w.handles, fd) && h in w.handles && w.handles[h].ListenOp?
    ensures var u := AcceptedSpec(w, h, path, fd, size, ans).w;
            && Balanced(u.net)
            && forall x :: Ownerless(u.net, u.handles, x)
                 <==> Ownerless(w.net, w.handles, x) && (x != fd || NumberTooLong(w, size, ans))
  {
    hide Inv, Balanced, NoServer, Unheld, Dec, OpenClone, CloseSpec, HasSession, InUse, FdTable.Insert, CloseSocket;
    CloseUnstrands(w.net, w.handles, fd);
    ServersAreOpen(w);
    if CLONE in w.tree && !w.tree[CLONE].isDir {
      OpenCloneKeeps(w, ans);
      var o := OpenClone(w, ans);
      if o.h.Some? {
        CloseAfterClone(w, o);
        InsertUnstrands(w.net, w.handles, Dec(o.w.current), fd);
        ListenServers(w.handles, h, path);
      }
    }
  }

  lemma ListenServers(handles: map<int, Op>, h: int, path: string)
    requires h in handles && handles[h].ListenOp?
    ensures SameServers(handles, handles[h := ListenOp(path, true)])
  {
    var hs := handles[h := ListenOp(path, true)];
    forall fd ensures NoServer(handles, fd) <==> NoServer(hs, fd) {
      assert forall g :: g in handles && g != h ==> hs[g] == handles[g];
    }
  }

  lemma CloseStrands(w: World, h: int)
    requires Inv(w) && Balanced(w.net)
    ensures CallStrandsJust(w, CloseSpec(w, h), {})
  {
    hide Balanced, TreeOk, SessionsOk, NumbersOk;
    var u := CloseSpec(w, h);
    if h in w.handles && w.handles[h].ConnOp? {
      var fd := w.handles[h].fd;
      ConnIsUnheld(w, h);
      CloseUnstrands(w.net, u.handles, fd);
      forall x | x != fd ensures NoServer(u.handles, x) <==> NoServer(w.handles, x) {
        assert forall g :: g in w.handles && g != h ==> g in u.handles && u.handles[g] == w.handles[g];
      }
      assert !NoServer(w.handles, fd);
    } else {
      assert forall g :: g in w.handles && w.handles[g].ConnOp? ==> g in u.handles && u.handles[g] == w.handles[g];
      SameStrands(w, u);
    }
  }

  lemma OutsideStrands(w: World, states: map<int, SockState>)
    requires Balanced(w.net) && states.Keys == w.net.sockets.Keys
    ensures CallStrandsJust(w, w.(net := w.net.(sockets := states)), {})
  {
    hide NoServer;
    var m := w.net.(sockets := states);
    assert forall fd :: fd in m.sockets <==> fd in w.net.sockets.Keys;
  }

  lemma MknodStrands(w: World, c: Path, ans: Answers)
    requires Inv(w) && Balanced(w.net) && FreshAnswer(w.net, ans)
    ensures CallStrandsJust(w, MknodSpec(w, c, ans), StrandedBy(w, Mknod(c), ans))
  {
    hide Inv, Balanced, Ownerless, NoServer, KindAt, NameOf, Str, SetUp, Fds, Strays, FreshAnswer;
    SameStrands(w, w);
    SetUpStrands(w, Str(c), Established, ans);
    SetUpStrands(w, Str(c), Listening, ans);
  }

  lemma OtherFilesStrand(w: World, a: Action, ans: Answers)
    requires Inv(w) && Balanced(w.net) && FreshAnswer(w.net, ans) && (a.Mkdir? || a.Unlink? || a.Rmdir?)
    ensures CallStrandsJust(w, Do(w, a, ans), {})
  {
    hide Inv, Balanced, Ownerless, NoServer, KindAt, NameOf, Str, DirNumber, Erase, Faulty, FreshAnswer;
    ServersAreOpen(w);
    SameStrands(w, w);
    match a
    case Mkdir(c) =>
    case Unlink(c) => EraseStrands(w.net, w.handles, Str(c));
    case Rmdir(c) =>
      if DirNumber(Str(c)).Some? {
        EraseStrands(w.net, w.handles, DirNumber(Str(c)).value);
      }
  }

  /** After a call the ownerless sockets are those before it and the ones it strands. */
  lemma CallStrands(w: World, a: Action, ans: Answers)
    requires Inv(w) && Balanced(w.net) && Allowed(w, a, ans)
    ensures CallStrandsJust(w, Do(w, a, ans), StrandedBy(w, a, ans))
  {
    hide Inv, Balanced, CallStrandsJust, OpenSpec, ReadSpec, WriteSpec, CloseSpec, MknodSpec, MkdirSpec, UnlinkSpec,
         RmdirSpec, ReadStrands, SetupOf, Strays, Fds, Controlled, KindAt, FreshAnswer;
    match a
    case OpenFile(c) => OpenAddsServers(w, c, ans);
    case Read(h, size, offset) => ReadStrandsJust(w, h, size, offset, ans);
    case Write(h, text, _) => WriteStrands(w, h, text, ans);
    case Truncate(_, _) => SameStrands(w, w);
    case Close(h) => CloseStrands(w, h);
    case Outside(states) => OutsideStrands(w, states);
    case Mknod(c) => MknodStrands(w, c, ans);
    case _ => OtherFilesStrand(w, a, ans);
  }

  // ----- Every run -----

  /** All that the calls of a run strand. */
  ghost function AllStranded(w: World, run: seq<Call>): set<int>
    requires AllowedRun(w, run)
    decreases run
  {
    if run == [] then {}
    else StrandedBy(w, run[0].a, run[0].ans) + AllStranded(Do(w, run[0].a, run[0].ans), run[1..])
  }

  /** No accept of the run is read into too small a buffer, and no setup leaves a socket behind. */
  ghost predicate NoneStrands(w: World, run: seq<Call>)
    requires AllowedRun(w, run)
    decreases run
  {
    run != [] ==>
      StrandedBy(w, run[0].a, run[0].ans) == {} && NoneStrands(Do(w, run[0].a, run[0].ans), run[1..])
  }

  lemma {:induction false} RunStrands(w: World, run: seq<Call>)
    requires Inv(w) && Balanced(w.net) && AllowedRun(w, run)
    ensures CallStrandsJust(w, Exec(w, run), AllStranded(w, run))
    ensures AllStranded(w, run) == {} <==> NoneStrands(w, run)
    decreases run
  {
    hide Inv, Balanced, Ownerless, Do, StrandedBy;
    if run != [] {
      CallStrands(w, run[0].a, run[0].ans);
      CallKeeps(w, run[0].a, run[0].ans);
      RunStrands(Do(w, run[0].a, run[0].ans), run[1..]);
    }
  }

  /** The table holds the socket, or a handle on a server file does. */
  ghost predicate HasOwner(w: World, fd: int) {
    || (exists k :: k in w.net.table && w.net.table[k] == fd)
    || (exists h :: h in w.handles && w.handles[h] == ConnOp(fd))
  }

  /** The open sockets that nobody owns. */
  ghost function WithoutOwner(w: World): set<int> {
    set fd | fd in w.net.sockets && !HasOwner(w, fd)
  }

  lemma OwnerOrNot(w: World, fd: int)
    requires fd in w.net.sockets
    ensures Ownerless(w.net, w.handles, fd) <==> !HasOwner(w, fd)
  {
  }

  /**
   Conservation over every protocol run. Each descriptor was closed once for every time it was opened and is not open
   now; no socket has two owners; and the open sockets without one are exactly those that the calls stranded.
   So every open socket has an owner exactly when no call of the run stranded one.
   */
  lemma SocketsAreConserved(run: seq<Call>)
    requires AllowedRun(START(), run)
    ensures var w := Exec(START(), run);
            && Balanced(w.net) && Owned(w.net)
            && (forall k, h :: k in w.net.table && h in w.handles ==> w.handles[h] != ConnOp(w.net.table[k]))
            && (forall h, g :: h in w.handles && g in w.handles ==>
                  w.handles[h].ConnOp? && w.handles[h] == w.handles[g] ==> h == g)
            && WithoutOwner(w) == AllStranded(START(), run)
            && (WithoutOwner(w) == {} <==> NoneStrands(START(), run))
  {
    hide TreeOk, SessionsOk, HandlesOk, NumbersOk, Balanced, AllStranded, NoneStrands, Exec, AllowedRun, HasOwner;
    StartIsGood();
    StartIsEmpty();
    RunKeeps(START(), run);
    RunStrands(START(), run);
    var w := Exec(START(), run);
    forall k, h | k in w.net.table && h in w.handles ensures w.handles[h] != ConnOp(w.net.table[k]) {
      assert w.handles[h].ConnOp? ==> Unheld(w.net, w.handles[h].fd);
    }
    var all := AllStranded(START(), run);
    forall fd ensures fd in WithoutOwner(w) <==> fd in all {
      if fd in w.net.sockets {
        OwnerOrNot(w, fd);
      }
    }
  }

  lemma StartIsEmpty()
    ensures Balanced(START().net) && forall fd :: !Ownerless(START().net, START().handles, fd)
  {
  }
}

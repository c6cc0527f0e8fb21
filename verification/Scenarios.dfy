/**
 Runs from the program's start on which the conditions of the theorems fail: an accept read into too small a buffer,
 setups that leave sockets behind, and a session directory that is removed under an open control handle.
 */
module Scenarios {
  import opened Options
  import opened Decimal
  import opened Paths
  import opened FlatTree
  import opened Routes
  import opened Sessions
  import opened FdTable
  import opened Requests
  import opened RequestParser
  import opened RequestLines
  import opened Protocol
  import opened ProtocolInvariant
  import opened ProtocolSteps
  import opened ProtocolTheorems
  import opened Conservation

  // ----- The worlds the runs go through -----

  /** The kernel gives `fd`, and `left` stays open on the way; nothing else goes wrong. */
  function Gives(fd: Option<int>, left: seq<Stray>): Answers {
    Answers({}, {}, fd, left, false, None)
  }

  const TREE_0: Shape := WithSession(START().tree, "0")
  const TREE_01: Shape := WithSession(TREE_0, "1")

  const OPEN_CLONE: Call := Call(OpenFile(CLONE), Gives(None, []))

  /** The clone file was opened: session 0 is there. */
  const CLONED: World := World(TREE_0, map[1 := CloneOp(2), 2 := CtlOp(0, false)], 2, EMPTY, 0, [0])

  const DO_ANNOUNCE: Call := Call(Write(1, ANNOUNCE, 0), Gives(Some(10), []))

  const ONE_LISTENS: Net := Net(map["0" := 10], map[10 := Listening], [10], [])

  const ANNOUNCED: World := CLONED.(net := ONE_LISTENS)

  const OPEN_LISTEN: Call := Call(OpenFile(FileOf("0", Listen)), Gives(None, []))

  /** The listen file of session 0 was opened. */
  const LISTENED: World :=
    ANNOUNCED.(handles := ANNOUNCED.handles[3 := ListenOp(SessionFilePath("0", Listen), false)], last := 3)

  /** The clone file was opened again: session 1 is there. */
  const CLONED_TWICE: World :=
    World(TREE_01, LISTENED.handles[6 := CloneOp(7)][7 := CtlOp(1, false)], 7, ONE_LISTENS, 1, [0, 1])

  /** The directory of session 1 was removed while its control handle was open. */
  const REMOVED: World := CLONED_TWICE.(tree := Remove(TREE_01, DirOf("1")))

  const DO_CONNECT: Call := Call(Write(6, CONNECT, 0), Gives(Some(12), []))

  /** Session 1 connects all the same. */
  const CONNECTED: World :=
    REMOVED.(net := Net(map["0" := 10, "1" := 12], map[10 := Listening, 12 := Established], [10, 12], []))

  lemma Numerals()
    ensures Dec(0) == "0" && Dec(1) == "1" && IsNumeral("0") && IsNumeral("1")
  {
  }

  lemma NumeralIsNotClone(d: string)
    requires IsNumeral(d)
    ensures DirOf(d) != CLONE
  {
    assert DirOf(d)[1] == d && CLONE[1] == "clone";
    assert IsDigit(d[0]) && "clone"[0] == 'c';
  }

  lemma SessionTree(t: Shape, d: string)
    requires IsNumeral(d)
    ensures var u := WithSession(t, d);
            && DirOf(d) in u && u[DirOf(d)].isDir
            && FileOf(d, Ctl) in u && !u[FileOf(d, Ctl)].isDir && FileOf(d, Listen) in u && !u[FileOf(d, Listen)].isDir
            && (TCP in t ==> TCP in u && u[TCP] == t[TCP]) && (CLONE in t ==> CLONE in u && u[CLONE] == t[CLONE])
    ensures forall e, f :: e != d ==> (FileOf(e, f) in WithSession(t, d) <==> FileOf(e, f) in t)
    ensures forall e :: e != d ==> (DirOf(e) in WithSession(t, d) <==> DirOf(e) in t)
  {
    hide WithSession, KindAt, NameOf, IsNumeral;
    assert FileNo(1) == Ctl && FileNo(4) == Listen;
    NumeralIsNotClone(d);
    AddedEntry(t, d, DirOf(d));
    AddedEntry(t, d, FileOf(d, Ctl));
    AddedEntry(t, d, FileOf(d, Listen));
    AddedEntry(t, d, TCP);
    AddedEntry(t, d, CLONE);
    assert FileOf(d, Ctl)[1] == d;
    forall e, f | e != d ensures FileOf(e, f) in WithSession(t, d) <==> FileOf(e, f) in t {
      AddedEntry(t, d, FileOf(e, f));
      assert FileOf(e, f)[1] == e;
    }
    forall e | e != d ensures DirOf(e) in WithSession(t, d) <==> DirOf(e) in t {
      AddedEntry(t, d, DirOf(e));
      assert DirOf(e)[1] == e;
    }
  }

  ghost predicate Leads(w: World, c: Call, u: World) {
    Allowed(w, c.a, c.ans) && Do(w, c.a, c.ans) == u
  }

  lemma CloneLeads()
    ensures Leads(START(), OPEN_CLONE, CLONED)
  {
    hide Dec, WithSession, NameOf, OpenSpec;
    Numerals();
    CloneRoute(START(), OPEN_CLONE.ans);
    SessionTree(START().tree, "0");
    assert |FileOf("0", Ctl)| == 3 && DirOf("0")[1] == "0" && CLONE[1] == "clone";
  }

  lemma AnnounceLeads()
    ensures Leads(CLONED, DO_ANNOUNCE, ANNOUNCED)
  {
    hide Dec, WithSession, ScanRequest, Targets;
    Numerals();
    AnnounceReads();
    assert Interpret(EMPTY, 0, ANNOUNCE, DO_ANNOUNCE.ans).net == ONE_LISTENS;
  }

  lemma ListenLeads()
    ensures Leads(ANNOUNCED, OPEN_LISTEN, LISTENED)
  {
    hide Dec, WithSession, KindAt, Str, DirNumber, CtlNumber;
    Numerals();
    SessionTree(START().tree, "0");
    SessionFileRoute("0", Listen);
    SessionStrings("0", Listen);
  }

  lemma ListenKey()
    ensures DirNumber(SessionFilePath("0", Listen)) == Some("0") && DirNumber(Str(DirOf("1"))) == Some("1")
  {
    hide DirNumber, Str;
    DirNumberOf(SessionFilePath("0", Listen), "tcp", "0", "/listen");
    SessionStrings("1", Ctl);
    DirNumberOf(Str(DirOf("1")), "tcp", "1", "");
  }

  /** From the third world, clone gives session 1. */
  lemma SecondClone(n: Net, ans: Answers)
    requires n.table == map["0" := 10] && 10 in n.sockets && n.sockets[10] == Listening &&
        ans == Gives(ans.fd, ans.left)
    ensures OpenClone(LISTENED.(net := n), ans) == Opened(CLONED_TWICE.(net := n), Some(6))
  {
    hide Dec, WithSession;
    Numerals();
    SessionTree(START().tree, "0");
    SessionTree(TREE_0, "1");
    assert |FileOf("1", Ctl)| == 3 && DirOf("1")[1] == "1" && CLONE[1] == "clone";
  }

  lemma SecondCloneLeads()
    ensures Leads(LISTENED, OPEN_CLONE, CLONED_TWICE)
  {
    hide Dec, WithSession, OpenSpec, OpenClone;
    Numerals();
    SessionTree(START().tree, "0");
    CloneRoute(LISTENED, OPEN_CLONE.ans);
    SecondClone(ONE_LISTENS, OPEN_CLONE.ans);
  }

  // ----- The runs -----

  lemma RunCons(w: World, c: Call, u: World, rest: seq<Call>)
    requires Leads(w, c, u) && AllowedRun(u, rest)
    ensures AllowedRun(w, [c] + rest) && Exec(w, [c] + rest) == Exec(u, rest)
    ensures AllStranded(w, [c] + rest) == StrandedBy(w, c.a, c.ans) + AllStranded(u, rest)
  {
    hide Do, StrandedBy;
    assert ([c] + rest)[1..] == rest;
  }

  lemma RunOfOne(w: World, c: Call)
    requires Allowed(w, c.a, c.ans)
    ensures AllowedRun(w, [c]) && Exec(w, [c]) == Do(w, c.a, c.ans)
    ensures AllStranded(w, [c]) == StrandedBy(w, c.a, c.ans)
  {
    hide Do, StrandedBy;
    assert AllowedRun(Do(w, c.a, c.ans), []);
    RunCons(w, c, Do(w, c.a, c.ans), []);
    assert [c] + [] == [c];
  }

  const READ_ONE_BYTE: Call := Call(Read(3, 1, 0), Gives(Some(11), []))

  const SMALL_READ: seq<Call> := [OPEN_CLONE] + ([DO_ANNOUNCE] + ([OPEN_LISTEN] + [READ_ONE_BYTE]))

  lemma SmallReadStrandsIt()
    ensures Allowed(LISTENED, READ_ONE_BYTE.a, READ_ONE_BYTE.ans)
    ensures StrandedBy(LISTENED, READ_ONE_BYTE.a, READ_ONE_BYTE.ans) == {11}
  {
    hide Dec, WithSession, DirNumber, OpenClone;
    Numerals();
    SessionTree(START().tree, "0");
    ListenKey();
    SecondClone(OpenSocket(ONE_LISTENS, 11, Established), READ_ONE_BYTE.ans);
  }

  lemma AnnounceStrandsNothing()
    ensures Leads(CLONED, DO_ANNOUNCE, ANNOUNCED) && StrandedBy(CLONED, DO_ANNOUNCE.a, DO_ANNOUNCE.ans) == {}
  {
    hide Leads, SetupOf, WithSession;
    AnnounceLeads();
    SetupIsListening(CLONED.net, DO_ANNOUNCE.ans);
  }

  lemma SetupIsListening(n: Net, ans: Answers)
    ensures SetupOf(n, 0, ANNOUNCE, ans) == Some(Listening)
  {
    hide ScanRequest, Targets;
    AnnounceReads();
  }

  /** Session 0 announces; its listen file is opened and read with room for one byte: the connection is nobody's. */
  lemma SmallReadStrands()
    ensures AllowedRun(START(), SMALL_READ) && WithoutOwner(Exec(START(), SMALL_READ)) == {11}
  {
    hide Leads, AllowedRun, Exec, StrandedBy, AllStranded, WithoutOwner, Allowed;
    CloneLeads();
    AnnounceStrandsNothing();
    ListenLeads();
    SmallReadStrandsIt();
    OpensStrandNothing();
    RunOfOne(LISTENED, READ_ONE_BYTE);
    RunCons(ANNOUNCED, OPEN_LISTEN, LISTENED, [READ_ONE_BYTE]);
    RunCons(CLONED, DO_ANNOUNCE, ANNOUNCED, [OPEN_LISTEN] + [READ_ONE_BYTE]);
    RunCons(START(), OPEN_CLONE, CLONED, [DO_ANNOUNCE] + ([OPEN_LISTEN] + [READ_ONE_BYTE]));
    SocketsAreConserved(SMALL_READ);
  }

  lemma OpensStrandNothing()
    ensures StrandedBy(START(), OPEN_CLONE.a, OPEN_CLONE.ans) == {}
    ensures StrandedBy(ANNOUNCED, OPEN_LISTEN.a, OPEN_LISTEN.ans) == {}
  {
  }

  const FAILING_ANNOUNCE: Call := Call(Write(1, ANNOUNCE, 0), Gives(None, [Stray(10, false)]))

  const FAILED_BIND: seq<Call> := [OPEN_CLONE] + [FAILING_ANNOUNCE]

  lemma FailedBindStrandsIt()
    ensures Allowed(CLONED, FAILING_ANNOUNCE.a, FAILING_ANNOUNCE.ans)
    ensures StrandedBy(CLONED, FAILING_ANNOUNCE.a, FAILING_ANNOUNCE.ans) == {10}
  {
    hide SetupOf, WithSession, StrandedBy;
    SetupIsListening(CLONED.net, FAILING_ANNOUNCE.ans);
    WriteStrandsStrays(CLONED, 1, 0, FAILING_ANNOUNCE.a.text, FAILING_ANNOUNCE.ans);
  }

  /** An announcement whose socket cannot be bound leaves that socket open. */
  lemma FailedBindStrands()
    ensures AllowedRun(START(), FAILED_BIND) && WithoutOwner(Exec(START(), FAILED_BIND)) == {10}
  {
    hide Leads, AllowedRun, Exec, AllStranded, WithoutOwner, Allowed, StrandedBy;
    CloneLeads();
    OpensStrandNothing();
    FailedBindStrandsIt();
    RunOfOne(CLONED, FAILING_ANNOUNCE);
    RunCons(START(), OPEN_CLONE, CLONED, [FAILING_ANNOUNCE]);
    SocketsAreConserved(FAILED_BIND);
  }

  const LOCALHOST_FILE: Path := ["tcp", "localhost!80"]

  const TWO_ADDRESSES: seq<Call> := [Call(Mknod(LOCALHOST_FILE), Gives(Some(11), [Stray(10, true)]))]

  /** A client file for a host of two addresses leaves the first one's socket open, although its creation succeeds. */
  lemma SecondAddressStrands()
    ensures AllowedRun(START(), TWO_ADDRESSES) && WithoutOwner(Exec(START(), TWO_ADDRESSES)) == {10}
  {
    hide AllowedRun, Exec, AllStranded, WithoutOwner, KindAt, Allowed, StrandedBy;
    SecondAddressStrandsIt();
    RunOfOne(START(), TWO_ADDRESSES[0]);
    SocketsAreConserved(TWO_ADDRESSES);
  }

  lemma SecondAddressStrandsIt()
    ensures Allowed(START(), TWO_ADDRESSES[0].a, TWO_ADDRESSES[0].ans)
    ensures StrandedBy(START(), TWO_ADDRESSES[0].a, TWO_ADDRESSES[0].ans) == {10}
  {
    hide KindAt, NameOf;
    var c := LOCALHOST_FILE;
    assert IsName("tcp") && IsName("localhost!80");
    SocketFileRoute(c);
    assert c[1] == "localhost!80" && CLONE[1] == "clone" && |c[1]| == 12;
    assert Parent(c) == TCP;
  }

  // ----- Removing a session under a control handle -----

  const BEFORE: seq<Call> := [OPEN_CLONE] + ([DO_ANNOUNCE] + ([OPEN_LISTEN] + [OPEN_CLONE]))

  const READ_ALL: Call := Call(Read(3, 64, 0), Gives(Some(13), []))

  lemma RemovalGoes()
    ensures Do(CLONED_TWICE, Rmdir(DirOf("1")), Gives(None, [])) == REMOVED
    ensures !Allowed(CLONED_TWICE, Rmdir(DirOf("1")), Gives(None, []))
  {
    hide Dec, WithSession, KindAt, Str, DirNumber;
    Numerals();
    SessionTree(START().tree, "0");
    SessionTree(TREE_0, "1");
    DirOfNumeral("1");
    ListenKey();
    assert Parent(DirOf("1")) == TCP;
    assert CLONED_TWICE.handles[7] == CtlOp(1, false);
  }

  lemma ConnectLeads()
    ensures Leads(REMOVED, DO_CONNECT, CONNECTED)
  {
    hide Dec, WithSession, ScanRequest, Targets;
    Numerals();
    ConnectReads();
    assert Interpret(ONE_LISTENS, 1, CONNECT, DO_CONNECT.ans).net == CONNECTED.net;
  }

  /** The directory of session 1 is made anew for the connection. */
  lemma ThirdClone(n: Net, ans: Answers)
    requires ans == Gives(ans.fd, ans.left)
    ensures var o := OpenClone(CONNECTED.(net := n), ans);
            && o.h == Some(8) && o.w.net == n && o.w.current == 1 && 8 in o.w.handles && o.w.handles[8].CloneOp?
  {
    hide Dec, WithSession;
    Numerals();
    SessionTree(REMOVED.tree, "1");
  }

  lemma AcceptCloses()
    ensures Allowed(CONNECTED, READ_ALL.a, READ_ALL.ans)
    ensures 12 !in Do(CONNECTED, READ_ALL.a, READ_ALL.ans).net.sockets
  {
    hide Dec, WithSession, DirNumber, AcceptedSpec;
    ListenKey();
    AcceptedCloses(CONNECTED.(net := OpenSocket(CONNECTED.net, 13, Established)));
  }

  lemma AcceptedCloses(w: World)
    requires w == CONNECTED.(net := OpenSocket(CONNECTED.net, 13, Established))
    ensures 12 !in AcceptedSpec(w, 3, SessionFilePath("0", Listen), 13, 64, READ_ALL.ans).w.net.sockets
  {
    hide Dec, WithSession, OpenClone, SessionFilePath;
    Numerals();
    SessionTree(START().tree, "0");
    SessionTree(TREE_0, "1");
    ThirdClone(w.net, READ_ALL.ans);
    NumeralIsNotClone("1");
    assert !Below(DirOf("1"), CLONE);
    assert CLONE in w.tree && !w.tree[CLONE].isDir;
  }

  /**
   The accept is not safe without the clause on removals. Two sessions are opened, and the first one listens; the
   directory of the second is removed while it has a control handle, which the code accepts; through that handle it
   connects; and the next accept is given its number and closes its connection. No other call is out of the ordinary.
   */
  lemma RemovalBreaksAccept()
    ensures AllowedRun(START(), BEFORE)
    ensures var w := Exec(START(), BEFORE);
            var u := Do(w, Rmdir(DirOf("1")), Gives(None, []));
            && !Allowed(w, Rmdir(DirOf("1")), Gives(None, [])) && DirOf("1") in w.tree && DirOf("1") !in u.tree
            && AllowedRun(u, [DO_CONNECT])
            && var v := Exec(u, [DO_CONNECT]);
               && Allowed(v, READ_ALL.a, READ_ALL.ans)
               && 12 in v.net.sockets && v.net.sockets[12] == Established
               && 12 !in Do(v, READ_ALL.a, READ_ALL.ans).net.sockets
  {
    hide AllowedRun, Exec, AllStranded, WithSession, Do;
    CloneLeads();
    AnnounceLeads();
    ListenLeads();
    SecondCloneLeads();
    RemovalGoes();
    ConnectLeads();
    AcceptCloses();
    SessionTree(TREE_0, "1");
    hide Allowed;
    RunOfOne(LISTENED, OPEN_CLONE);
    RunCons(ANNOUNCED, OPEN_LISTEN, LISTENED, [OPEN_CLONE]);
    RunCons(CLONED, DO_ANNOUNCE, ANNOUNCED, [OPEN_LISTEN] + [OPEN_CLONE]);
    RunCons(START(), OPEN_CLONE, CLONED, [DO_ANNOUNCE] + ([OPEN_LISTEN] + [OPEN_CLONE]));
    RunOfOne(REMOVED, DO_CONNECT);
  }
}

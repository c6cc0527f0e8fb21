/**
 What creating, removing and opening do, by path alone: which names are refused, what goes and what stays, and which
 files no run can take away.
 */
module PathRules {
  import opened Options
  import opened Decimal
  import opened Paths
  import opened FlatTree
  import opened Routes
  import opened Sessions
  import opened FdTable
  import opened Requests
  import opened Protocol
  import opened ProtocolInvariant
  import opened ProtocolSteps
  import opened PathKeys

  // ----- Removing -----

  /** The clone file, and the control and data files of sessions. */
  predicate Protected(c: Path) {
    c == CLONE || (|c| == 3 && c[0] == "tcp" && IsNumeral(c[1]) && c[2] in ["ctl", "data"])
  }

  lemma SessionFileIff(c: Path, f: SessionFile)
    requires c != [] && AllNames(c)
    ensures KindAt(c, false) == File(f) <==> |c| == 3 && c[0] == "tcp" && IsNumeral(c[1]) && c[2] == FileText(f)
  {
    hide KindAt, IsNumeral;
    if KindAt(c, false) == File(f) {
      SessionFileRouteOnly(c, f);
    }
    if |c| == 3 && c[0] == "tcp" && IsNumeral(c[1]) && c[2] == FileText(f) {
      assert c == FileOf(c[1], f);
      SessionFileRoute(c[1], f);
    }
  }

  /** The kinds that refuse an unlink are those of the protected paths. */
  lemma ProtectedIff(c: Path)
    requires c != [] && AllNames(c)
    ensures Protected(c) <==> KindAt(c, false) in [Clone, File(Ctl), File(Data)]
  {
    hide KindAt, IsNumeral;
    RouteOfNames(c);
    SessionFileIff(c, Ctl);
    SessionFileIff(c, Data);
  }

  lemma FileAlone(t: Shape, c: Path)
    requires PrefixClosed(t) && c in t && !t[c].isDir
    ensures Remove(t, c) == t - {c}
  {
    hide PrefixClosed;
    forall p | p in t && Below(c, p) ensures p == c {
      NothingBelowFile(t, c, p);
    }
  }

  lemma InTree(w: World, c: Path)
    requires Inv(w) && c in w.tree && c != []
    ensures AllNames(c) && Creatable(w, c) && PrefixClosed(w.tree)
  {
    hide KindAt;
  }

  /**
   An unlink takes exactly the file, unless there is none or it is protected; a client's or a server's file gives up
   its socket. Nothing else changes.
   */
  lemma UnlinkRule(w: World, c: Path)
    requires Inv(w) && c != []
    ensures var u := UnlinkSpec(w, c);
            if c in w.tree && !w.tree[c].isDir && !Protected(c) then
              && u == w.(tree := u.tree, net := u.net) && u.tree == w.tree - {c}
              && (if SocketPath(c) then GivesUp(w.net, u.net, Str(c)) else u.net == w.net)
            else u == w
  {
    hide Inv, KindAt, Str, Remove, Erase, SocketPath, Protected, GivesUp;
    if c in w.tree && !w.tree[c].isDir {
      InTree(w, c);
      ProtectedIff(c);
      SocketFileRoute(c);
      FileAlone(w.tree, c);
      EraseGivesUp(w.net, Str(c));
    }
  }

  /** A session is a numeral right under /tcp. */
  predicate SessionPath(c: Path) {
    |c| == 2 && c[0] == "tcp" && IsNumeral(c[1])
  }

  lemma SessionKeyIs(c: Path)
    requires c != [] && AllNames(c)
    ensures KindAt(c, true) == SessionDir <==> SessionPath(c)
    ensures SessionPath(c) ==> DirNumber(Str(c)) == Some(c[1])
  {
    hide KindAt, Str, DirNumber, IsNumeral;
    RouteOfNames(c);
    if SessionPath(c) {
      assert c == DirOf(c[1]);
      SessionStrings(c[1], Ctl);
      KeysAgreeIff(c[1], Ctl);
    }
  }

  /**
   An rmdir takes the directory with all below it, unless there is none or it is /tcp; a session gives up its socket.
   Nothing else changes.
   */
  lemma RmdirRule(w: World, c: Path)
    requires Inv(w) && c != []
    ensures var u := RmdirSpec(w, c);
            if c in w.tree && w.tree[c].isDir && c != TCP then
              && u == w.(tree := u.tree, net := u.net)
              && (forall p :: p in u.tree <==> p in w.tree && !(c <= p))
              && (forall p :: p in u.tree ==> u.tree[p] == w.tree[p])
              && (if SessionPath(c) then GivesUp(w.net, u.net, c[1]) else u.net == w.net)
            else u == w
  {
    hide Inv, KindAt, Str, Erase, DirNumber, GivesUp, IsNumeral;
    if c in w.tree && w.tree[c].isDir {
      InTree(w, c);
      RouteOfNames(c);
      SessionKeyIs(c);
      if SessionPath(c) {
        EraseGivesUp(w.net, c[1]);
      }
    }
  }

  // ----- Creating -----

  /**
   A mknod below a directory adds exactly the file; a client connects and a server listens first, and the file is there
   only if that succeeded.
   */
  lemma MknodRule(w: World, c: Path, ans: Answers)
    requires Inv(w) && FreshAnswer(w.net, ans) && c != [] && AllNames(c) && c !in w.tree
    ensures var u := MknodSpec(w, c, ans);
            var there := Parent(c) in w.tree && w.tree[Parent(c)].isDir && (SocketPath(c) ==> ans.fd.Some?);
            && u == w.(tree := u.tree, net := u.net)
            && u.tree == (if there then w.tree[c := Info(false, NameOf(KindAt(c, false)))] else w.tree)
            && (if SocketPath(c) && there then
                  Gains(w.net, u.net, Str(c), ans.fd.value, if c[1][0] == '*' then Listening else Established)
                else Spared(w.net, u.net))
            && (!SocketPath(c) ==> u.net == w.net)
  {
    hide Inv, KindAt, NameOf, Str, SetUp, FreshAnswer, SocketPath, Gains, Spared;
    SocketFileRoute(c);
    InvOwnsTable(w);
    SparedItself(w.net);
    SetUpGains(w.net, Str(c), Established, ans);
    SetUpGains(w.net, Str(c), Listening, ans);
    SocketHasName(c);
  }

  lemma SocketHasName(c: Path)
    requires AllNames(c)
    ensures SocketPath(c) ==> |c| == 2 && c[1] != ""
  {
  }

  lemma SparedItself(n: Net)
    ensures Spared(n, n)
  {
  }

  lemma InvOwnsTable(w: World)
    requires Inv(w)
    ensures Owned(w.net)
  {
  }

  /** What a mkdir adds besides the directory: the clone file of /tcp, or the five files of a session. */
  ghost predicate ComesWith(c: Path, p: Path) {
    || (c == TCP && p == CLONE)
    || (SessionPath(c) && exists f :: p == FileOf(c[1], f))
  }

  /** A mkdir below a directory adds exactly the directory and what comes with it, or nothing when that fails. */
  lemma MkdirRule(w: World, c: Path, ans: Answers)
    requires Inv(w) && c != [] && AllNames(c) && c !in w.tree
    ensures var u := MkdirSpec(w, c, ans);
            var there := Parent(c) in w.tree && w.tree[Parent(c)].isDir
                         && (SessionPath(c) ==> !Faulty(ans.hookFault, 0));
            && u == w.(tree := u.tree)
            && (!there ==> u == w)
            && (there ==> c in u.tree && u.tree[c].isDir)
            && (there ==> forall p :: p in u.tree <==> p in w.tree || p == c || ComesWith(c, p))
            && (there ==> forall p :: p in u.tree && ComesWith(c, p) ==> !u.tree[p].isDir)
            && (forall p :: p in w.tree && !ComesWith(c, p) ==> p in u.tree && u.tree[p] == w.tree[p])
  {
    hide Inv, KindAt, NameOf, WithSession, IsNumeral;
    RouteOfNames(c);
    if SessionPath(c) {
      assert c == DirOf(c[1]);
      SessionEntries(w.tree, c[1]);
    }
  }

  lemma {:induction false} EveryFileHasNumber(f: SessionFile) returns (j: nat)
    ensures j < 5 && FileNo(j) == f
  {
    j := match f case Data => 0 case Ctl => 1 case Local => 2 case Remote => 3 case Listen => 4;
  }

  /** A new session is its directory and its five files. */
  lemma SessionEntries(t: Shape, d: string)
    requires IsNumeral(d)
    ensures var u := WithSession(t, d);
            && (forall p :: p in u <==> p in t || p == DirOf(d) || exists f :: p == FileOf(d, f))
            && u[DirOf(d)].isDir && (forall f :: !u[FileOf(d, f)].isDir)
            && (forall p :: p in t && p != DirOf(d) && (forall f :: p != FileOf(d, f)) ==> u[p] == t[p])
  {
    hide WithSession, KindAt, NameOf, IsNumeral;
    var u := WithSession(t, d);
    AddedEntry(t, d, DirOf(d));
    forall f ensures FileOf(d, f) in u && !u[FileOf(d, f)].isDir {
      AddedEntry(t, d, FileOf(d, f));
      var j := EveryFileHasNumber(f);
      assert FileOf(d, f) == FileOf(d, FileNo(j));
    }
    forall p ensures p in u <==> p in t || p == DirOf(d) || exists f :: p == FileOf(d, f) {
      AddedEntry(t, d, p);
    }
    forall p | p in t && p != DirOf(d) && (forall f :: p != FileOf(d, f)) ensures u[p] == t[p] {
      AddedEntry(t, d, p);
    }
  }

  // ----- Opening -----

  /** The open gave a new handle with that operation, and changed nothing else but the sockets. */
  ghost predicate OpenedAs(w: World, o: Opened, op: Op) {
    && o.h == Some(w.last + 1)
    && o.w == w.(handles := w.handles[w.last + 1 := op], last := w.last + 1, net := o.w.net)
    && (!op.ConnOp? ==> o.w.net == w.net)
  }

  /** The open failed: a handle number is used up, and nothing else has changed. */
  ghost predicate NotOpened(w: World, o: Opened) {
    o.h == None && o.w == w.(last := w.last + 1)
  }

  /**
   Opening a session's file: the control file gives its number, unless that is beyond the range of int; the listen file
   always opens; the others give the session's socket, if there is one.
   */
  lemma OpenSessionFile(w: World, d: string, f: SessionFile, ans: Answers)
    requires FreshAnswer(w.net, ans) && IsNumeral(d) && FileOf(d, f) in w.tree && !w.tree[FileOf(d, f)].isDir
    ensures var o := OpenSpec(w, FileOf(d, f), ans);
            match f
            case Ctl => if Val(d) <= INT_MAX then OpenedAs(w, o, CtlOp(Val(d), false)) else NotOpened(w, o)
            case Listen => OpenedAs(w, o, ListenOp(SessionFilePath(d, Listen), false))
            case _ => if d in w.net.table then OpenedAs(w, o, SocketOp(w.net.table[d])) else NotOpened(w, o)
  {
    hide KindAt, Str, DirNumber, CtlNumber, IsNumeral;
    SessionFileRoute(d, f);
    SessionStrings(d, f);
    KeysAgreeIff(d, f);
  }

  /** Opening a client gives its socket; opening a server accepts a connection, which is the handle's own. */
  lemma OpenSocketFile(w: World, c: Path, ans: Answers)
    requires FreshAnswer(w.net, ans) && AllNames(c) && SocketPath(c) && c in w.tree && !w.tree[c].isDir
    ensures var o := OpenSpec(w, c, ans);
            if Str(c) !in w.net.table then NotOpened(w, o)
            else if c[1][0] != '*' then OpenedAs(w, o, SocketOp(w.net.table[Str(c)]))
            else if ans.fd.None? then NotOpened(w, o)
            else
              && OpenedAs(w, o, ConnOp(ans.fd.value)) && o.w.net.table == w.net.table
              && o.w.net.sockets == w.net.sockets[ans.fd.value := Established]
  {
    hide KindAt, Str, DirNumber, CtlNumber;
    SocketFileRoute(c);
  }

  /** Every other file but clone opens as a default file; a directory, or nothing, does not open. */
  lemma OpenOtherPath(w: World, c: Path, ans: Answers)
    requires Inv(w) && FreshAnswer(w.net, ans) && c != CLONE && !SocketPath(c)
    requires forall d, f :: IsNumeral(d) ==> c != FileOf(d, f)
    ensures var o := OpenSpec(w, c, ans);
            if c in w.tree && !w.tree[c].isDir then OpenedAs(w, o, Plain) else o == Opened(w, None)
  {
    hide KindAt, Str, DirNumber, CtlNumber, IsNumeral, SessionsOk, TableOk, HandlesOk, ConnsOk, NumbersOk;
    if c in w.tree && !w.tree[c].isDir {
      InTree(w, c);
      RouteOfNames(c);
      SocketFileRoute(c);
      KindsOfEntries(c);
      forall f ensures KindAt(c, false) != File(f) {
        SessionFileIff(c, f);
        assert |c| == 3 && c[0] == "tcp" && c[2] == FileText(f) ==> c == FileOf(c[1], f);
      }
      RegularKinds(c);
    }
  }

  lemma RegularKinds(c: Path)
    ensures KindAt(c, false) != SessionDir && KindAt(c, false) != DirDefault
  {
    hide SessionRe;
  }

  // ----- Files that no run takes away -----

  /** Clone is there, and every session directory has its control and data files. */
  ghost predicate KeepsFiles(t: Shape) {
    && CLONE in t && !t[CLONE].isDir
    && forall d :: IsNumeral(d) && DirOf(d) in t && t[DirOf(d)].isDir ==>
         && FileOf(d, Ctl) in t && !t[FileOf(d, Ctl)].isDir
         && FileOf(d, Data) in t && !t[FileOf(d, Data)].isDir
  }

  lemma SessionAddsFiles(t: Shape, d: string)
    requires IsNumeral(d) && KeepsFiles(t) && DirOf(d) !in t
    ensures KeepsFiles(WithSession(t, d))
  {
    hide WithSession, IsNumeral;
    var u := WithSession(t, d);
    SessionEntries(t, d);
    assert |FileOf(d, Ctl)| == 3 && |CLONE| == 2;
    forall e | IsNumeral(e) && DirOf(e) in u && u[DirOf(e)].isDir
      ensures FileOf(e, Ctl) in u && !u[FileOf(e, Ctl)].isDir && FileOf(e, Data) in u && !u[FileOf(e, Data)].isDir
    {
      assert FileOf(e, Ctl)[1] == e && DirOf(e)[1] == e && FileOf(e, Data)[1] == e;
      assert DirOf(d)[1] == d;
      assert forall f :: FileOf(d, f)[1] == d;
    }
  }

  lemma CloneKeepsFiles(w: World, ans: Answers)
    requires KeepsFiles(w.tree)
    ensures KeepsFiles(OpenClone(w, ans).w.tree)
  {
    hide Dec, WithSession, KeepsFiles;
    DecIsNumeral(w.current);
    DecIsNumeral(w.current + 1);
    if DirOf(Dec(w.current)) !in w.tree {
      SessionAddsFiles(w.tree, Dec(w.current));
    }
    if DirOf(Dec(w.current + 1)) !in w.tree {
      SessionAddsFiles(w.tree, Dec(w.current + 1));
    }
  }

  lemma OpenKeepsFiles(w: World, c: Path, ans: Answers)
    requires KeepsFiles(w.tree) && FreshAnswer(w.net, ans)
    ensures KeepsFiles(OpenSpec(w, c, ans).w.tree)
  {
    hide OpenClone, KindAt, Str, CtlNumber, DirNumber, KeepsFiles;
    CloneKeepsFiles(w, ans);
  }

  lemma ReadKeepsFiles(w: World, h: int, size: nat, ans: Answers)
    requires KeepsFiles(w.tree) && FreshAnswer(w.net, ans)
    ensures KeepsFiles(ReadSpec(w, h, size, ans).w.tree)
  {
    hide OpenClone, Dec, DirNumber, KeepsFiles, CloseSpec;
    if h in w.handles && w.handles[h].ListenOp? && ans.fd.Some? {
      var u := w.(net := OpenSocket(w.net, ans.fd.value, Established));
      CloneKeepsFiles(u, ans);
      var o := OpenClone(u, ans);
      if o.h.Some? {
        CloseSpecUntouched(o.w, o.h.value);
      }
    }
  }

  lemma UnlinkKeepsFiles(w: World, c: Path)
    requires Inv(w) && KeepsFiles(w.tree)
    ensures KeepsFiles(UnlinkSpec(w, c).tree)
  {
    hide Inv, UnlinkSpec, GivesUp, IsNumeral, SocketPath;
    if c != [] {
      UnlinkRule(w, c);
    } else {
      assert UnlinkSpec(w, c) == w by { UnlinkRoot(w); }
    }
  }

  lemma UnlinkRoot(w: World)
    ensures UnlinkSpec(w, []) == w && RmdirSpec(w, []) == w
  {
  }

  lemma RmdirKeepsFiles(w: World, c: Path)
    requires Inv(w) && KeepsFiles(w.tree)
    ensures KeepsFiles(RmdirSpec(w, c).tree)
  {
    hide Inv, RmdirSpec, GivesUp, IsNumeral;
    UnlinkRoot(w);
    if c != [] {
      RmdirRule(w, c);
      var u := RmdirSpec(w, c).tree;
      PrefixOfCtl(c, "clone");
      forall d | IsNumeral(d) && DirOf(d) in u && u[DirOf(d)].isDir
        ensures FileOf(d, Ctl) in u && !u[FileOf(d, Ctl)].isDir && FileOf(d, Data) in u && !u[FileOf(d, Data)].isDir
      {
        PrefixOfFile(c, d, Ctl);
        PrefixOfFile(c, d, Data);
      }
    }
  }

  lemma PrefixOfFile(c: Path, d: string, f: SessionFile)
    ensures c != [] && c <= FileOf(d, f) ==> c == TCP || c <= DirOf(d) || c == FileOf(d, f)
  {
    assert DirOf(d) == FileOf(d, f)[..2] && TCP == FileOf(d, f)[..1];
    if c <= FileOf(d, f) {
      assert c == FileOf(d, f)[..|c|];
    }
  }

  lemma MknodKeepsFiles(w: World, c: Path, ans: Answers)
    requires Inv(w) && KeepsFiles(w.tree) && FreshAnswer(w.net, ans) && c != [] && AllNames(c) && c !in w.tree
    ensures KeepsFiles(MknodSpec(w, c, ans).tree)
  {
    hide Inv, MknodSpec, Gains, IsNumeral, SocketPath, KindAt, NameOf, FreshAnswer;
    MknodRule(w, c, ans);
  }

  lemma MkdirKeepsFiles(w: World, c: Path, ans: Answers)
    requires Inv(w) && KeepsFiles(w.tree) && c != [] && AllNames(c) && c !in w.tree && KindAt(c, true) != SessionDir
    ensures KeepsFiles(MkdirSpec(w, c, ans).tree)
  {
    hide Inv, MkdirSpec, IsNumeral, KindAt;
    MkdirRule(w, c, ans);
    RouteOfNames(c);
    var t, u := w.tree, MkdirSpec(w, c, ans).tree;
    assert forall p :: p in u && u[p].isDir && p != c ==> p in t && t[p].isDir;
  }

  lemma CallKeepsFiles(w: World, a: Action, ans: Answers)
    requires Inv(w) && KeepsFiles(w.tree) && Allowed(w, a, ans)
    ensures KeepsFiles(Do(w, a, ans).tree)
  {
    hide Inv, KeepsFiles, OpenSpec, ReadSpec, MknodSpec, MkdirSpec, UnlinkSpec, RmdirSpec, KindAt, FreshAnswer,
         Interpret;
    match a
    case Mknod(c) => MknodKeepsFiles(w, c, ans);
    case Mkdir(c) => MkdirKeepsFiles(w, c, ans);
    case Unlink(c) => UnlinkKeepsFiles(w, c);
    case Rmdir(c) => RmdirKeepsFiles(w, c);
    case OpenFile(c) => OpenKeepsFiles(w, c, ans);
    case Read(h, size, _) => ReadKeepsFiles(w, h, size, ans);
    case Close(h) => CloseSpecUntouched(w, h);
    case _ =>
  }

  lemma {:induction false} RunKeepsFiles(w: World, run: seq<Call>)
    requires Inv(w) && KeepsFiles(w.tree) && AllowedRun(w, run)
    ensures KeepsFiles(Exec(w, run).tree)
    decreases run
  {
    hide Inv, KeepsFiles, Do;
    if run != [] {
      CallKeeps(w, run[0].a, run[0].ans);
      CallKeepsFiles(w, run[0].a, run[0].ans);
      RunKeepsFiles(Do(w, run[0].a, run[0].ans), run[1..]);
    }
  }

  /** Over every run, clone is there, and a session that has its directory has its control and data files. */
  lemma SessionsKeepTheirFiles(run: seq<Call>)
    requires AllowedRun(START(), run)
    ensures var t := Exec(START(), run).tree;
            && CLONE in t && !t[CLONE].isDir
            && forall d :: IsNumeral(d) && DirOf(d) in t && t[DirOf(d)].isDir ==>
                 && FileOf(d, Ctl) in t && !t[FileOf(d, Ctl)].isDir
                 && FileOf(d, Data) in t && !t[FileOf(d, Data)].isDir
  {
    hide Inv, Exec, AllowedRun;
    StartIsGood();
    RunKeepsFiles(START(), run);
  }
}

/**
 The paths in the descriptor table: over every run they are exactly the paths of the client and server files in the
 tree.
 */
module PathKeys {
  import opened Decimal
  import opened Paths
  import opened FlatTree
  import opened Regex
  import opened Routes
  import opened Sessions
  import opened FdTable
  import opened Requests
  import opened Protocol
  import opened ProtocolInvariant
  import opened ProtocolSteps

  ghost predicate SocketFile(t: Shape, c: Path) {
    SocketPath(c) && c in t && !t[c].isDir
  }

  ghost predicate PathKeysOk(t: Shape, net: Net) {
    && (forall c :: SocketFile(t, c) ==> Str(c) in net.table)
    && (forall k :: k in net.table && PathKey(k) ==> exists c :: SocketFile(t, c) && k == Str(c))
  }

  ghost predicate SameFiles(t: Shape, u: Shape) {
    forall c :: SocketFile(t, c) <==> SocketFile(u, c)
  }

  ghost predicate SamePathKeys(n: Net, m: Net) {
    forall k :: PathKey(k) ==> (k in n.table <==> k in m.table)
  }

  /** Nothing happened to a client or a server. */
  ghost predicate Untouched(w: World, u: World) {
    SameFiles(w.tree, u.tree) && SamePathKeys(w.net, u.net)
  }

  lemma UntouchedKeeps(w: World, u: World)
    requires PathKeysOk(w.tree, w.net) && Untouched(w, u)
    ensures PathKeysOk(u.tree, u.net)
  {
    forall c | SocketFile(u.tree, c) ensures Str(c) in u.net.table {
      assert SocketFile(w.tree, c) && PathKey(Str(c));
    }
    forall k | k in u.net.table && PathKey(k) ensures exists c :: SocketFile(u.tree, c) && k == Str(c) {
      var c :| SocketFile(w.tree, c) && k == Str(c);
      assert SocketFile(u.tree, c);
    }
  }

  // ----- What leaves them alone -----

  lemma NumeralIsNoPath(n: nat, s: string)
    ensures !PathKey(Dec(n))
    ensures DirNumber(s).Some? ==> !PathKey(DirNumber(s).value)
  {
    hide Run, DirNumber;
    assert IsDigit(Dec(n)[0]);
    DirNumberLayout(s);
    if DirNumber(s).Some? {
      RunIsMaximal(DecDigit, s, 1 + Run(WordChar, s, 1) + 1);
    }
  }

  lemma KeyChange(n: Net, m: Net, key: string)
    requires OnlyKeyChanged(n, m, key) && !PathKey(key)
    ensures SamePathKeys(n, m)
  {
    forall k | PathKey(k) ensures k in n.table <==> k in m.table {
      assert FdTable.Find(n, k) == FdTable.Find(m, k);
    }
  }

  lemma SessionIsNoSocket(t: Shape, d: string)
    requires IsNumeral(d) && DirOf(d) !in t
    ensures SameFiles(t, WithSession(t, d))
  {
    hide WithSession, KindAt, NameOf, IsNumeral;
    forall c ensures SocketFile(t, c) <==> SocketFile(WithSession(t, d), c) {
      AddedEntry(t, d, c);
    }
  }

  lemma CloneUntouched(w: World, ans: Answers)
    ensures Untouched(w, OpenClone(w, ans).w)
  {
    hide Dec, WithSession, SocketFile;
    DecIsNumeral(w.current);
    DecIsNumeral(w.current + 1);
    if DirOf(Dec(w.current)) !in w.tree {
      SessionIsNoSocket(w.tree, Dec(w.current));
    }
    if DirOf(Dec(w.current + 1)) !in w.tree {
      SessionIsNoSocket(w.tree, Dec(w.current + 1));
    }
  }

  lemma OpenUntouched(w: World, c: Path, ans: Answers)
    requires FreshAnswer(w.net, ans)
    ensures Untouched(w, OpenSpec(w, c, ans).w)
  {
    hide OpenClone, KindAt, Str, CtlNumber, DirNumber, SocketFile;
    CloneUntouched(w, ans);
  }

  lemma CloseSpecUntouched(w: World, h: int)
    ensures CloseSpec(w, h).tree == w.tree && CloseSpec(w, h).net.table == w.net.table
  {
  }

  lemma ReadUntouched(w: World, h: int, size: nat, ans: Answers)
    requires FreshAnswer(w.net, ans)
    ensures Untouched(w, ReadSpec(w, h, size, ans).w)
  {
    hide AcceptedSpec, DirNumber, Dec, SocketFile;
    if h in w.handles && w.handles[h].ListenOp? && ans.fd.Some? {
      var u := w.(net := OpenSocket(w.net, ans.fd.value, Established));
      AcceptedUntouched(u, h, w.handles[h].path, ans.fd.value, size, ans);
    }
  }

  lemma AcceptedUntouched(w: World, h: int, path: string, fd: int, size: nat, ans: Answers)
    ensures Untouched(w, AcceptedSpec(w, h, path, fd, size, ans).w)
  {
    hide OpenClone, Dec, SocketFile, CloseSpec;
    if CLONE in w.tree && !w.tree[CLONE].isDir {
      CloneUntouched(w, ans);
      var o := OpenClone(w, ans);
      NumeralIsNoPath(o.w.current, "");
      if o.h.Some? {
        CloseSpecUntouched(o.w, o.h.value);
      }
    }
  }

  lemma WriteUntouched(w: World, h: int, text: string, ans: Answers)
    requires Inv(w) && FreshAnswer(w.net, ans)
    ensures Untouched(w, WriteSpec(w, h, text, ans).w)
  {
    hide TreeOk, SessionsOk, HandlesOk, ConnsOk, NumbersOk, Owned, Interpret, FreshAnswer, OnlyKeyChanged, SocketFile,
         Dec;
    if h in w.handles && WriteSpec(w, h, text, ans).w != w {
      var g := if w.handles[h].CloneOp? then w.handles[h].ctl else h;
      var n := w.handles[g].n;
      RequestIsIsolated(w.net, n, text, ans);
      NumeralIsNoPath(n, "");
      KeyChange(w.net, Interpret(w.net, n, text, ans).net, Dec(n));
    }
  }

  lemma MkdirUntouched(w: World, c: Path, ans: Answers)
    requires c != [] && AllNames(c) && c !in w.tree && KindAt(c, true) != SessionDir
    ensures Untouched(w, MkdirSpec(w, c, ans))
  {
    hide KindAt, NameOf;
  }

  /** Removing anything but /tcp, a client or a server takes none of them along. */
  lemma RemovalSparesSockets(t: Shape, c: Path)
    requires PrefixClosed(t) && c != [] && c in t
    requires if t[c].isDir then c != TCP else !SocketPath(c)
    ensures SameFiles(t, Remove(t, c))
  {
    hide PrefixClosed;
    forall e | SocketFile(t, e) ensures !Below(c, e) {
      PrefixOfSocket(c, e);
      if c == TCP && Below(c, e) {
        NothingBelowFile(t, c, e);
      }
    }
  }

  lemma PrefixOfSocket(c: Path, e: Path)
    requires c != [] && SocketPath(e)
    ensures Below(c, e) ==> c == e || c == TCP
  {
    assert e[..1] == TCP && e[..2] == e;
    assert Below(c, e) ==> c == e[..|c|];
  }

  /** What a removal through the file system does not reach. */
  lemma OtherRemoval(w: World, c: Path, isDir: bool)
    requires Inv(w) && c != [] && c in w.tree && w.tree[c].isDir == isDir
    requires KindAt(c, isDir) != TcpDir && KindAt(c, isDir) != Client && KindAt(c, isDir) != Server
    ensures SameFiles(w.tree, Remove(w.tree, c))
  {
    hide SessionsOk, TableOk, HandlesOk, ConnsOk, NumbersOk, KindAt, NameOf, PrefixClosed, SameFiles, Remove;
    assert AllNames(c);
    RouteOfNames(c);
    SocketFileRoute(c);
    RemovalSparesSockets(w.tree, c);
  }

  lemma RmdirUntouched(w: World, c: Path)
    requires Inv(w)
    ensures Untouched(w, RmdirSpec(w, c))
  {
    hide Inv, KindAt, Str, DirNumber, Remove, SocketFile, Erase, OnlyKeyChanged;
    if Creatable(w, c) && c in w.tree && w.tree[c].isDir && KindAt(c, true) != TcpDir {
      KindsOfEntries(c);
      OtherRemoval(w, c, true);
      NumeralIsNoPath(0, Str(c));
      if DirNumber(Str(c)).Some? {
        var key := DirNumber(Str(c)).value;
        EraseIsIsolated(w.net, key);
        KeyChange(w.net, Erase(w.net, key), key);
      }
    }
  }

  lemma KindsOfEntries(c: Path)
    ensures KindAt(c, true) != Client && KindAt(c, true) != Server && KindAt(c, false) != TcpDir
  {
    hide FullMatch;
  }

  // ----- What changes them -----

  lemma SetUpTable(n: Net, key: string, st: SockState, ans: Answers)
    requires FreshAnswer(n, ans)
    ensures SetUp(n, key, st, ans).table == if ans.fd.None? then n.table else n.table[key := ans.fd.value]
  {
    hide FreshAnswer, LeaveOpen, Strays;
    StraysAreFresh(n, st, ans);
  }

  lemma PathAdded(t: Shape, u: Shape, n: Net, m: Net, c: Path)
    requires PathKeysOk(t, n) && SocketPath(c) && forall e :: SocketFile(u, e) <==> SocketFile(t, e) || e == c
    requires m.table.Keys == n.table.Keys + {Str(c)}
    ensures PathKeysOk(u, m)
  {
    hide SocketFile, SocketPath, Str;
    forall e | SocketFile(u, e) ensures Str(e) in m.table.Keys {
    }
    forall k | k in m.table.Keys && PathKey(k) ensures exists e :: SocketFile(u, e) && k == Str(e) {
      if k == Str(c) {
        assert SocketFile(u, c);
      } else {
        assert k in n.table;
        var e :| SocketFile(t, e) && k == Str(e);
        assert SocketFile(u, e);
      }
    }
  }

  lemma PathRemoved(t: Shape, u: Shape, n: Net, m: Net, c: Path)
    requires PathKeysOk(t, n) && forall e :: SocketFile(u, e) <==> SocketFile(t, e) && e != c
    requires forall e :: SocketFile(t, e) && Str(e) == Str(c) ==> e == c
    requires m.table.Keys == n.table.Keys - {Str(c)}
    ensures PathKeysOk(u, m)
  {
    hide SocketFile, Str;
    forall e | SocketFile(u, e) ensures Str(e) in m.table.Keys {
      assert SocketFile(t, e);
    }
    forall k | k in m.table.Keys && PathKey(k) ensures exists e :: SocketFile(u, e) && k == Str(e) {
      assert k in n.table;
      var e :| SocketFile(t, e) && k == Str(e);
      assert SocketFile(u, e);
    }
  }

  lemma MknodPathKeys(w: World, c: Path, ans: Answers)
    requires PathKeysOk(w.tree, w.net) && FreshAnswer(w.net, ans) && c != [] && AllNames(c) && c !in w.tree
    ensures var u := MknodSpec(w, c, ans); PathKeysOk(u.tree, u.net)
  {
    hide PathKeysOk, KindAt, NameOf, Str, SetUp, FreshAnswer;
    var u := MknodSpec(w, c, ans);
    SocketFileRoute(c);
    SetUpTable(w.net, Str(c), Established, ans);
    SetUpTable(w.net, Str(c), Listening, ans);
    if Creatable(w, c) && SocketPath(c) && ans.fd.Some? {
      PathAdded(w.tree, u.tree, w.net, u.net, c);
    } else {
      UntouchedKeeps(w, u);
    }
  }

  /** A client's or a server's file goes, and no other one has its path. */
  lemma SocketFileGone(w: World, c: Path)
    requires Inv(w) && c in w.tree && !w.tree[c].isDir && SocketPath(c)
    ensures forall e :: SocketFile(Remove(w.tree, c), e) <==> SocketFile(w.tree, e) && e != c
    ensures forall e :: SocketFile(w.tree, e) && Str(e) == Str(c) ==> e == c
  {
    hide SessionsOk, TableOk, HandlesOk, ConnsOk, NumbersOk, KindAt, NameOf, PrefixClosed, Str;
    forall e | SocketFile(w.tree, e) && Str(e) == Str(c) ensures e == c {
      StrInjective(e, c);
    }
    forall e | Below(c, e) && |e| == 2 ensures e == c {
    }
  }

  lemma EraseTable(n: Net, k: string)
    ensures Erase(n, k).table == n.table - {k}
  {
  }

  lemma UnlinkPathKeys(w: World, c: Path)
    requires Inv(w) && PathKeysOk(w.tree, w.net)
    ensures var u := UnlinkSpec(w, c); PathKeysOk(u.tree, u.net)
  {
    hide Inv, PathKeysOk, KindAt, NameOf, Str, Remove, SocketFile, Erase, SocketPath;
    var u := UnlinkSpec(w, c);
    if u != w {
      NamesOfEntry(w, c);
      SocketFileRoute(c);
      if SocketPath(c) {
        SocketFileGone(w, c);
        EraseTable(w.net, Str(c));
        PathRemoved(w.tree, u.tree, w.net, u.net, c);
      } else {
        KindsOfEntries(c);
        OtherRemoval(w, c, false);
        UntouchedKeeps(w, u);
      }
    }
  }

  lemma NamesOfEntry(w: World, c: Path)
    requires Inv(w) && c in w.tree && c != []
    ensures AllNames(c)
  {
  }

  // ----- Every call, every run -----

  lemma {:induction false} CallKeepsPathKeys(w: World, a: Action, ans: Answers)
    requires Inv(w) && PathKeysOk(w.tree, w.net) && Allowed(w, a, ans)
    ensures var u := Do(w, a, ans); PathKeysOk(u.tree, u.net)
  {
    hide Inv, PathKeysOk, Untouched, OpenSpec, ReadSpec, WriteSpec, CloseSpec, MknodSpec, MkdirSpec, UnlinkSpec,
         RmdirSpec, KindAt, FreshAnswer;
    match a
    case Mknod(c) => MknodPathKeys(w, c, ans);
    case Unlink(c) => UnlinkPathKeys(w, c);
    case Mkdir(c) =>
      MkdirUntouched(w, c, ans);
      UntouchedKeeps(w, MkdirSpec(w, c, ans));
    case Rmdir(c) =>
      RmdirUntouched(w, c);
      UntouchedKeeps(w, RmdirSpec(w, c));
    case OpenFile(c) =>
      OpenUntouched(w, c, ans);
      UntouchedKeeps(w, OpenSpec(w, c, ans).w);
    case Read(h, size, _) =>
      ReadUntouched(w, h, size, ans);
      UntouchedKeeps(w, ReadSpec(w, h, size, ans).w);
    case Write(h, text, _) =>
      WriteUntouched(w, h, text, ans);
      UntouchedKeeps(w, WriteSpec(w, h, text, ans).w);
    case Truncate(_, _) =>
    case Close(h) => CloseSpecUntouched(w, h); SameTable(w.tree, w.net, CloseSpec(w, h).net);
    case Outside(states) => SameTable(w.tree, w.net, Do(w, a, ans).net);
  }

  lemma SameTable(t: Shape, n: Net, m: Net)
    requires PathKeysOk(t, n) && m.table == n.table
    ensures PathKeysOk(t, m)
  {
  }

  lemma {:induction false} RunKeepsPathKeys(w: World, run: seq<Call>)
    requires Inv(w) && PathKeysOk(w.tree, w.net) && AllowedRun(w, run)
    ensures var u := Exec(w, run); PathKeysOk(u.tree, u.net)
    decreases run
  {
    hide Inv, PathKeysOk, Do;
    if run != [] {
      CallKeeps(w, run[0].a, run[0].ans);
      CallKeepsPathKeys(w, run[0].a, run[0].ans);
      RunKeepsPathKeys(Do(w, run[0].a, run[0].ans), run[1..]);
    }
  }

  /**
   Over every run, a path is a key of the table exactly when a client or server file is there: no socket is held under
   a path that is gone, and no such file is without one.
   */
  lemma PathKeysAreFiles(run: seq<Call>, c: Path)
    requires AllowedRun(START(), run) && c != [] && AllNames(c)
    ensures var w := Exec(START(), run);
            && (Str(c) in w.net.table <==>
                  c in w.tree && !w.tree[c].isDir && (KindAt(c, false) == Client || KindAt(c, false) == Server))
            && forall k :: k in w.net.table && PathKey(k) ==> exists e :: SocketFile(w.tree, e) && k == Str(e)
  {
    hide Inv, KindAt, Str, Exec, AllowedRun;
    StartIsGood();
    StartPathKeys();
    RunKeeps(START(), run);
    RunKeepsPathKeys(START(), run);
    var w := Exec(START(), run);
    SocketFileRoute(c);
    PathIsPathKey(c);
    if Str(c) in w.net.table {
      var e :| SocketFile(w.tree, e) && Str(c) == Str(e);
      NamesOfEntry(w, e);
      StrInjective(c, e);
    }
  }

  lemma PathIsPathKey(c: Path)
    ensures PathKey(Str(c))
  {
  }

  lemma StartPathKeys()
    ensures PathKeysOk(START().tree, START().net)
  {
  }
}

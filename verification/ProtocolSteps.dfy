/**
 Every allowed call keeps the protocol invariant.
 */
module ProtocolSteps {
  import opened Options
  import opened Decimal
  import opened Paths
  import opened FlatTree
  import opened Routes
  import opened Sessions
  import opened FdTable
  import opened Requests
  import opened Protocol
  import opened ProtocolInvariant

  // ----- A new session -----

  /** Adding a session leaves the others and adds just this one. */
  lemma SessionAdded(t: Shape, n: nat, current: nat)
    requires TreeOk(t) && SessionsOk(t, current) && TCP in t && t[TCP].isDir && DirOf(Dec(n)) !in t && n <= current
    ensures var u := WithSession(t, Dec(n));
            && TreeOk(u) && SessionsOk(u, current)
            && FileOf(Dec(n), Ctl) in u && !u[FileOf(Dec(n), Ctl)].isDir
            && (forall m :: HasSession(u, m) <==> m == n || HasSession(t, m))
  {
    hide KindAt, NameOf, IsNumeral, Canonical, Val, Dec, WithFiles;
    var d := Dec(n);
    DecIsNumeral(n);
    SessionCreation(t, d, None);
    var u := WithSession(t, d);
    forall c | c in u && c != [] ensures AllNames(c) && u[c].ops == NameOf(KindAt(c, u[c].isDir)) {
      AddedEntry(t, d, c);
    }
    AddedEntry(t, d, FileOf(d, Ctl));
    assert FileNo(1) == Ctl;
    forall e | DirOf(e) in u && u[DirOf(e)].isDir && IsNumeral(e) ensures GoodSession(u, e, current) {
      AddedEntry(t, d, DirOf(e));
      if e != d {
        assert GoodSession(t, e, current);
        AddedEntry(t, d, FileOf(e, Ctl));
      }
    }
    forall m ensures HasSession(u, m) <==> m == n || HasSession(t, m) {
      AddedEntry(t, d, DirOf(Dec(m)));
      if Dec(m) == Dec(n) {
        DecInjective(m, n);
      }
    }
  }

  /** What WithSession holds at c. */
  lemma AddedEntry(t: Shape, d: string, c: Path)
    requires IsNumeral(d)
    ensures var u := WithSession(t, d);
            && (c in u <==> c in t || c == DirOf(d) || exists j: nat :: j < 5 && c == FileOf(d, FileNo(j)))
            && (c == DirOf(d) ==> u[c] == Info(true, NameOf(KindAt(c, true))) && AllNames(c))
            && (forall j: nat :: j < 5 && c == FileOf(d, FileNo(j)) ==>
                  c in u && u[c] == Info(false, NameOf(KindAt(c, false))) && AllNames(c))
            && (c in t && c != DirOf(d) && (forall j: nat :: j < 5 ==> c != FileOf(d, FileNo(j))) ==> u[c] == t[c])
  {
    hide KindAt, NameOf, IsNumeral, WithFiles;
    DirOfNumeral(d);
    var t1 := t[DirOf(d) := Info(true, NameOf(SessionDir))];
    WithFilesHas(t1, d, 0, c);
    forall j: nat | j < 5 && c == FileOf(d, FileNo(j))
      ensures c in WithSession(t, d) && WithSession(t, d)[c] == Info(false, NameOf(KindAt(c, false))) && AllNames(c)
    {
      SessionFileRoute(d, FileNo(j));
      NumeralIsName(d);
      FileTextIsName(FileNo(j));
      assert IsName("tcp");
    }
    forall j: nat | j < 5 ensures DirOf(d) != FileOf(d, FileNo(j)) {
    }
  }

  /** Creating the current session. */
  lemma SessionCreated(w: World)
    requires Inv(w) && CLONE in w.tree && DirOf(Dec(w.current)) !in w.tree
    ensures var u := WithSession(w.tree, Dec(w.current));
            && FileOf(Dec(w.current), Ctl) in u && !u[FileOf(Dec(w.current), Ctl)].isDir
            && SessionsOk(u, w.current) && TreeOk(u) && HasSession(u, w.current)
            && TableOk(u, w.net) && HandlesOk(u, w.handles, w.last)
            && forall n: nat :: HasSession(u, n) && n <= INT_MAX && n != w.current ==> n in w.handed
  {
    hide KindAt, NameOf, IsNumeral, Canonical, Val, Dec, WithSession;
    assert Parent(CLONE) == TCP;
    SessionAdded(w.tree, w.current, w.current);
    var u := WithSession(w.tree, Dec(w.current));
    forall k | k in w.net.table && SessionKey(w.tree, k) ensures SessionKey(u, k) {
      var n :| k == Dec(n) && HasSession(w.tree, n);
      assert HasSession(u, n);
    }
    forall h | h in w.handles && w.handles[h].CtlOp? ensures HasSession(u, w.handles[h].n) {
      assert HasSession(w.tree, w.handles[h].n);
    }
  }

  lemma CtlMeansSession(w: World, n: nat)
    requires Inv(w) && FileOf(Dec(n), Ctl) in w.tree
    ensures HasSession(w.tree, n)
  {
    assert Parent(FileOf(Dec(n), Ctl)) == DirOf(Dec(n));
  }

  lemma SessionIsGood(w: World, n: nat)
    requires Inv(w) && HasSession(w.tree, n)
    ensures n <= w.current && FileOf(Dec(n), Ctl) in w.tree && !w.tree[FileOf(Dec(n), Ctl)].isDir
  {
    DecIsNumeral(n);
    assert GoodSession(w.tree, Dec(n), w.current);
  }

  /** The invariant, except that the current session may be there without its number having been handed out. */
  ghost predicate Ready(w: World) {
    && TreeOk(w.tree) && SessionsOk(w.tree, w.current) && TableOk(w.tree, w.net)
    && HandlesOk(w.tree, w.handles, w.last) && ConnsOk(w.handles, w.net) && Steps(w.handed)
    && (if w.handed == [] then w.current == 0
        else w.current == w.handed[|w.handed| - 1] || w.current == w.handed[|w.handed| - 1] + 1)
    && forall n: nat :: HasSession(w.tree, n) && n <= INT_MAX && n != w.current ==> n in w.handed
  }

  lemma ReadyIsInv(w: World)
    requires Ready(w) && (HasSession(w.tree, w.current) ==> w.current > INT_MAX)
    ensures Inv(w)
  {
  }

  function HandedOut(w: World): World {
    w.(handles := w.handles[w.last + 1 := CloneOp(w.last + 2)][w.last + 2 := CtlOp(w.current, false)],
       last := w.last + 2, handed := w.handed + [w.current])
  }

  /** Handing out the current number, with a clone handle and its control handle. */
  lemma HandOut(w: World)
    requires Ready(w) && HasSession(w.tree, w.current)
    ensures Inv(HandedOut(w))
  {
    hide TreeOk, SessionsOk, TableOk;
    var u := HandedOut(w);
    forall n: nat | HasSession(u.tree, n) && n <= INT_MAX ensures n in u.handed {
      if n == w.current {
        assert u.handed[|w.handed|] == n;
      }
    }
    NewHandlesOk(w);
  }

  lemma NewHandlesOk(w: World)
    requires HandlesOk(w.tree, w.handles, w.last) && ConnsOk(w.handles, w.net) && HasSession(w.tree, w.current)
    ensures HandlesOk(w.tree, HandedOut(w).handles, w.last + 2) && ConnsOk(HandedOut(w).handles, w.net)
  {
    hide HasSession;
  }

  /** What an allocation of the current number does, whether or not something throws on the way. */
  ghost predicate AllocEffect(w: World, o: Opened) {
    && o.w.current == w.current && o.w.net == w.net && w.last <= o.w.last
    && (o.h.None? ==> o.w.handles == w.handles && o.w.handed == w.handed)
    && (o.h.Some? ==>
          && o.h == Some(w.last + 1) && o.w.last == w.last + 2
          && o.w.handles == w.handles[w.last + 1 := CloneOp(w.last + 2)][w.last + 2 := CtlOp(w.current, false)]
          && o.w.handed == w.handed + [w.current] && HasSession(o.w.tree, w.current))
  }

  lemma AllocateKeeps(w: World, ans: Answers)
    requires Inv(w) && CLONE in w.tree
    ensures Inv(Allocate(w, w.current, ans).w) && AllocEffect(w, Allocate(w, w.current, ans))
  {
    hide Dec, WithSession, HasSession;
    var n := w.current;
    if DirOf(Dec(n)) !in w.tree {
      FailedKeeps(w);
      SessionCreated(w);
      AllocateAbsent(w, ans);
    } else {
      CtlIffSession(w, n);
      AllocateIn(w, ans);
    }
  }

  lemma CtlIffSession(w: World, n: nat)
    requires Inv(w)
    ensures FileOf(Dec(n), Ctl) in w.tree <==> HasSession(w.tree, n)
    ensures FileOf(Dec(n), Ctl) in w.tree ==> !w.tree[FileOf(Dec(n), Ctl)].isDir
  {
    if FileOf(Dec(n), Ctl) in w.tree {
      CtlMeansSession(w, n);
    }
    if HasSession(w.tree, n) {
      SessionIsGood(w, n);
    }
  }

  /** The allocation when the directory is not there: it fails with nothing changed, or goes on in the new tree. */
  lemma AllocateAbsent(w: World, ans: Answers)
    requires Inv(w) && CLONE in w.tree && DirOf(Dec(w.current)) !in w.tree
    ensures Inv(Allocate(w, w.current, ans).w) && AllocEffect(w, Allocate(w, w.current, ans))
  {
    hide Dec, WithSession, TreeOk, SessionsOk, TableOk, Steps, HandlesOk, ConnsOk;
    FailedKeeps(w);
    SessionCreated(w);
    var u := w.(tree := WithSession(w.tree, Dec(w.current)));
    DirInNewTree(w.tree, w.current);
    if !Faulty(ans.hookFault, 0) {
      AllocateIn(u, ans);
      assert Allocate(w, w.current, ans) == Allocate(u, w.current, ans);
    }
  }

  lemma DirInNewTree(t: Shape, n: nat)
    ensures DirOf(Dec(n)) in WithSession(t, Dec(n))
  {
    DecIsNumeral(n);
    AddedEntry(t, Dec(n), DirOf(Dec(n)));
  }

  /** The allocation once the directory is there. */
  lemma AllocateIn(w: World, ans: Answers)
    requires Ready(w) && DirOf(Dec(w.current)) in w.tree
    requires FileOf(Dec(w.current), Ctl) in w.tree <==> HasSession(w.tree, w.current)
    requires FileOf(Dec(w.current), Ctl) in w.tree ==> !w.tree[FileOf(Dec(w.current), Ctl)].isDir
    ensures Inv(Allocate(w, w.current, ans).w) && AllocEffect(w, Allocate(w, w.current, ans))
  {
    hide Dec, WithSession, Ready, Inv, HasSession;
    if FileOf(Dec(w.current), Ctl) in w.tree && w.current <= INT_MAX {
      HandOut(w);
    } else {
      ReadyIsInv(w);
      FailedKeeps(w);
      FailedKeeps(Failed(w).w);
    }
  }

  /** Going on to the next number when the current session is in use. */
  lemma BumpKeeps(w: World)
    requires Inv(w) && w.current <= INT_MAX && Dec(w.current) in w.net.table
    ensures Inv(w.(current := w.current + 1))
    ensures !HasSession(w.tree, w.current + 1) && Dec(w.current + 1) !in w.net.table && w.current + 1 !in w.handed
    ensures w.handed != [] && w.handed[|w.handed| - 1] == w.current
  {
    hide KindAt, NameOf, IsNumeral, Canonical, Val, Dec;
    InUseMeansHanded(w);
    var i :| 0 <= i < |w.handed| && w.handed[i] == w.current;
    HandedBelowLast(w.handed, i);
    if HasSession(w.tree, w.current + 1) {
      SessionIsGood(w, w.current + 1);
    }
    NoKeyWithoutSession(w, w.current + 1);
    forall j | 0 <= j < |w.handed| ensures w.handed[j] != w.current + 1 {
      HandedBelowLast(w.handed, j);
    }
    forall d | DirOf(d) in w.tree && w.tree[DirOf(d)].isDir && IsNumeral(d)
      ensures GoodSession(w.tree, d, w.current + 1)
    {
      assert GoodSession(w.tree, d, w.current);
    }
  }

  lemma NumberKeyIsNoPath(n: nat)
    ensures !PathKey(Dec(n))
  {
    KeysDoNotCollide(n, n, Dec(n));
  }

  lemma NoKeyWithoutSession(w: World, n: nat)
    requires Inv(w)
    ensures Dec(n) in w.net.table ==> HasSession(w.tree, n)
  {
    NumberKeyIsNoPath(n);
    if Dec(n) in w.net.table {
      var m :| Dec(n) == Dec(m) && HasSession(w.tree, m);
      DecInjective(m, n);
    }
  }

  lemma InUseMeansHanded(w: World)
    requires Inv(w) && w.current <= INT_MAX && Dec(w.current) in w.net.table
    ensures w.current in w.handed
  {
    NoKeyWithoutSession(w, w.current);
  }

  // ----- Opening -----

  /** The session has a socket that is connected or listening. */
  ghost predicate InUse(net: Net, n: nat) {
    && Dec(n) in net.table && net.table[Dec(n)] in net.sockets
    && net.sockets[net.table[Dec(n)]] != Other
  }

  /** What opening clone does, whatever its nested calls meet. */
  ghost predicate CloneEffect(w: World, o: Opened) {
    && o.w.net == w.net
    && (o.w.current == w.current || (o.w.current == w.current + 1 && InUse(w.net, w.current)))
    && (o.h.None? ==> o.w.handles == w.handles && o.w.handed == w.handed)
    && (o.h.Some? ==>
          && w.last < o.h.value && o.w.last == o.h.value + 1
          && o.w.handles == w.handles[o.h.value := CloneOp(o.w.last)][o.w.last := CtlOp(o.w.current, false)]
          && o.w.handed == w.handed + [o.w.current]
          && HasSession(o.w.tree, o.w.current) && !InUse(w.net, o.w.current))
    && w.last <= o.w.last
  }

  lemma LastChange(w: World, last: int)
    requires Inv(w) && w.last <= last
    ensures Inv(w.(last := last))
  {
  }

  lemma ProbeMeans(w: World, n: nat, ans: Answers)
    requires Inv(w)
    requires ProbeSession(w, n, Established, ans).Some? && ProbeSession(w, n, Listening, ans).Some?
    ensures ProbeSession(w, n, Established, ans).value || ProbeSession(w, n, Listening, ans).value <==> InUse(w.net, n)
    ensures n <= INT_MAX
  {
  }

  /** An allocation that follows the probes, possibly of the next number, has the effect of an open of clone. */
  lemma AllocIsCloneEffect(w: World, u: World, o: Opened)
    requires AllocEffect(u, o) && u.net == w.net && u.handles == w.handles && u.handed == w.handed && w.last <= u.last
    requires u.current == w.current || (u.current == w.current + 1 && InUse(w.net, w.current))
    requires !InUse(w.net, u.current)
    ensures CloneEffect(w, o)
  {
    hide HasSession, InUse;
  }

  lemma OpenCloneKeeps(w: World, ans: Answers)
    requires Inv(w) && CLONE in w.tree
    ensures Inv(OpenClone(w, ans).w) && CloneEffect(w, OpenClone(w, ans))
  {
    hide Inv, Dec, HasSession, Allocate, AllocEffect;
    var n := w.current;
    if FileOf(Dec(n), Ctl) !in w.tree {
      AllocateKeeps(w, ans);
      NotInUseWithoutCtl(w, n);
      AllocIsCloneEffect(w, w, Allocate(w, n, ans));
    } else {
      FailedKeeps(w);
      FailedKeeps(Failed(w).w);
      var a, b := ProbeSession(w, n, Established, ans), ProbeSession(w, n, Listening, ans);
      if a.Some? && b.Some? {
        ProbeMeans(w, n, ans);
        LastChange(w, w.last + 2);
        var probed := w.(last := w.last + 2);
        if a.value || b.value {
          BumpKeeps(probed);
          AllocateKeeps(probed.(current := n + 1), ans);
          AllocIsCloneEffect(w, probed.(current := n + 1), OpenClone(w, ans));
        } else {
          AllocateKeeps(probed, ans);
          AllocIsCloneEffect(w, probed, OpenClone(w, ans));
        }
      }
    }
  }

  lemma NotInUseWithoutCtl(w: World, n: nat)
    requires Inv(w) && FileOf(Dec(n), Ctl) !in w.tree
    ensures !InUse(w.net, n)
  {
    NoKeyWithoutSession(w, n);
    if HasSession(w.tree, n) {
      SessionIsGood(w, n);
    }
  }

  lemma CtlPathIsSession(w: World, c: Path)
    requires Inv(w) && c in w.tree && !w.tree[c].isDir && c != [] && KindAt(c, false) == File(Ctl)
    ensures CtlNumber(Str(c)).Some? ==> HasSession(w.tree, CtlNumber(Str(c)).value)
  {
    hide KindAt, CtlNumber, DirNumber, NameOf, Str, Dec;
    assert AllNames(c);
    SessionFileRouteOnly(c, Ctl);
    var d := c[1];
    assert Parent(c) == DirOf(d);
    assert GoodSession(w.tree, d, w.current);
    SessionStrings(d, Ctl);
    KeysAgreeIff(d, Ctl);
    CanonicalIsDec(d);
  }

  lemma OpenSpecKeeps(w: World, c: Path, ans: Answers)
    requires Inv(w) && FreshAnswer(w.net, ans)
    ensures Inv(OpenSpec(w, c, ans).w)
  {
    hide Inv, KindAt, CtlNumber, DirNumber, OpenClone, Str;
    if c in w.tree && !w.tree[c].isDir {
      RootIsDir(w);
      FailedKeeps(w);
      match KindAt(c, false)
      case Clone =>
        CloneIsThere(w, c);
        OpenCloneKeeps(w, ans);
      case FileDefault => RegisterKeeps(w, Plain);
      case File(Ctl) =>
        CtlPathIsSession(w, c);
        if CtlNumber(Str(c)).Some? {
          RegisterKeeps(w, CtlOp(CtlNumber(Str(c)).value, false));
        }
      case File(Listen) => RegisterKeeps(w, ListenOp(Str(c), false));
      case File(_) => OpenSocketOpKeeps(w, DirNumber(Str(c)));
      case Client => OpenSocketOpKeeps(w, Some(Str(c)));
      case Server =>
        if Str(c) in w.net.table && ans.fd.Some? {
          OpenKeeps(w, ans.fd.value, Established);
          RegisterKeeps(w.(net := OpenSocket(w.net, ans.fd.value, Established)), ConnOp(ans.fd.value));
        }
      case _ =>
    }
  }

  lemma RootIsDir(w: World)
    requires Inv(w)
    ensures [] in w.tree && w.tree[[]].isDir
  {
  }

  lemma CloneIsThere(w: World, c: Path)
    requires Inv(w) && c in w.tree && !w.tree[c].isDir && KindAt(c, false) == Clone
    ensures CLONE in w.tree
  {
    assert c != [];
    RouteOfNames(c);
  }

  lemma OpenSocketOpKeeps(w: World, key: Option<string>)
    requires Inv(w)
    ensures Inv(OpenSocketOp(w, key).w)
  {
    FailedKeeps(w);
    if key.Some? && key.value in w.net.table {
      RegisterKeeps(w, SocketOp(w.net.table[key.value]));
    }
  }

  // ----- Reading and writing -----

  lemma ReadCtlKeeps(w: World, h: int, size: nat)
    requires Inv(w)
    ensures Inv(ReadCtl(w, h, size).w)
  {
    hide Inv, Dec;
    if h in w.handles && w.handles[h].CtlOp? {
      ToldKeeps(w, h);
    }
  }

  lemma WriteCtlKeeps(w: World, h: int, text: string, ans: Answers)
    requires Inv(w) && FreshAnswer(w.net, ans)
    ensures Inv(WriteCtl(w, h, text, ans).w)
  {
    hide Dec, Interpret;
    if h in w.handles && w.handles[h].CtlOp? {
      var n := w.handles[h].n;
      RequestIsIsolated(w.net, n, text, ans);
      assert HasSession(w.tree, n);
      NetKeyChange(w, Interpret(w.net, n, text, ans).net, Dec(n));
    }
  }

  /** The clone handle an accept opened, closed again: only its two handles went through. */
  lemma CloseAfterClone(w: World, o: Opened)
    requires Inv(w) && Inv(o.w) && CloneEffect(w, o) && o.h.Some?
    ensures var u := CloseSpec(o.w, o.h.value);
            && Inv(u) && u.handles == w.handles && u.net == w.net && u.tree == o.w.tree && u.current == o.w.current
            && u.handed == o.w.handed && u.last == o.w.last
  {
    hide TreeOk, SessionsOk, TableOk, NumbersOk, HasSession, InUse;
    var h, c := o.h.value, o.w.last;
    assert h !in w.handles && c !in w.handles;
    NotOwnedByOther(w, o);
    CloseKeeps(o.w, h);
    assert o.w.handles - {h, c} == w.handles;
  }

  lemma NotOwnedByOther(w: World, o: Opened)
    requires Inv(w) && CloneEffect(w, o) && o.h.Some?
    ensures !ClosingHandle(o.w, o.h.value)
  {
    hide TreeOk, SessionsOk, TableOk, NumbersOk, HasSession, InUse;
    var h := o.h.value;
    forall g | g in o.w.handles ensures o.w.handles[g] != CloneOp(h) {
      if g in w.handles && w.handles[g].CloneOp? {
        assert w.handles[g].ctl in w.handles;
      }
    }
  }

  lemma AcceptedKeeps(w: World, h: int, path: string, fd: int, size: nat, ans: Answers)
    requires Inv(w) && Unheld(w.net, fd) && h in w.handles && w.handles[h].ListenOp?
    requires forall g :: g in w.handles && w.handles[g].ConnOp? ==> w.handles[g].fd != fd
    ensures Inv(AcceptedSpec(w, h, path, fd, size, ans).w)
  {
    hide Inv, Dec, OpenClone, CloseSpec, HasSession, InUse;
    if CLONE in w.tree && !w.tree[CLONE].isDir {
      OpenCloneKeeps(w, ans);
      var o := OpenClone(w, ans);
      if o.h.None? {
        DropKeeps(o.w, fd);
      } else {
        CloseAfterClone(w, o);
        var u := CloseSpec(o.w, o.h.value);
        DropKeeps(u, fd);
        InsertUnheld(u, o.w.current, fd);
        var v := u.(net := FdTable.Insert(u.net, Dec(o.w.current), fd));
        ListenKeeps(v, h, path);
      }
    } else {
      DropKeeps(w, fd);
    }
  }

  /** Putting an open socket that nobody holds in a session's place. */
  lemma InsertUnheld(w: World, n: nat, fd: int)
    requires Inv(w) && HasSession(w.tree, n) && Unheld(w.net, fd)
    requires forall g :: g in w.handles && w.handles[g].ConnOp? ==> w.handles[g].fd != fd
    ensures Inv(w.(net := FdTable.Insert(w.net, Dec(n), fd)))
  {
    hide Dec, TreeOk, SessionsOk, HandlesOk, NumbersOk;
    var m := FdTable.Insert(w.net, Dec(n), fd);
    InsertKeepsOwned(w.net, Dec(n), fd);
    forall k | k in m.table ensures PathKey(k) || SessionKey(w.tree, k) {
      if k != Dec(n) {
        assert k in w.net.table;
      }
    }
    forall g | g in w.handles && w.handles[g].ConnOp? ensures Unheld(m, w.handles[g].fd) {
      assert Unheld(w.net, w.handles[g].fd);
    }
  }

  lemma AcceptKeeps(w: World, h: int, path: string, once: bool, size: nat, ans: Answers)
    requires Inv(w) && FreshAnswer(w.net, ans) && h in w.handles && w.handles[h].ListenOp?
    ensures Inv(AcceptSpec(w, h, path, once, size, ans).w)
  {
    hide Inv, AcceptedSpec, DirNumber;
    if ans.fd.Some? {
      OpenKeeps(w, ans.fd.value, Established);
      AcceptedKeeps(w.(net := OpenSocket(w.net, ans.fd.value, Established)), h, path, ans.fd.value, size, ans);
    }
  }

  lemma ReadKeeps(w: World, h: int, size: nat, ans: Answers)
    requires Inv(w) && FreshAnswer(w.net, ans)
    ensures Inv(ReadSpec(w, h, size, ans).w)
  {
    hide Inv, AcceptSpec, ReadCtl;
    if h in w.handles {
      match w.handles[h]
      case CtlOp(_, _) => ReadCtlKeeps(w, h, size);
      case CloneOp(ctl) => ReadCtlKeeps(w, ctl, size);
      case ListenOp(path, once) => AcceptKeeps(w, h, path, once, size, ans);
      case _ =>
    }
  }

  lemma WriteKeeps(w: World, h: int, text: string, ans: Answers)
    requires Inv(w) && FreshAnswer(w.net, ans)
    ensures Inv(WriteSpec(w, h, text, ans).w)
  {
    hide Inv, WriteCtl;
    if h in w.handles {
      match w.handles[h]
      case CtlOp(_, _) => WriteCtlKeeps(w, h, text, ans);
      case CloneOp(ctl) => WriteCtlKeeps(w, ctl, text, ans);
      case _ =>
    }
  }

  // ----- Creating and removing -----

  lemma AddKeeps(w: World, c: Path, isDir: bool)
    requires Inv(w) && Creatable(w, c) && AllNames(c) && c !in w.tree
    requires isDir ==> KindAt(c, true) != SessionDir
    ensures Inv(AddTo(w, c, isDir))
  {
    hide KindAt, NameOf;
    NewEntryKeeps(w.tree, c, isDir, w.current);
    TreeChange(w, w.tree[c := Info(isDir, NameOf(KindAt(c, isDir)))]);
  }

  lemma StrIsPathKey(c: Path)
    ensures PathKey(Str(c))
  {
  }

  lemma MknodKeeps(w: World, c: Path, ans: Answers)
    requires Inv(w) && FreshAnswer(w.net, ans) && c != [] && AllNames(c) && c !in w.tree
    ensures Inv(MknodSpec(w, c, ans))
  {
    hide Inv, KindAt, AddTo, Str, SetUp, FreshAnswer;
    if Creatable(w, c) {
      AddKeeps(w, c, false);
      StrIsPathKey(c);
      AddedNet(w, c);
      SetUpKeeps(w, Str(c), Established, ans);
      SetUpKeeps(w, Str(c), Listening, ans);
      SetUpKeeps(AddTo(w, c, false), Str(c), Established, ans);
      SetUpKeeps(AddTo(w, c, false), Str(c), Listening, ans);
    }
  }

  lemma AddedNet(w: World, c: Path)
    ensures AddTo(w, c, false).net == w.net
  {
  }

  lemma RoomForClone(w: World)
    requires Inv(w) && TCP !in w.tree
    ensures var u := AddTo(w, TCP, true);
            Creatable(u, CLONE) && AllNames(CLONE) && CLONE !in u.tree
  {
    hide SessionsOk, TableOk, HandlesOk, ConnsOk, NumbersOk, KindAt, NameOf, Str;
    assert Parent(CLONE) == TCP;
    assert IsName("tcp") && IsName("clone");
  }

  lemma MkdirKeeps(w: World, c: Path, ans: Answers)
    requires Inv(w) && c != [] && AllNames(c) && c !in w.tree && KindAt(c, true) != SessionDir
    ensures Inv(MkdirSpec(w, c, ans))
  {
    hide Inv, KindAt, AddTo, WithSession;
    if Creatable(w, c) {
      AddKeeps(w, c, true);
      if KindAt(c, true) == TcpDir {
        RouteOfNames(c);
        RoomForClone(w);
        AddKeeps(AddTo(w, c, true), CLONE, false);
      }
    }
  }

  lemma UnlinkKeeps(w: World, c: Path)
    requires Inv(w)
    ensures Inv(UnlinkSpec(w, c))
  {
    hide KindAt, NameOf, Str, Remove;
    if Creatable(w, c) && c in w.tree && !w.tree[c].isDir && KindAt(c, false) != File(Ctl) {
      forall d | IsNumeral(d) && DirOf(d) in w.tree && w.tree[DirOf(d)].isDir ensures SparesSession(c, d) {
        FileSparesSessions(w.tree, c, w.current, d);
      }
      RemovalKeeps(w.tree, c, w.current);
      TreeChange(w, Remove(w.tree, c));
      StrIsPathKey(c);
      EraseKeepsInv(w.(tree := Remove(w.tree, c)), Str(c));
    }
  }

  /** Removing a session nobody holds a control handle on. */
  lemma SessionGone(w: World, n: nat)
    requires Inv(w) && HasSession(w.tree, n)
    requires forall h :: h in w.handles && w.handles[h].CtlOp? ==> w.handles[h].n != n
    ensures Inv(w.(tree := Remove(w.tree, DirOf(Dec(n))), net := Erase(w.net, Dec(n))))
  {
    hide KindAt, NameOf, IsNumeral, Canonical, Val, Dec;
    var c, u, m := DirOf(Dec(n)), Remove(w.tree, DirOf(Dec(n))), Erase(w.net, Dec(n));
    RemoveKeepsClosed(w.tree, c);
    forall k ensures HasSession(u, k) <==> HasSession(w.tree, k) && k != n {
      if Dec(k) == Dec(n) {
        DecInjective(k, n);
      } else {
        assert DirOf(Dec(k))[1] != c[1];
      }
    }
    forall d | DirOf(d) in u && u[DirOf(d)].isDir && IsNumeral(d) ensures GoodSession(u, d, w.current) {
      assert GoodSession(w.tree, d, w.current);
      assert DirOf(d)[1] == d && FileOf(d, Ctl)[1] == d;
      assert DirOf(d) != c;
    }
    EraseIsIsolated(w.net, Dec(n));
    forall k | k in m.table ensures PathKey(k) || SessionKey(u, k) {
      assert k in w.net.table && k != Dec(n);
      if SessionKey(w.tree, k) {
        var j :| k == Dec(j) && HasSession(w.tree, j);
        assert HasSession(u, j);
      }
    }
    forall h | h in w.handles && w.handles[h].ConnOp? ensures Unheld(m, w.handles[h].fd) {
      assert Unheld(w.net, w.handles[h].fd);
    }
  }

  lemma RmdirKeeps(w: World, c: Path)
    requires Inv(w)
    requires forall h, n, told :: h in w.handles && w.handles[h] == CtlOp(n, told) ==> c != DirOf(Dec(n))
    ensures Inv(RmdirSpec(w, c))
  {
    hide KindAt, NameOf, Str, Remove, DirNumber, Dec, Val, Canonical, IsNumeral;
    if Creatable(w, c) && c in w.tree && w.tree[c].isDir {
      assert AllNames(c);
      RouteOfNames(c);
      if KindAt(c, true) == SessionDir {
        var d := c[1];
        assert c == DirOf(d);
        assert GoodSession(w.tree, d, w.current);
        CanonicalIsDec(d);
        SessionStrings(d, Ctl);
        KeysAgreeIff(d, Ctl);
        forall h | h in w.handles && w.handles[h].CtlOp? ensures w.handles[h].n != Val(d) {
          assert w.handles[h] == CtlOp(w.handles[h].n, w.handles[h].told);
        }
        SessionGone(w, Val(d));
      } else if KindAt(c, true) != TcpDir {
        forall d | IsNumeral(d) && DirOf(d) in w.tree && w.tree[DirOf(d)].isDir ensures SparesSession(c, d) {
          DirSparesSessions(w.tree, c, w.current, d);
        }
        RemovalKeeps(w.tree, c, w.current);
        TreeChange(w, Remove(w.tree, c));
      }
    }
  }

  // ----- All calls, all runs -----

  lemma CallKeeps(w: World, a: Action, ans: Answers)
    requires Inv(w) && Allowed(w, a, ans)
    ensures Inv(Do(w, a, ans))
  {
    hide Inv;
    match a
    case Mknod(c) => MknodKeeps(w, c, ans);
    case Mkdir(c) => MkdirKeeps(w, c, ans);
    case Unlink(c) => UnlinkKeeps(w, c);
    case Rmdir(c) => RmdirKeeps(w, c);
    case OpenFile(c) => OpenSpecKeeps(w, c, ans);
    case Read(h, size, _) => ReadKeeps(w, h, size, ans);
    case Write(h, text, _) => WriteKeeps(w, h, text, ans);
    case Truncate(_, _) =>
    case Close(h) => CloseKeeps(w, h);
    case Outside(states) => OutsideKeeps(w, states);
  }

  /** Every world a run of allowed calls reaches satisfies the invariant. */
  lemma {:induction false} RunKeeps(w: World, run: seq<Call>)
    requires Inv(w) && AllowedRun(w, run)
    ensures Inv(Exec(w, run))
    decreases run
  {
    if run != [] {
      CallKeeps(w, run[0].a, run[0].ans);
      RunKeeps(Do(w, run[0].a, run[0].ans), run[1..]);
    }
  }

  lemma StartIsGood()
    ensures Inv(START())
  {
    hide KindAt, NameOf, Str, IsNumeral;
    var t := START().tree;
    assert IsName("tcp") && IsName("clone");
    RouteOfNames(TCP);
    RouteOfNames(CLONE);
    assert Parent(CLONE) == TCP && Parent(TCP) == [];
    forall d ensures DirOf(d) in t ==> !t[DirOf(d)].isDir {
      assert DirOf(d) in t ==> DirOf(d) == CLONE;
    }
  }
}

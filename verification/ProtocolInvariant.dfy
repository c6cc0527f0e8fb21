/**
 The invariant that links the tree, the counter, the handles and the descriptor table, and
 the proof that every allowed call keeps it.
 */
module ProtocolInvariant {
  import opened Decimal
  import opened Paths
  import opened FlatTree
  import opened Routes
  import opened Sessions
  import opened FdTable
  import opened Requests
  import opened Protocol

  // ----- The invariant -----

  /** Entries have proper names and the operations their path routes to. */
  ghost predicate TreeOk(t: Shape) {
    && PrefixClosed(t)
    && forall c :: c in t && c != [] ==> AllNames(c) && t[c].ops == NameOf(KindAt(c, t[c].isDir))
  }

  /** A directory that is a session has a canonical number up to the counter, and its control file. */
  ghost predicate GoodSession(t: Shape, d: string, current: nat) {
    && Canonical(d) && Val(d) <= current
    && FileOf(d, Ctl) in t && !t[FileOf(d, Ctl)].isDir
  }

  ghost predicate SessionsOk(t: Shape, current: nat) {
    forall d :: DirOf(d) in t && t[DirOf(d)].isDir && IsNumeral(d) ==> GoodSession(t, d, current)
  }

  predicate PathKey(k: string) {
    k != "" && k[0] == '/'
  }

  ghost predicate SessionKey(t: Shape, k: string) {
    exists n :: k == Dec(n) && HasSession(t, n)
  }

  /** Table values are open and distinct; every key is a path or an existing session. */
  ghost predicate TableOk(t: Shape, net: Net) {
    Owned(net) && forall k :: k in net.table ==> PathKey(k) || SessionKey(t, k)
  }

  /**
   Handles are numbered up to `last`; control handles are on existing sessions; clones own distinct control handles.
   */
  ghost predicate HandlesOk(t: Shape, handles: map<int, Op>, last: int) {
    && (forall h :: h in handles ==> h <= last)
    && (forall h :: h in handles && handles[h].CtlOp? ==> HasSession(t, handles[h].n))
    && (forall h :: h in handles && handles[h].CloneOp? ==>
          handles[h].ctl in handles && handles[handles[h].ctl].CtlOp?)
    && (forall h, g :: h in handles && g in handles && handles[h].CloneOp? && handles[h] == handles[g] ==> h == g)
  }

  /** An accepted connection is open, its handle's own, and not in the table. */
  ghost predicate ConnsOk(handles: map<int, Op>, net: Net) {
    && (forall h :: h in handles && handles[h].ConnOp? ==> Unheld(net, handles[h].fd))
    && (forall h, g :: h in handles && g in handles && handles[h].ConnOp? && handles[h] == handles[g] ==> h == g)
  }

  /** The numbers handed out start at 0 and go up by 0 or 1. */
  ghost predicate Steps(s: seq<nat>) {
    && (s != [] ==> s[0] == 0)
    && forall i :: 0 < i < |s| ==> s[i] == s[i - 1] || s[i] == s[i - 1] + 1
  }

  ghost predicate NumbersOk(t: Shape, current: nat, handed: seq<nat>) {
    && Steps(handed)
    && (if handed == [] then current == 0
        else current == handed[|handed| - 1] || current == handed[|handed| - 1] + 1)
    && forall n: nat :: HasSession(t, n) && n <= INT_MAX ==> n in handed
  }

  ghost predicate Inv(w: World) {
    && TreeOk(w.tree)
    && SessionsOk(w.tree, w.current)
    && TableOk(w.tree, w.net)
    && HandlesOk(w.tree, w.handles, w.last)
    && ConnsOk(w.handles, w.net)
    && NumbersOk(w.tree, w.current, w.handed)
  }

  // ----- Facts -----

  lemma DecIsNumeral(n: nat)
    ensures IsNumeral(Dec(n)) && Canonical(Dec(n)) && Val(Dec(n)) == n
  {
    DecIsCanonical(n);
  }

  lemma {:induction false} HandedBelowLast(s: seq<nat>, i: nat)
    requires Steps(s) && i < |s|
    ensures s[i] <= s[|s| - 1]
    decreases |s| - i
  {
    if i + 1 < |s| {
      HandedBelowLast(s, i + 1);
    }
  }

  ghost predicate SameSessions(t: Shape, u: Shape) {
    forall n :: HasSession(t, n) <==> HasSession(u, n)
  }

  /** Changing the tree without touching a session. */
  lemma TreeChange(w: World, u: Shape)
    requires Inv(w) && TreeOk(u) && SessionsOk(u, w.current) && SameSessions(w.tree, u)
    ensures Inv(w.(tree := u))
  {
    forall k | k in w.net.table && SessionKey(w.tree, k) ensures SessionKey(u, k) {
      var n :| k == Dec(n) && HasSession(w.tree, n);
      assert HasSession(u, n);
    }
    forall h | h in w.handles && w.handles[h].CtlOp? ensures HasSession(u, w.handles[h].n) {
      assert HasSession(w.tree, w.handles[h].n);
    }
  }

  lemma SessionPathOfNumber(n: nat)
    ensures DirOf(Dec(n)) != [] && AllNames(DirOf(Dec(n))) && KindAt(DirOf(Dec(n)), true) == SessionDir
  {
    DecIsNumeral(n);
    NumeralIsName(Dec(n));
    assert IsName("tcp");
    RouteOfNames(DirOf(Dec(n)));
  }

  lemma DirOfNumeral(d: string)
    requires IsNumeral(d)
    ensures AllNames(DirOf(d)) && KindAt(DirOf(d), true) == SessionDir
  {
    NumeralIsName(d);
    assert IsName("tcp");
    RouteOfNames(DirOf(d));
  }

  /** A new entry that is not a session directory. */
  lemma NewEntryKeeps(t: Shape, c: Path, isDir: bool, current: nat)
    requires TreeOk(t) && SessionsOk(t, current)
    requires c != [] && AllNames(c) && c !in t && Parent(c) in t && t[Parent(c)].isDir
    requires isDir ==> KindAt(c, true) != SessionDir
    ensures var u := t[c := Info(isDir, NameOf(KindAt(c, isDir)))];
            TreeOk(u) && SessionsOk(u, current) && SameSessions(t, u)
  {
    hide KindAt, NameOf, IsNumeral, Canonical, Val, Dec;
    var u := t[c := Info(isDir, NameOf(KindAt(c, isDir)))];
    ChildOfParent(c);
    AddKeepsClosed(t, Parent(c), Last(c), Info(isDir, NameOf(KindAt(c, isDir))));
    forall d | DirOf(d) in u && u[DirOf(d)].isDir && IsNumeral(d) ensures GoodSession(u, d, current) {
      DirOfNumeral(d);
      assert DirOf(d) != c || !isDir;
      assert GoodSession(t, d, current);
    }
    forall n ensures HasSession(t, n) <==> HasSession(u, n) {
      SessionPathOfNumber(n);
    }
  }

  predicate SparesSession(c: Path, d: string) {
    !Below(c, DirOf(d)) && !Below(c, FileOf(d, Ctl))
  }

  /** Removing c and all below it, when neither a session nor a control file goes. */
  lemma RemovalKeeps(t: Shape, c: Path, current: nat)
    requires TreeOk(t) && SessionsOk(t, current) && c != [] && c in t
    requires forall d :: IsNumeral(d) && DirOf(d) in t && t[DirOf(d)].isDir ==> SparesSession(c, d)
    ensures TreeOk(Remove(t, c)) && SessionsOk(Remove(t, c), current) && SameSessions(t, Remove(t, c))
  {
    hide KindAt, NameOf, IsNumeral, Canonical, Val, Dec;
    RemoveKeepsClosed(t, c);
    var u := Remove(t, c);
    forall d | DirOf(d) in u && u[DirOf(d)].isDir && IsNumeral(d) ensures GoodSession(u, d, current) {
      assert GoodSession(t, d, current);
    }
    forall n ensures HasSession(t, n) <==> HasSession(u, n) {
      DecIsNumeral(n);
    }
  }

  /** A removable file is neither a session's directory nor its control file, nor above one. */
  lemma FileSparesSessions(t: Shape, c: Path, current: nat, d: string)
    requires TreeOk(t) && SessionsOk(t, current) && c != [] && c in t && !t[c].isDir
    requires KindAt(c, false) != File(Ctl)
    requires IsNumeral(d) && DirOf(d) in t && t[DirOf(d)].isDir
    ensures SparesSession(c, d)
  {
    hide KindAt, NameOf, IsNumeral, Canonical, Val, Dec;
    assert GoodSession(t, d, current);
    SessionFileRoute(d, Ctl);
    if Below(c, DirOf(d)) {
      NothingBelowFile(t, c, DirOf(d));
    }
    if Below(c, FileOf(d, Ctl)) {
      NothingBelowFile(t, c, FileOf(d, Ctl));
    }
  }

  lemma DirSparesSessions(t: Shape, c: Path, current: nat, d: string)
    requires TreeOk(t) && SessionsOk(t, current) && c != [] && c in t && t[c].isDir
    requires KindAt(c, true) != SessionDir && KindAt(c, true) != TcpDir
    requires IsNumeral(d) && DirOf(d) in t && t[DirOf(d)].isDir
    ensures SparesSession(c, d)
  {
    hide KindAt, NameOf, IsNumeral, Canonical, Val, Dec;
    assert GoodSession(t, d, current);
    DirOfNumeral(d);
    assert AllNames(c);
    RouteOfNames(c);
    PrefixOfCtl(c, d);
  }

  lemma PrefixOfCtl(c: Path, d: string)
    ensures c != [] && c <= FileOf(d, Ctl) ==> c == TCP || c == DirOf(d) || c == FileOf(d, Ctl)
    ensures c <= DirOf(d) ==> c <= FileOf(d, Ctl)
  {
    assert DirOf(d) == FileOf(d, Ctl)[..2] && TCP == FileOf(d, Ctl)[..1];
    if c <= FileOf(d, Ctl) {
      assert c == FileOf(d, Ctl)[..|c|];
    }
  }

  // ----- The table -----

  lemma NetKeyChange(w: World, m: Net, key: string)
    requires Inv(w) && OnlyKeyChanged(w.net, m, key) && (PathKey(key) || SessionKey(w.tree, key))
    ensures Inv(w.(net := m))
  {
    forall k | k in m.table ensures PathKey(k) || SessionKey(w.tree, k) {
      if k != key {
        assert Find(m, k) == Find(w.net, k);
      }
    }
    forall h | h in w.handles && w.handles[h].ConnOp? ensures Unheld(m, w.handles[h].fd) {
      assert Unheld(w.net, w.handles[h].fd);
    }
  }

  lemma SetUpKeeps(w: World, key: string, st: SockState, ans: Answers)
    requires Inv(w) && FreshAnswer(w.net, ans) && (PathKey(key) || SessionKey(w.tree, key))
    ensures Inv(w.(net := SetUp(w.net, key, st, ans)))
  {
    hide SetUp, FreshAnswer, OnlyKeyChanged;
    SetUpIsIsolated(w.net, key, st, ans);
    NetKeyChange(w, SetUp(w.net, key, st, ans), key);
  }

  lemma EraseKeepsInv(w: World, key: string)
    requires Inv(w) && (PathKey(key) || SessionKey(w.tree, key))
    ensures Inv(w.(net := Erase(w.net, key)))
  {
    EraseIsIsolated(w.net, key);
    NetKeyChange(w, Erase(w.net, key), key);
  }

  lemma OpenKeeps(w: World, fd: int, st: SockState)
    requires Inv(w) && fd !in w.net.sockets
    ensures Inv(w.(net := OpenSocket(w.net, fd, st))) && Unheld(OpenSocket(w.net, fd, st), fd)
    ensures forall h :: h in w.handles && w.handles[h].ConnOp? ==> w.handles[h].fd != fd
  {
    var m := OpenSocket(w.net, fd, st);
    forall h | h in w.handles && w.handles[h].ConnOp? ensures Unheld(m, w.handles[h].fd) {
      assert Unheld(w.net, w.handles[h].fd);
    }
  }

  /** Closing a socket that is nobody's. */
  lemma DropKeeps(w: World, fd: int)
    requires Inv(w) && (forall k :: k in w.net.table ==> w.net.table[k] != fd)
    requires forall h :: h in w.handles && w.handles[h].ConnOp? ==> w.handles[h].fd != fd
    ensures Inv(w.(net := CloseSocket(w.net, fd)))
  {
    var m := CloseSocket(w.net, fd);
    forall h | h in w.handles && w.handles[h].ConnOp? ensures Unheld(m, w.handles[h].fd) {
      assert Unheld(w.net, w.handles[h].fd);
    }
  }

  lemma OutsideKeeps(w: World, states: map<int, SockState>)
    requires Inv(w) && states.Keys == w.net.sockets.Keys
    ensures Inv(w.(net := w.net.(sockets := states)))
  {
    var m := w.net.(sockets := states);
    forall fd | fd in w.net.sockets ensures fd in m.sockets {
      assert fd in states.Keys;
    }
    forall h | h in w.handles && w.handles[h].ConnOp? ensures Unheld(m, w.handles[h].fd) {
      assert Unheld(w.net, w.handles[h].fd);
    }
  }

  // ----- Handles -----

  lemma RegisterKeeps(w: World, op: Op)
    requires Inv(w) && !op.CloneOp? && (op.CtlOp? ==> HasSession(w.tree, op.n))
    requires op.ConnOp? ==>
               && Unheld(w.net, op.fd)
               && forall h :: h in w.handles && w.handles[h].ConnOp? ==> w.handles[h].fd != op.fd
    ensures Inv(Register(w, op).w)
  {
    var u := Register(w, op).w;
    assert HandlesOk(w.tree, u.handles, u.last);
    assert ConnsOk(u.handles, u.net);
  }

  lemma FailedKeeps(w: World)
    requires Inv(w)
    ensures Inv(Failed(w).w)
  {
  }

  lemma HandlesChange(w: World, hs: map<int, Op>)
    requires Inv(w) && HandlesOk(w.tree, hs, w.last) && ConnsOk(hs, w.net)
    ensures Inv(w.(handles := hs))
  {
  }

  lemma ToldKeeps(w: World, h: int)
    requires Inv(w) && h in w.handles && w.handles[h].CtlOp?
    ensures Inv(w.(handles := w.handles[h := CtlOp(w.handles[h].n, true)]))
  {
    HandlesChange(w, w.handles[h := CtlOp(w.handles[h].n, true)]);
  }

  lemma ListenKeeps(w: World, h: int, path: string)
    requires Inv(w) && h in w.handles && w.handles[h].ListenOp?
    ensures Inv(w.(handles := w.handles[h := ListenOp(path, true)]))
  {
    HandlesChange(w, w.handles[h := ListenOp(path, true)]);
  }

  lemma FewerHandles(w: World, gone: set<int>)
    requires Inv(w)
    requires forall g :: g in w.handles && g !in gone && w.handles[g].CloneOp? ==> w.handles[g].ctl !in gone
    ensures Inv(w.(handles := w.handles - gone))
  {
    HandlesChange(w, w.handles - gone);
  }

  lemma CloneOwnsCtl(w: World, h: int, g: int)
    requires Inv(w) && h in w.handles && w.handles[h].CloneOp? && g in w.handles && g != h && w.handles[g].CloneOp?
    ensures w.handles[g].ctl != h && w.handles[g].ctl != w.handles[h].ctl
  {
    assert w.handles[w.handles[g].ctl].CtlOp?;
    assert w.handles[g] == CloneOp(w.handles[g].ctl) && w.handles[h] == CloneOp(w.handles[h].ctl);
  }

  lemma ConnIsUnheld(w: World, h: int)
    requires Inv(w) && h in w.handles && w.handles[h].ConnOp?
    ensures Unheld(w.net, w.handles[h].fd)
    ensures forall g :: g in w.handles - {h} && w.handles[g].ConnOp? ==> w.handles[g].fd != w.handles[h].fd
  {
    forall g | g in w.handles - {h} && w.handles[g].ConnOp? ensures w.handles[g].fd != w.handles[h].fd {
      assert w.handles[g] == ConnOp(w.handles[g].fd) && w.handles[h] == ConnOp(w.handles[h].fd);
    }
  }

  lemma CloseKeeps(w: World, h: int)
    requires Inv(w) && !ClosingHandle(w, h)
    ensures Inv(CloseSpec(w, h))
  {
    hide Inv;
    if h in w.handles {
      match w.handles[h]
      case CloneOp(ctl) =>
        forall g | g in w.handles && g !in {h, ctl} && w.handles[g].CloneOp? ensures w.handles[g].ctl !in {h, ctl} {
          CloneOwnsCtl(w, h, g);
        }
        FewerHandles(w, {h, ctl});
      case ConnOp(fd) =>
        ConnIsUnheld(w, h);
        FewerHandles(w, {h});
        DropKeeps(w.(handles := w.handles - {h}), fd);
      case _ =>
        FewerHandles(w, {h});
    }
  }
}

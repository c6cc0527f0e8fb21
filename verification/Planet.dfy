/**
 The running system: the linked directory tree, the type registry, the handle table, the
 descriptor table and clone's counter, with calls that re-enter the file system. Each call is
 proved to have the net effect the Protocol module gives it.
 */
module Planet {
  import opened Options
  import opened Decimal
  import opened Paths
  import opened FlatTree
  import FileData
  import FileSystem
  import PathRules
  import Poller
  import Registry
  import RequestParser
  import opened Routes
  import opened Sessions
  import opened FdTable
  import opened Requests
  import opened Protocol
  import opened ProtocolInvariant
  import opened ProtocolSteps
  import opened Files
  import opened Handles

  /** A handle's operation object and the entry it was opened on. */
  datatype Slot = Slot(op: Op, entry: FileSystem.Entry)

  ghost function OpsOf(slots: map<int, Slot>): map<int, Op> {
    map h | h in slots :: slots[h].op
  }

  lemma SameKeys(slots: map<int, Slot>)
    ensures OpsOf(slots).Keys == slots.Keys
  {
  }

  /** Every handle of a is in b, on the same entry. */
  ghost predicate SlotsStay(a: map<int, Slot>, b: map<int, Slot>) {
    forall h :: h in a ==> h in b && b[h].entry == a[h].entry
  }

  lemma SlotsStayOver(a: map<int, Slot>, b: map<int, Slot>, c: map<int, Slot>)
    requires SlotsStay(a, b) && SlotsStay(b, c)
    ensures SlotsStay(a, c)
  {
  }

  lemma SlotsStayNone(a: map<int, Slot>)
    ensures SlotsStay(a, a)
  {
  }

  lemma SlotsStayChange(a: map<int, Slot>, b: map<int, Slot>, h: int, op: Op)
    requires SlotsStay(a, b) && h in b
    ensures SlotsStay(a, b[h := b[h].(op := op)])
  {
  }

  lemma SlotsBothWays(a: map<int, Slot>, b: map<int, Slot>)
    requires SlotsStay(a, b) && b.Keys <= a.Keys
    ensures SlotsStay(b, a)
  {
  }

  /** A handle registered before, and taken back or changed after. */
  lemma SlotsStayAround(a: map<int, Slot>, h: int, slot: Slot, b: map<int, Slot>)
    requires h !in a && SlotsStay(a[h := slot], b)
    ensures SlotsStay(a, b - {h}) && h in b && b[h].entry == slot.entry
    ensures forall op :: SlotsStay(a, b[h := b[h].(op := op)])
  {
  }

  /** Handles that came and went in between leave the earlier ones as they were. */
  lemma SlotsStayBack(a: map<int, Slot>, more: map<int, Slot>, c: map<int, Slot>)
    requires SlotsStay(a, more) && SlotsStay(c, more) && a.Keys <= c.Keys
    ensures SlotsStay(a, c)
  {
  }

  /** What each call relies on, even in the middle of another one. */
  ghost predicate Base(w: World) {
    && TreeOk(w.tree) && SessionsOk(w.tree, w.current)
    && forall h :: h in w.handles ==> h <= w.last
  }

  /** The registered types route every path as Route does, and every name is registered. */
  ghost predicate Dispatching(types: seq<Registry.Reg>) {
    && (forall p, ft :: Registry.FirstMatch(types, p, ft) == Some(RegOf(Route(p, ft))))
    && (forall k :: Registry.ByName(types, NameOf(k)).Some?)
  }

  /** The type behind a registered name. */
  function KindOfName(name: string): Option<Kind> {
    if name == NameOf(FileDefault) then Some(FileDefault)
    else if name == NameOf(Clone) then Some(Clone)
    else if name == NameOf(File(Ctl)) then Some(File(Ctl))
    else if name == NameOf(File(Data)) then Some(File(Data))
    else if name == NameOf(File(Remote)) then Some(File(Remote))
    else if name == NameOf(File(Local)) then Some(File(Local))
    else if name == NameOf(File(Listen)) then Some(File(Listen))
    else if name == NameOf(Client) then Some(Client)
    else if name == NameOf(Server) then Some(Server)
    else if name == NameOf(TcpDir) then Some(TcpDir)
    else if name == NameOf(SessionDir) then Some(SessionDir)
    else if name == NameOf(DirDefault) then Some(DirDefault)
    else None
  }

  lemma KindOfItsName(k: Kind)
    ensures KindOfName(NameOf(k)) == Some(k)
  {
    hide NameOf;
    NamesDiffer(k, FileDefault);
    NamesDiffer(k, Clone);
    NamesDiffer(k, File(Ctl));
    NamesDiffer(k, File(Data));
    NamesDiffer(k, File(Remote));
    NamesDiffer(k, File(Local));
    NamesDiffer(k, File(Listen));
    NamesDiffer(k, Client);
    NamesDiffer(k, Server);
    NamesDiffer(k, TcpDir);
    NamesDiffer(k, SessionDir);
    NamesDiffer(k, DirDefault);
    match k
    case File(f) =>
      match f {
        case Ctl =>
        case Data =>
        case Remote =>
        case Local =>
        case Listen =>
      }
    case _ =>
  }

  /** The state of a fresh operation object, before its open. */
  function RawOp(k: Kind): Op {
    match k
    case Clone => CloneOp(0)
    case File(Ctl) => CtlOp(0, false)
    case File(Listen) => ListenOp("", false)
    case File(_) => SocketOp(-1)
    case Client => SocketOp(-1)
    case Server => ConnOp(-1)
    case _ => Plain
  }

  // ----- Opening clone in its three parts -----

  /** create_op: probe the current session, and go on to the next number if it is in use. */
  ghost function CreateClone(w: World, ans: Answers): (World, bool) {
    var n := w.current;
    if FileOf(Dec(n), Ctl) !in w.tree then (w, true)
    else
      match ProbeSession(w, n, Established, ans)
      case None => (Failed(w).w, false)
      case Some(connected) =>
        match ProbeSession(w, n, Listening, ans)
        case None => (Failed(Failed(w).w).w, false)
        case Some(announced) =>
          (w.(last := w.last + 2, current := if connected || announced then n + 1 else n), true)
  }

  /** mkdir of the session if it is not there. */
  ghost function MakeSession(w: World, ans: Answers): (World, bool) {
    var d := Dec(w.current);
    if DirOf(d) in w.tree then (w, true)
    else if Faulty(ans.hookFault, 0) then (w, false)
    else (w.(tree := WithSession(w.tree, d)), true)
  }

  /** Opening the session's control file. */
  ghost function OpenCtl(w: World): Opened {
    var c := FileOf(Dec(w.current), Ctl);
    if c !in w.tree || w.tree[c].isDir then Opened(w, None)
    else if w.current > INT_MAX then Failed(w)
    else Protocol.Register(w, CtlOp(w.current, false))
  }

  /** The allocation with the clone's own handle registered around the last two parts. */
  ghost function Assemble(w: World, ans: Answers): Opened {
    var h := w.last + 1;
    var s := MakeSession(Protocol.Register(w, CloneOp(0)).w, ans);
    var o := OpenCtl(s.0);
    if !s.1 then Opened(s.0.(handles := s.0.handles - {h}), None)
    else if o.h.None? then Opened(o.w.(handles := o.w.handles - {h}), None)
    else Opened(o.w.(handles := o.w.handles[h := CloneOp(o.h.value)], handed := o.w.handed + [o.w.current]), Some(h))
  }

  lemma PartsMakeAllocation(w: World, ans: Answers)
    requires forall h :: h in w.handles ==> h <= w.last
    ensures Allocate(w, w.current, ans) == Assemble(w, ans)
  {
    hide Dec, WithSession, FileOf, DirOf;
    var hs, h := w.handles, w.last + 1;
    assert hs[h := CloneOp(0)] - {h} == hs;
    assert hs[h := CloneOp(0)][h + 1 := CtlOp(w.current, false)][h := CloneOp(h + 1)]
        == hs[h := CloneOp(h + 1)][h + 1 := CtlOp(w.current, false)];
  }

  lemma PartsMakeClone(w: World, ans: Answers)
    requires forall h :: h in w.handles ==> h <= w.last
    ensures var m := CreateClone(w, ans);
            OpenClone(w, ans) == if !m.1 then Opened(m.0, None) else Assemble(m.0, ans)
  {
    hide Dec, FileOf, ProbeSession, Allocate, Assemble;
    PartsMakeAllocation(CreateClone(w, ans).0, ans);
    if FileOf(Dec(w.current), Ctl) in w.tree {
      PartsMakeAllocation(w.(last := w.last + 2), ans);
      PartsMakeAllocation(w.(last := w.last + 2, current := w.current + 1), ans);
    }
  }

  // ----- A new session for an accepted connection -----

  /** Clone opened, its number read, clone closed: the world after, and the text read if nothing threw. */
  ghost function NewSession(w: World, ans: Answers): (World, Option<string>) {
    var o := if CLONE in w.tree && !w.tree[CLONE].isDir then OpenClone(w, ans) else Opened(w, None);
    if o.h.None? then (o.w, None)
    else
      var line := Dec(o.w.current) + "\n";
      (CloseSpec(o.w, o.h.value), if |line| > CLONE_BUFFER then None else Some(line))
  }

  /** The answers of a call that has no more descriptors to get. */
  function NoMore(ans: Answers): Answers {
    ans.(fd := None, left := [])
  }

  /** Clone's open does not look at the descriptors the kernel would hand out. */
  lemma CloneIgnoresFd(w: World, ans: Answers)
    ensures OpenClone(w, NoMore(ans)) == OpenClone(w, ans)
  {
    hide Dec, WithSession;
  }

  lemma AcceptByParts(w: World, h: int, path: string, fd: int, size: nat, ans: Answers)
    requires Base(w) && h in w.handles
    ensures var s := NewSession(w, NoMore(ans));
            && AcceptedSpec(w, h, path, fd, size, ans) ==
               (if s.1.None? then DropSocket(s.0, fd)
                else if size < |s.1.value| then Protocol.Done(s.0, Result.Code(-ENAMETOOLONG))
                else Protocol.Done(s.0.(net := FdTable.Insert(s.0.net, s.1.value[..|s.1.value| - 1], fd),
                                        handles := s.0.handles[h := ListenOp(path, true)]), Text(s.1.value)))
            && (s.1.Some? ==> s.1.value != "" && h in s.0.handles)
  {
    hide Dec, OpenClone;
    CloneIgnoresFd(w, ans);
    CloneShape(w, ans);
    var line := Dec(OpenClone(w, ans).w.current) + "\n";
    assert line[..|line| - 1] == Dec(OpenClone(w, ans).w.current);
  }

  lemma SameFresh(n: Net, m: Net, ans: Answers)
    requires FreshAnswer(n, ans) && m == n
    ensures FreshAnswer(m, ans)
  {
  }

  lemma NoFdIsFresh(n: Net, ans: Answers)
    ensures FreshAnswer(n, NoMore(ans))
  {
  }

  lemma ClonePath()
    ensures AllNames(CLONE) && CLONE != [] && Str(CLONE) == "/tcp/clone"
  {
    assert IsName("tcp") && IsName("clone");
    SessionStrings("0", Ctl);
  }

  lemma OpenSpecOfClone(w: World, ans: Answers)
    requires FreshAnswer(w.net, ans)
    ensures OpenSpec(w, CLONE, ans) ==
            if CLONE in w.tree && !w.tree[CLONE].isDir then OpenClone(w, ans) else Opened(w, None)
  {
    hide OpenClone, KindAt, Str, CtlNumber, DirNumber;
    ClonePath();
    RouteOfNames(CLONE);
  }

  /** The two handles a successful open of clone leaves. */
  lemma CloneShape(w: World, ans: Answers)
    requires Base(w)
    ensures OpenClone(w, ans).w.net == w.net
    ensures var o := OpenClone(w, ans);
            o.h.Some? ==>
              && w.last < o.h.value && o.w.last == o.h.value + 1 && o.h.value in o.w.handles && o.w.last in o.w.handles
              && o.w.handles[o.h.value] == CloneOp(o.w.last) && o.w.handles[o.w.last] == CtlOp(o.w.current, false)
              && (forall h :: h in w.handles ==> h in o.w.handles && h < o.h.value)
              && (forall h :: h in w.handles ==> h in CloseSpec(o.w, o.h.value).handles)
  {
    hide Dec, WithSession, TreeOk, SessionsOk, ProbeSession;
  }

  /** Reading clone once and closing it: the reading leaves no trace. */
  lemma ReadThenClose(w: World, h: int, size: nat, ans: Answers)
    requires FreshAnswer(w.net, ans) && h in w.handles && w.handles[h] == CloneOp(w.last)
    requires w.last in w.handles && w.handles[w.last] == CtlOp(w.current, false)
    ensures var d := ReadSpec(w, h, size, ans);
            && CloseSpec(d.w, h) == CloseSpec(w, h)
            && d.r == (if |Dec(w.current) + "\n"| > size then Result.Code(-ENOBUFS) else Text(Dec(w.current) + "\n"))
            && h in d.w.handles && d.w.handles[h] == CloneOp(w.last)
            && w.last in d.w.handles && d.w.handles[w.last].CtlOp?
            && d.w.handles.Keys == w.handles.Keys
  {
    hide Dec;
    var hs := w.handles[w.last := CtlOp(w.current, true)];
    assert hs - {h, w.last} == w.handles - {h, w.last};
  }

  // ----- Opening other files in two parts -----

  ghost function InitKind(n: Net, kind: Kind, path: string, ans: Answers): (Net, Option<Op>)
    requires FreshAnswer(n, ans)
  {
    match kind
    case FileDefault => (n, Some(Plain))
    case File(Ctl) => (n, match CtlNumber(path) case None => None case Some(m) => Some(CtlOp(m, false)))
    case File(Listen) => (n, Some(ListenOp(path, false)))
    case File(_) =>
      (n, match DirNumber(path)
          case None => None
          case Some(key) => if key in n.table then Some(SocketOp(n.table[key])) else None)
    case Client => (n, if path in n.table then Some(SocketOp(n.table[path])) else None)
    case Server =>
      if path !in n.table || ans.fd.None? then (n, None)
      else (OpenSocket(n, ans.fd.value, Established), Some(ConnOp(ans.fd.value)))
    case _ => (n, None)
  }

  ghost function OpenKind(w: World, kind: Kind, path: string, ans: Answers): Opened
    requires FreshAnswer(w.net, ans)
  {
    var i := InitKind(w.net, kind, path, ans);
    var r := Protocol.Register(w.(net := i.0), if i.1.Some? then i.1.value else Plain);
    if i.1.None? then Failed(w.(net := i.0)) else r
  }

  lemma OpenByKind(w: World, c: Path, ans: Answers)
    requires FreshAnswer(w.net, ans)
    ensures OpenSpec(w, c, ans) ==
            if c !in w.tree || w.tree[c].isDir then Opened(w, None)
            else if KindAt(c, false) == Clone then OpenClone(w, ans)
            else OpenKind(w, KindAt(c, false), Str(c), ans)
  {
    hide OpenClone, CtlNumber, DirNumber, Matches, Str;
    assert KindAt(c, false) != TcpDir && KindAt(c, false) != SessionDir && KindAt(c, false) != DirDefault;
  }

  // ----- The start -----

  function Defaults(): seq<Registry.Reg> {
    [RegOf(FileDefault), RegOf(DirDefault)]
  }

  lemma DefaultsSorted()
    ensures Registry.Insert(Registry.Insert([], RegOf(FileDefault)), RegOf(DirDefault))
        == Registry.StableSort(Defaults())
    ensures Registry.StableSort(Defaults()) == Defaults()
  {
    hide Matches, NameOf;
    var a, b := RegOf(FileDefault), RegOf(DirDefault);
    assert Registry.Insert([], a) == [a];
    assert Registry.Insert([a], b) == [a] + Registry.Insert([a][1..], b);
    assert Registry.Sorted(Defaults());
    Registry.SortOfSorted(Defaults());
  }

  lemma DefaultApartFrom(k: Kind, added: seq<Registry.Reg>, i: nat)
    requires IsDefault(k) && TcpList(added) && i < 11
    ensures RegOf(k).ops.name != added[i].ops.name
  {
    hide Matches, NameOf;
    if i == 0 {
      NamesDiffer(k, k);
    } else {
      assert added[1 + (i - 1)] == RegOf(TcpKinds[i - 1]);
      NamesDiffer(k, TcpKinds[i - 1]);
    }
  }

  lemma DefaultsApart()
    ensures Registry.Apart(Defaults(), Registry.Flat(TcpPackage()))
  {
    hide Matches, NameOf, Registry.Flat, TcpPackage, RegOf, TcpList, InstallerReg, Regs, Registry.UniqueNames,
         Registry.Succeeds;
    TcpFlat();
    TcpListIs(Registry.Flat(TcpPackage()));
    var added := Registry.Flat(TcpPackage());
    TcpListHolds(added, Clone);
    forall x, y | x in Defaults() && y in added ensures x.ops.name != y.ops.name {
      var i :| 0 <= i < |added| && added[i] == y;
      DefaultApartFrom(FileDefault, added, i);
      DefaultApartFrom(DirDefault, added, i);
    }
  }

  lemma InstalledDispatches()
    ensures Dispatching(Registry.Install(Defaults(), TcpPackage()).types)
  {
    hide Matches, NameOf, Route, Registry.Install, Registry.Flat, TcpPackage, Registry.FirstMatch, Registry.ByName;
    DefaultsSorted();
    DefaultsApart();
    var types := Registry.Install(Defaults(), TcpPackage()).types;
    forall p, ft ensures Registry.FirstMatch(types, p, ft) == Some(RegOf(Route(p, ft))) {
      ClientNotDefault();
      TcpInstallRoutes(Defaults(), p, ft);
    }
    forall k ensures Registry.ByName(types, NameOf(k)).Some? {
      InstalledHas(k);
      Registry.ByNameInside(types, NameOf(k));
    }
  }

  lemma ClientNotDefault()
    ensures RegOf(Client) != RegOf(FileDefault) && RegOf(Client) != RegOf(DirDefault)
  {
    NamesDiffer(Client, FileDefault);
    NamesDiffer(Client, DirDefault);
  }

  lemma InstalledHas(k: Kind)
    ensures RegOf(k) in Registry.Install(Defaults(), TcpPackage()).types
  {
    hide Matches, NameOf, Registry.Install, Registry.Flat, TcpPackage, Registry.InsertEach, Regs;
    DefaultsSorted();
    DefaultsApart();
    TcpFlat();
    Registry.StableSortIsStable(Defaults());
    Registry.InstallEffect(Defaults(), TcpPackage());
    Registry.InsertEachFacts(Defaults(), Registry.Flat(TcpPackage()));
    TcpListIs(Registry.Flat(TcpPackage()));
    EveryKindIsRegistered(Defaults(), Registry.Flat(TcpPackage()), k);
  }

  lemma StartTree(t: Shape)
    requires t == map[[] := Info(true, "dir_ops_type")]
    ensures var hook := Create(false, "/tcp/clone", Some(NameOf(Clone)), Return(0), Return(0));
            && CreatesAbsent(t, "/tcp", true, NameOf(TcpDir), hook)
            && CreateAt(t, "/tcp", true, NameOf(TcpDir), hook) == Outcome(START().tree, true)
  {
    hide FileName, ParentPath, Comps, Str, NameOf;
    SessionStrings("0", Ctl);
    assert IsName("tcp") && IsName("clone");
    StrParts(TCP);
    StrParts(CLONE);
    assert TCP[..0] == [] && CLONE[..1] == TCP;
    assert Child([], "tcp") == TCP && Child(TCP, "clone") == CLONE;
    var t1 := t[TCP := Info(true, NameOf(TcpDir))];
    assert ParentDir(t, "/tcp") == Some([]);
    assert ParentDir(t1, "/tcp/clone") == Some(TCP);
    assert t1[CLONE := Info(false, NameOf(Clone))] == START().tree;
  }

  lemma DefaultsAreLow()
    ensures forall k :: IsDefault(k) ==> Registry.Reg(RegOf(k).ops, Registry.LOW) == RegOf(k)
  {
  }

  /** What is polled after a close: neither the handle, nor the control handle a clone owns. */
  ghost function PolledAfterClose(phs: seq<Poller.PollInfo>, handles: map<int, Op>, h: int): seq<Poller.PollInfo> {
    if h !in handles then phs
    else if handles[h].CloneOp? && handles[h].ctl in handles
      then Poller.Unregistered(Poller.Unregistered(phs, handles[h].ctl), h)
    else Poller.Unregistered(phs, h)
  }

  lemma CloseLeavesLive(w: World, phs: seq<Poller.PollInfo>, h: int)
    requires Poller.OnlyLive(phs, w.handles.Keys)
    ensures Poller.OnlyLive(PolledAfterClose(phs, w.handles, h), CloseSpec(w, h).handles.Keys)
  {
    if h in w.handles {
      Poller.UnregisteredLive(phs, h, w.handles.Keys);
      if w.handles[h].CloneOp? {
        var ctl := w.handles[h].ctl;
        Poller.UnregisteredLive(phs, ctl, w.handles.Keys);
        Poller.UnregisteredLive(Poller.Unregistered(phs, ctl), h, w.handles.Keys - {ctl});
      }
    }
  }

  /** Closing handles that are not polled leaves the poller alone. */
  lemma CloseOfNotPolled(phs: seq<Poller.PollInfo>, handles: map<int, Op>, h: int)
    requires Poller.NotPolled(phs, h)
    requires h in handles && handles[h].CloneOp? ==> Poller.NotPolled(phs, handles[h].ctl)
    ensures PolledAfterClose(phs, handles, h) == phs
  {
    Poller.UnregisterNotPolled(phs, h);
    if h in handles && handles[h].CloneOp? {
      Poller.UnregisterNotPolled(phs, handles[h].ctl);
    }
  }

  lemma InvIsBase(w: World)
    requires Inv(w)
    ensures Base(w)
  {
  }

  /** The files are the entries `loc` gives: those in the tree, and those behind the handles on default files. */
  ghost predicate Located(store: Store, loc: map<FileId, FileSystem.Entry>, tree: FileSystem.Tree,
                          slots: map<int, Slot>)
    reads loc.Values`data
  {
    && LocatedTree(store, loc, tree) && LocatedSlots(store, loc, slots) && LocatedData(store, loc)
  }

  ghost predicate LocatedTree(store: Store, loc: map<FileId, FileSystem.Entry>, tree: FileSystem.Tree) {
    && store.ids.Keys == tree.Keys
    && forall p :: p in tree ==> store.ids[p] in loc && loc[store.ids[p]] == tree[p]
  }

  ghost predicate LocatedSlots(store: Store, loc: map<FileId, FileSystem.Entry>, slots: map<int, Slot>) {
    forall h :: h in slots && slots[h].op.Plain? ==>
      h in store.bound && store.bound[h] in loc && loc[store.bound[h]] == slots[h].entry
  }

  /** Different files are different entries, with the bytes the store says. */
  ghost predicate LocatedData(store: Store, loc: map<FileId, FileSystem.Entry>)
    reads loc.Values`data
  {
    && loc.Keys == store.data.Keys
    && (forall i, j :: i in loc && j in loc && loc[i] == loc[j] ==> i == j)
    && (forall i :: i in loc ==> loc[i].data == store.data[i])
  }

  /** New files are at the entries of the new paths. */
  ghost function NextLoc(store: Store, loc: map<FileId, FileSystem.Entry>, tree: FileSystem.Tree)
    : map<FileId, FileSystem.Entry>
  {
    map i | i in loc.Keys + Born(store, FileSystem.ShapeOf(tree)) :: if i in loc then loc[i] else tree[i.path]
  }

  /** What a call that creates or removes entries, but writes no bytes, does to the entries. */
  ghost predicate TreeMoved(loc: map<FileId, FileSystem.Entry>, before: FileSystem.Tree, after: FileSystem.Tree)
    reads after.Values`data
  {
    && FileSystem.OnePath(after)
    && (forall p :: p in before && p in after ==> after[p] == before[p])
    && (forall p :: p in after && p !in before ==> after[p] !in loc.Values && after[p].data == [])
  }

  lemma NextLocValues(store: Store, loc: map<FileId, FileSystem.Entry>, tree: FileSystem.Tree)
    ensures NextLoc(store, loc, tree).Values <= loc.Values + tree.Values
    ensures forall i :: i in loc ==> i in NextLoc(store, loc, tree) && NextLoc(store, loc, tree)[i] == loc[i]
  {
    var loc' := NextLoc(store, loc, tree);
    forall e | e in loc'.Values ensures e in loc.Values + tree.Values {
      var i :| i in loc' && loc'[i] == e;
      assert i in loc ==> loc[i] == e;
      assert i !in loc ==> i.path in tree && tree[i.path] == e;
    }
  }

  /** A new file's place: its path is new, and so is its entry. */
  lemma BornApart(store: Store, loc: map<FileId, FileSystem.Entry>, before: FileSystem.Tree, after: FileSystem.Tree,
                  i: FileId)
    requires LocatedTree(store, loc, before) && TreeMoved(loc, before, after) && loc.Keys == store.data.Keys
    requires forall i :: i in store.data ==> i.birth < store.clock
    requires i in Born(store, FileSystem.ShapeOf(after))
    ensures i.path in after && i == FileId(i.path, store.clock) && i !in loc
    ensures after[i.path] !in loc.Values && after[i.path].data == []
  {
    assert i.path !in before;
  }

  lemma NextLocApart(store: Store, loc: map<FileId, FileSystem.Entry>, before: FileSystem.Tree, after: FileSystem.Tree,
                     i: FileId, j: FileId)
    requires LocatedTree(store, loc, before) && LocatedData(store, loc) && TreeMoved(loc, before, after)
    requires forall i :: i in store.data ==> i.birth < store.clock
    requires var m := NextLoc(store, loc, after); i in m && j in m && m[i] == m[j]
    ensures i == j
  {
    hide TreeMoved, LocatedTree, Born;
    assert forall k :: k in loc ==> loc[k] in loc.Values;
    if i !in loc {
      BornApart(store, loc, before, after, i);
    }
    if j !in loc {
      BornApart(store, loc, before, after, j);
    }
    TreeOnce(loc, before, after);
  }

  lemma TreeOnce(loc: map<FileId, FileSystem.Entry>, before: FileSystem.Tree, after: FileSystem.Tree)
    requires TreeMoved(loc, before, after)
    ensures forall p, q :: p in after && q in after && after[p] == after[q] ==> p == q
  {
  }

  lemma DataMoved(store: Store, loc: map<FileId, FileSystem.Entry>, before: FileSystem.Tree, after: FileSystem.Tree,
                  next: Store)
    requires LocatedTree(store, loc, before) && LocatedData(store, loc) && TreeMoved(loc, before, after)
    requires forall i :: i in store.data ==> i.birth < store.clock
    requires next.data == NextData(store, FileSystem.ShapeOf(after), None)
    ensures LocatedData(next, NextLoc(store, loc, after))
  {
    hide TreeMoved, LocatedTree, Born;
    var loc' := NextLoc(store, loc, after);
    forall i | i in Born(store, FileSystem.ShapeOf(after)) ensures i !in loc && loc'[i].data == [] {
      BornApart(store, loc, before, after, i);
    }
    forall i, j | i in loc' && j in loc' && loc'[i] == loc'[j] ensures i == j {
      NextLocApart(store, loc, before, after, i, j);
    }
  }

  lemma TreeFollows(store: Store, loc: map<FileId, FileSystem.Entry>, before: FileSystem.Tree, after: FileSystem.Tree,
                    next: Store)
    requires LocatedTree(store, loc, before) && LocatedData(store, loc) && TreeMoved(loc, before, after)
    requires forall i :: i in store.data ==> i.birth < store.clock
    requires next.ids == NextIds(store, FileSystem.ShapeOf(after))
    ensures LocatedTree(next, NextLoc(store, loc, after), after)
  {
    var loc' := NextLoc(store, loc, after);
    forall p | p in after ensures next.ids[p] in loc' && loc'[next.ids[p]] == after[p] {
      if p !in before {
        assert FileId(p, store.clock) in Born(store, FileSystem.ShapeOf(after));
      }
    }
  }

  lemma SameIds(s: Store, t: Shape)
    requires s.ids.Keys == t.Keys
    ensures NextIds(s, t) == s.ids && Born(s, t) == {}
  {
    assert forall p :: p in t <==> p in t.Keys;
  }

  lemma ChangedData(s: Store, t: Shape, change: Change)
    requires Born(s, t) == {}
    ensures var d := NextData(s, t, Some(change));
            && d.Keys == s.data.Keys
            && forall i :: i in s.data ==> d[i] == if i == change.id then Updated(s.data[i], change.u) else s.data[i]
  {
    hide Born, Updated;
  }

  /** A call that changed one file moved none. */
  lemma ChangeFollows(y: System, a: Action, ans: Answers, loc: map<FileId, FileSystem.Entry>, tree: FileSystem.Tree,
                      slots: map<int, Slot>)
    requires StoreOk(y) && FreshAnswer(y.w.net, ans) && (a.Write? || a.Truncate?) && ChangeOf(y, a).Some?
    requires Do(y.w, a, ans) == y.w
    requires LocatedTree(y.s, loc, tree) && LocatedSlots(y.s, loc, slots) && loc.Keys == y.s.data.Keys
    requires forall i, j :: i in loc && j in loc && loc[i] == loc[j] ==> i == j
    requires var change := ChangeOf(y, a).value;
             forall i :: i in loc ==>
               loc[i].data == if i == change.id then Updated(y.s.data[i], change.u) else y.s.data[i]
    ensures Located(Advance(y, a, ans).s, loc, tree, slots)
  {
    hide Do, ChangeOf, Updated, NextIds, NextData, Born, LocatedTree, LocatedSlots;
    SameIds(y.s, y.w.tree);
    ChangedData(y.s, y.w.tree, ChangeOf(y, a).value);
    var next := Advance(y, a, ans).s;
    assert next.ids == y.s.ids && next.bound == y.s.bound;
    SameLocated(y.s, next, loc, tree, slots);
  }

  lemma SameLocated(s: Store, t: Store, loc: map<FileId, FileSystem.Entry>, tree: FileSystem.Tree,
                    slots: map<int, Slot>)
    requires LocatedTree(s, loc, tree) && LocatedSlots(s, loc, slots) && t.ids == s.ids && t.bound == s.bound
    ensures LocatedTree(t, loc, tree) && LocatedSlots(t, loc, slots)
  {
  }

  class Planet {
    const fs: FileSystem.FileSystem
    const db: Registry.OpsTypeDb
    const hm: HandleManager<Slot>
    const table: Table
    const poller: Poller.FusePoller
    var currentFd: nat
    ghost var handed: seq<nat>
    ghost var store: Store                           // the files as values
    ghost var loc: map<FileId, FileSystem.Entry>     // and the entry each of them is

    ghost function State(): World
      reads this`currentFd, this`handed, fs, hm, table
    {
      World(fs.Shape(), OpsOf(hm.ops), hm.current, table.net, currentFd, handed)
    }

    ghost predicate Valid()
      reads this`currentFd, this`handed, fs, fs.tree.Values, db, hm, table, poller
    {
      && fs.Valid() && db.Valid() && hm.Valid() && Dispatching(db.types) && Base(State())
      && Poller.OnlyLive(poller.phs, hm.ops.Keys)
    }

    /** The whole system as a value: the protocol's world and the files. */
    ghost function Whole(): System
      reads this, fs, hm, table
    {
      System(State(), store)
    }

    /** Between two calls: the protocol's invariant holds, and the files are the entries they are said to be. */
    ghost predicate Running()
      reads this, fs, fs.tree.Values, db, hm, table, poller, loc.Values
    {
      && Valid() && Inv(State()) && StoreOk(Whole())
      && Located(store, loc, fs.tree, hm.ops)
    }

    /** The program's start: default types, TCP types, and "/tcp" with the clone file its hook creates. */
    constructor ()
      ensures Running() && Whole() == STARTUP() && fresh(loc.Values)
      ensures fresh(fs) && fresh(db) && fresh(hm) && fresh(table) && fresh(poller) && fresh(fs.tree.Values)
    {
      hide Running, Valid, State, START, STARTUP, FileSystem.Consistent, FileSystem.ListsOf, FileSystem.ShapeOf,
           FileSystem.NewEmpty, Registry.Survivors, Registry.StableSort;
      fs := new FileSystem.FileSystem();
      db := new Registry.OpsTypeDb();
      hm := new HandleManager<Slot>();
      table := new Table();
      poller := new Poller.FusePoller();
      currentFd := 0;
      handed := [];
      store, loc := NOTHING, map[];
      new;
      Boot();
    }

    method Boot()
      requires fs.Valid() && fs.Shape() == map[[] := Info(true, "dir_ops_type")] && FileSystem.NewEmpty(map[], fs.tree)
      requires db.Valid() && db.types == []
      requires hm.Valid() && hm.ops == map[] && hm.current == 0 && table.net == EMPTY && currentFd == 0 && handed == []
      requires poller.phs == []
      modifies this`store, this`loc, fs`tree, fs.tree.Values`entries, db
      ensures Running() && Whole() == STARTUP() && loc.Values <= fs.tree.Values
      ensures fresh(fs.tree.Values - old(fs.tree.Values))
    {
      hide Running, Valid, State, Dispatching, START, STARTUP, NextLoc, NextIds, NextData, Base, FileSystem.Consistent,
           FileSystem.NewEmpty, Registry.Survivors, Registry.StableSort;
      InstallTypes();
      MakeTcp();
      ValidAtStart();
      StartWorld();
      store, loc := STARTUP().s, NextLoc(NOTHING, map[], fs.tree);
      FilesAtStart();
    }

    lemma FilesAtStart()
      requires Valid() && State() == START() && FileSystem.NewEmpty(map[], fs.tree)
      requires store == STARTUP().s && loc == NextLoc(NOTHING, map[], fs.tree)
      ensures Running() && loc.Values <= fs.tree.Values
    {
      hide Valid, START, NextIds, NextData, NextLoc, Inv, StoreOk;
      StartupIsGood();
      TreeIsOnePath();
      DataMoved(NOTHING, map[], map[], fs.tree, store);
      TreeFollows(NOTHING, map[], map[], fs.tree, store);
      HandleKeys();
      NextLocValues(NOTHING, map[], fs.tree);
      StartWorld();
    }

    lemma StartWorld()
      ensures STARTUP().w == START() && START().handles == map[]
      ensures STARTUP().s.ids == NextIds(NOTHING, START().tree) &&
          STARTUP().s.data == NextData(NOTHING, START().tree, None)
      ensures NOTHING.data == map[] && NOTHING.ids == map[]
    {
    }

    lemma ValidAtStart()
      requires fs.Valid() && db.Valid() && hm.Valid() && Dispatching(db.types) && Base(State()) && poller.phs == []
      ensures Valid()
    {
    }

    method InstallTypes()
      requires db.Valid() && db.types == []
      modifies db
      ensures db.Valid() && Dispatching(db.types)
    {
      hide Dispatching, NameOf, Matches, TcpPackage, RegOf;
      db.RegisterOps(Registry.LOW, RegOf(FileDefault).ops);
      db.RegisterOps(Registry.LOW, RegOf(DirDefault).ops);
      DefaultsAreLow();
      DefaultsSorted();
      var installed := Registry.InstallOps(db, TcpPackage());
      InstalledDispatches();
    }

    method MakeTcp()
      requires fs.Valid() && fs.Shape() == map[[] := Info(true, "dir_ops_type")]
      requires hm.Valid() && hm.ops == map[] && hm.current == 0 && table.net == EMPTY && currentFd == 0 && handed == []
      requires FileSystem.NewEmpty(map[], fs.tree)
      modifies fs`tree, fs.tree.Values`entries
      ensures fs.Valid() && State() == START() && Base(State()) && fresh(fs.tree.Values - old(fs.tree.Values))
      ensures FileSystem.NewEmpty(map[], fs.tree)
    {
      hide NameOf, Base, Inv, CreateAt, CreatesAbsent, FileSystem.Consistent;
      StartTree(fs.Shape());
      var made := fs.CreateEntry("/tcp", true, NameOf(TcpDir),
                                 Create(false, "/tcp/clone", Some(NameOf(Clone)), Return(0), Return(0)));
      StartIsGood();
      InvIsBase(START());
      assert OpsOf(hm.ops) == map[];
    }

    // ----- The handle table -----

    method Register(op: Op, entry: FileSystem.Entry) returns (h: int)
      requires hm.Valid()
      modifies hm
      ensures hm.Valid() && h == hm.current
      ensures State() == Protocol.Register(old(State()), op).w && h == old(State()).last + 1
      ensures hm.ops == old(hm.ops)[h := Slot(op, entry)]
    {
      h := hm.RegisterOp(Slot(op, entry));
      assert OpsOf(hm.ops) == OpsOf(old(hm.ops))[h := op];
    }

    method Unregister(h: int)
      requires hm.Valid()
      modifies hm
      ensures hm.Valid() && hm.ops == old(hm.ops) - {h}
      ensures State() == old(State()).(handles := old(State()).handles - {h})
    {
      hm.UnregisterOp(h);
      assert OpsOf(hm.ops) == OpsOf(old(hm.ops)) - {h};
    }

    /** An operation object changed its own state. */
    method SetOp(h: int, op: Op)
      requires hm.Valid() && h in hm.ops
      modifies hm`ops
      ensures hm.Valid()
      ensures State() == old(State()).(handles := old(State()).handles[h := op])
      ensures hm.ops == old(hm.ops)[h := old(hm.ops)[h].(op := op)]
    {
      hm.UpdateOp(h, hm.ops[h].(op := op));
      assert OpsOf(hm.ops) == OpsOf(old(hm.ops))[h := op];
    }

    // ----- Closing -----

    /** close: run the operation's release; then, whether or not it threw, leave the poller and the handle table. */
    method Close(h: int) returns (threw: bool)
      requires hm.Valid()
      requires h in hm.ops && hm.ops[h].op.CloneOp? && hm.ops[h].op.ctl in hm.ops ==>
                 !hm.ops[hm.ops[h].op.ctl].op.CloneOp? && !hm.ops[hm.ops[h].op.ctl].op.ConnOp?
      modifies hm, table, poller
      ensures hm.Valid()
      ensures State() == CloseSpec(old(State()), h)
      ensures poller.phs == PolledAfterClose(old(poller.phs), old(State()).handles, h)
      ensures threw <==> h !in old(hm.ops) || (old(hm.ops)[h].op.CloneOp? && old(hm.ops)[h].op.ctl !in old(hm.ops))
      ensures SlotsStay(hm.ops, old(hm.ops))
      decreases h in hm.ops && hm.ops[h].op.CloneOp?
    {
      hide Poller.NotPolled, Poller.InOrder, Poller.DistinctHandles, Poller.Unregistered;
      var slot := hm.GetOpEntry(h);
      if slot.None? {
        return true;
      }
      threw := false;
      ghost var handles := State().handles;
      if slot.value.op.CloneOp? {
        var ctl := slot.value.op.ctl;
        threw := Close(ctl);
        assert handles - {ctl} - {h} == handles - {h, ctl};
      } else if slot.value.op.ConnOp? {
        table.CloseDescriptor(slot.value.op.fd);
      }
      poller.Unregister(h);
      Unregister(h);
    }

    // ----- Control requests -----

    /** The TCP state of a descriptor; None when asking for it throws. */
    function TcpState(fd: int, want: SockState, ans: Answers): Option<SockState>
      reads table
    {
      if fd in Unreadable(ans, want) || fd !in table.net.sockets then None else Some(table.net.sockets[fd])
    }

    /** ctl_op::interpret_request. */
    method InterpretRequest(num: nat, request: string, ans: Answers) returns (threw: bool, ret: int)
      requires FreshAnswer(table.net, ans)
      modifies table
      ensures Reply(table.net, threw, ret) == Interpret(old(table.net), num, request, ans)
    {
      var parser := new RequestParser.Parser();
      var parsed := parser.Parse(request);
      if !parsed {
        return false, -ENOTSUP;
      }
      var key := Dec(num);
      var socket := table.FindKey(key);
      var command := parser.GetCommand();
      if command == Some("is_connected") || command == Some("is_announced") {
        if socket.None? {
          return false, -ENOTCONN;
        }
        var want := if command == Some("is_connected") then Established else Listening;
        var st := TcpState(socket.value, want, ans);
        return st.None?, if st.None? || st.value == want then 0 else -ENOTCONN;
      } else if command == Some("connect") {
        if socket.Some? {
          var st := TcpState(socket.value, Established, ans);
          if st.None? {
            return true, 0;
          }
          if st.value == Established {
            return false, -EISCONN;
          }
        }
        var args := parser.GetArgs(',', Ipv4Port);
        if args.value == [] {
          return false, -ENOTSUP;
        }
        threw, ret := InstallSocket(key, Established, ans);
      } else if command == Some("announce") {
        var args := parser.GetArgs(',', AnyPort);
        if args.value == [] {
          return false, -ENOTSUP;
        }
        threw, ret := InstallSocket(key, Listening, ans);
      } else if command == Some("hangup") {
        table.EraseEntry(key);
        return false, 0;
      } else if command == Some("keepalive") {
        if socket.None? {
          return false, -ENOTCONN;
        }
        return ans.optFails, 0;
      } else {
        return false, -ENOTSUP;
      }
    }

    method InstallSocket(key: string, st: SockState, ans: Answers) returns (threw: bool, ret: int)
      requires FreshAnswer(table.net, ans)
      modifies table
      ensures ret == 0 && threw == ans.fd.None?
      ensures table.net == SetUp(old(table.net), key, st, ans)
    {
      StraysAreFresh(table.net, st, ans);
      table.OpenStrays(Strays(st, ans));
      if ans.fd.None? {
        return true, 0;
      }
      table.OpenDescriptor(ans.fd.value, st);
      table.InsertEntry(key, ans.fd.value);
      return false, 0;
    }

    /** ctl_op::write: success is the number of bytes. */
    method WriteCtl(h: int, text: string, ans: Answers) returns (r: Result)
      requires FreshAnswer(table.net, ans)
      modifies table
      ensures Protocol.Done(State(), r) == Protocol.WriteCtl(old(State()), h, text, ans)
    {
      if h !in hm.ops || !hm.ops[h].op.CtlOp? {
        return Threw;
      }
      var threw, ret := InterpretRequest(hm.ops[h].op.n, text, ans);
      r := if threw then Threw else Result.Code(if ret == 0 then |text| else ret);
    }

    /** A live handle on a default file. */
    predicate IsFile(h: int)
      reads hm
    {
      h in hm.ops && hm.ops[h].op.Plain?
    }

    /** The entry whose bytes a write through h changes. */
    ghost function Written(h: int): set<FileSystem.Entry>
      reads hm
    {
      if IsFile(h) then {hm.ops[h].entry} else {}
    }

    /** write: default files take the bytes, control files interpret, clone passes on, listen refuses, sockets send. */
    method Write(h: int, text: string, offset: nat, ans: Answers) returns (r: Result)
      requires FreshAnswer(table.net, ans) && hm.Valid()
      modifies table, Written(h)`data
      ensures State() == WriteSpec(old(State()), h, text, ans).w
      ensures r == if IsFile(h) then Result.Code(|text|) else WriteSpec(old(State()), h, text, ans).r
      ensures IsFile(h) ==> hm.ops[h].entry.data == FileData.WriteAt(old(hm.ops[h].entry.data), text, offset)
    {
      var slot := hm.GetOpEntry(h);
      if slot.None? {
        return Threw;
      }
      match slot.value.op
      case CtlOp(_, _) => r := WriteCtl(h, text, ans);
      case CloneOp(ctl) => r := WriteCtl(ctl, text, ans);
      case ListenOp(_, _) => r := Result.Code(-EPERM);
      case Plain =>
        var size := WriteBytes(h, text, offset);
        r := Result.Code(size);
      case _ => r := Elsewhere;
    }

    // ----- Looking paths up and creating sessions -----

    lemma FindPath(c: Path)
      requires Valid() && c != [] && AllNames(c)
      ensures fs.Valid()
      ensures c in fs.tree <==> c in State().tree
      ensures fs.GetEntryOf(Str(c)) == if c in State().tree then FileSystem.Got(fs.tree[c]) else FileSystem.Null
      ensures c in fs.tree ==> State().tree[c] == Info(fs.tree[c].isDir, fs.tree[c].ops)
    {
      fs.LookupRefinesMap(Str(c));
      CompsOfStr(c);
    }

    /** get_entry_of on a path the kernel hands over: the entry, or null. */
    method Find(path: string, ghost c: Path) returns (e: FileSystem.Entry?)
      requires Valid() && c != [] && AllNames(c) && path == Str(c)
      ensures e != null ==> c in fs.tree && fs.tree[c] == e
      ensures e == null <==> c !in State().tree
      ensures e != null ==> State().tree[c] == Info(e.isDir, e.ops)
    {
      hide Base, Dispatching, Str;
      FindPath(c);
      var found := fs.GetEntryOf(path);
      e := if found.Got? then found.entry else null;
    }

    /** The session hook's five creations, each routed by the registry. */
    method BuildHook(d: string, fault: Option<nat>) returns (hook: Hook)
      requires db.Valid() && Dispatching(db.types)
      ensures hook == SessionHook(d, 0, fault)
    {
      hide Registry.FirstMatch, Route, Registry.IsBest, Registry.Survivors;
      hook := Return(0);
      var i := 5;
      while i > 0
        invariant 0 <= i <= 5
        invariant hook == SessionHook(d, i, fault)
      {
        i := i - 1;
        var path := SessionFilePath(d, FileNo(i));
        var name := db.GetNameByPath(path, Registry.Regular);
        hook := if fault == Some(i) then Throw else Create(false, path, name, Return(0), hook);
      }
    }

    /** mkdir of the current session's directory. */
    method MakeSessionDir(ans: Answers) returns (ok: bool)
      requires Valid() && CLONE in State().tree && DirOf(Dec(State().current)) !in State().tree
      modifies fs`tree, fs.tree.Values`entries
      ensures Valid() && fresh(fs.tree.Values - old(fs.tree.Values))
      ensures FileSystem.Grows(old(fs.tree), fs.tree)
      ensures (State(), ok) == MakeSession(old(State()), ans)
    {
      hide Registry.FirstMatch, Registry.IsBest, Registry.Survivors, Registry.StableSort, WithSession, Dec, Base,
           SessionHook, CreateAt, CreatesAbsent, NameOf, FileSystem.Consistent;
      var d := Dec(currentFd);
      MakeSessionFacts(State(), ans);
      SessionDirIsRouted(d);
      var name := db.GetNameByPath(SessionDirPath(d), Registry.Directory);
      var hook := BuildHook(d, ans.hookFault);
      ok := fs.CreateEntry(SessionDirPath(d), true, name.value, hook);
    }

    lemma SessionDirIsRouted(d: string)
      requires Dispatching(db.types) && exists n :: d == Dec(n)
      ensures Registry.FirstMatch(db.types, SessionDirPath(d), Registry.Directory) == Some(RegOf(SessionDir))
    {
      var n :| d == Dec(n);
      DecIsNumeral(n);
      DirOfNumeral(d);
      SessionStrings(d, Ctl);
    }

    // ----- Opening -----

    /** Where the current session's paths are. */
    lemma CurrentPaths()
      ensures var d := Dec(State().current);
              && DirOf(d) != [] && AllNames(DirOf(d)) && Str(DirOf(d)) == SessionDirPath(Dec(currentFd))
              && FileOf(d, Ctl) != [] && AllNames(FileOf(d, Ctl))
              && Str(FileOf(d, Ctl)) == SessionFilePath(Dec(currentFd), Ctl)
              && FileOf(d, Ctl) != CLONE
    {
      NumberPaths(currentFd);
    }

    /** open: find the entry, make its operation, register it, open it; on a failure the handle is taken back. */
    method Open(path: string, ghost c: Path, ans: Answers) returns (h: Option<int>)
      requires Valid() && FreshAnswer(State().net, ans) && c != [] && AllNames(c) && path == Str(c)
      modifies this`currentFd, this`handed, fs`tree, fs.tree.Values`entries, hm, table, poller
      ensures Valid() && fresh(fs.tree.Values - old(fs.tree.Values))
      ensures h.Some? ==> c in old(fs.tree) && h.value in hm.ops && hm.ops[h.value].entry == old(fs.tree)[c]
      ensures SlotsStay(old(hm.ops), hm.ops) && FileSystem.Grows(old(fs.tree), fs.tree)
      ensures poller.phs == old(poller.phs)
      ensures Opened(State(), h) == OpenSpec(old(State()), c, ans)
      decreases if c == CLONE then 3 else 0, 1
    {
      hide Valid, State, FreshAnswer, Str, KindAt, NameOf, OpenClone, OpenSpec, OpenKind, FileSystem.Grows, SlotsStay;
      FileSystem.GrowsNone(fs.tree);
      SlotsStayNone(hm.ops);
      OpenByKind(State(), c, ans);
      var entry := Find(path, c);
      if entry == null || entry.isDir {
        return None;
      }
      RoutedByTree(c);
      var kind := TypeOf(entry, KindAt(c, false));
      if kind == Clone {
        h := OpenTheClone(entry, ans);
      } else {
        h := OpenOther(kind, entry, path, ans);
      }
    }

    /** Opening clone: its create_op first, then its open around a handle of its own. */
    method OpenTheClone(entry: FileSystem.Entry, ans: Answers) returns (h: Option<int>)
      requires Valid() && FreshAnswer(State().net, ans) && CLONE in State().tree
      modifies this`currentFd, this`handed, fs`tree, fs.tree.Values`entries, hm, table, poller
      ensures Valid() && fresh(fs.tree.Values - old(fs.tree.Values))
      ensures h.Some? ==> h.value in hm.ops && hm.ops[h.value].entry == entry
      ensures SlotsStay(old(hm.ops), hm.ops) && FileSystem.Grows(old(fs.tree), fs.tree)
      ensures poller.phs == old(poller.phs)
      ensures Opened(State(), h) == OpenClone(old(State()), ans)
      decreases 3, 0
    {
      hide Valid, State, FreshAnswer, OpenClone, Assemble, CreateClone, Base, FileSystem.Grows, SlotsStay;
      ghost var w, slots, tree := State(), hm.ops, fs.tree;
      ValidIsBase();
      PartsMakeClone(w, ans);
      CreateTouchesNoFile(w, ans);
      SameFresh(w.net, CreateClone(w, ans).0.net, ans);
      var created := CreateOp(Clone, ans);
      if !created {
        return None;
      }
      ghost var slots1, tree1 := hm.ops, fs.tree;
      h := OpenAsClone(entry, ans);
      FileSystem.GrowsOver(tree, tree1, fs.tree);
      SlotsStayOver(slots, slots1, hm.ops);
    }

    lemma RoutedByTree(c: Path)
      requires Valid() && c != [] && c in State().tree && !State().tree[c].isDir
      ensures State().tree[c].ops == NameOf(KindAt(c, false)) && AllNames(c)
      ensures KindAt(c, false) == Clone ==> c == CLONE
    {
      RouteOfNames(c);
    }

    /** The registered type an entry names. */
    method TypeOf(entry: FileSystem.Entry, ghost k: Kind) returns (kind: Kind)
      requires Valid() && entry.ops == NameOf(k)
      ensures kind == k
    {
      hide Base, FileSystem.Consistent, NameOf, KindOfName, Registry.FirstMatch;
      var ops := db.GetOps(entry.ops);
      Registry.ByNameInside(db.types, entry.ops);
      KindOfItsName(k);
      kind := KindOfName(ops.value.name).value;
    }

    method AddHandle(op: Op, entry: FileSystem.Entry) returns (h: int)
      requires Valid()
      modifies hm
      ensures Valid() && Opened(State(), Some(h)) == Protocol.Register(old(State()), op)
      ensures h !in old(hm.ops) && hm.ops == old(hm.ops)[h := Slot(op, entry)]
    {
      hide FileSystem.Consistent, Dispatching, TreeOk, SessionsOk, Registry.StableSort;
      h := Register(op, entry);
    }

    method DropHandle(h: int)
      requires Valid() && Poller.NotPolled(poller.phs, h)
      modifies hm
      ensures Valid() && State() == old(State()).(handles := old(State()).handles - {h})
      ensures hm.ops == old(hm.ops) - {h}
    {
      hide FileSystem.Consistent, Dispatching, TreeOk, SessionsOk, Registry.StableSort;
      SameKeys(hm.ops);
      Unregister(h);
      SameKeys(hm.ops);
    }

    method ChangeHandle(h: int, op: Op)
      requires Valid() && h in State().handles
      modifies hm
      ensures Valid() && State() == old(State()).(handles := old(State()).handles[h := op])
      ensures h in old(hm.ops) && hm.ops == old(hm.ops)[h := old(hm.ops)[h].(op := op)]
    {
      hide FileSystem.Consistent, Dispatching, TreeOk, SessionsOk, Registry.StableSort;
      SameKeys(hm.ops);
      SetOp(h, op);
      SameKeys(hm.ops);
    }

    ghost method HandOver()
      requires Valid()
      modifies this`handed
      ensures Valid() && State() == old(State()).(handed := old(State()).handed + [old(State()).current])
    {
      hide FileSystem.Consistent, Dispatching, TreeOk, SessionsOk, Registry.StableSort;
      handed := handed + [currentFd];
    }

    /** The clone operation was made: register it, and open its control file through it. */
    method OpenAsClone(entry: FileSystem.Entry, ans: Answers) returns (h: Option<int>)
      requires Valid() && FreshAnswer(State().net, ans) && CLONE in State().tree
      modifies this`currentFd, this`handed, fs`tree, fs.tree.Values`entries, hm, table, poller
      ensures Valid() && fresh(fs.tree.Values - old(fs.tree.Values))
      ensures h.Some? ==> h.value in hm.ops && hm.ops[h.value].entry == entry
      ensures SlotsStay(old(hm.ops), hm.ops) && FileSystem.Grows(old(fs.tree), fs.tree)
      ensures poller.phs == old(poller.phs)
      ensures Opened(State(), h) == Assemble(old(State()), ans)
      decreases 1, 1
    {
      hide Valid, State, FreshAnswer, MakeSession, OpenCtl, FileSystem.Grows, SlotsStay, Poller.NotPolled, Base;
      ghost var w, slots := State(), hm.ops;
      ValidIsBase();
      NewIsNotPolled(w.last + 1);
      var handle := AddHandle(CloneOp(0), entry);
      OpenCtlKeeps(State(), ans, handle);
      var ctl := OpenCloneOp(ans);
      SlotsStayAround(slots, handle, Slot(CloneOp(0), entry), hm.ops);
      if ctl.None? {
        DropHandle(handle);
        return None;
      }
      ChangeHandle(handle, CloneOp(ctl.value));
      HandOver();
      return Some(handle);
    }

    /** Every other file: register the operation, then let it open. */
    method OpenOther(kind: Kind, entry: FileSystem.Entry, path: string, ans: Answers) returns (h: Option<int>)
      requires Valid() && FreshAnswer(State().net, ans) && kind != Clone
      modifies hm, table
      ensures Valid() && Opened(State(), h) == OpenKind(old(State()), kind, path, ans)
      ensures SlotsStay(old(hm.ops), hm.ops)
      ensures h.Some? ==> h.value in hm.ops && hm.ops[h.value].entry == entry
    {
      hide Valid, State, FreshAnswer, InitKind, SlotsStay, Poller.NotPolled, Base;
      ghost var w, slots := State(), hm.ops;
      ValidIsBase();
      NewIsNotPolled(w.last + 1);
      var handle := AddHandle(RawOp(kind), entry);
      HandleGone(w, handle, RawOp(kind));
      var op := InitOp(kind, path, ans);
      SlotsStayNone(hm.ops);
      SlotsStayAround(slots, handle, Slot(RawOp(kind), entry), hm.ops);
      if op.None? {
        DropHandle(handle);
        return None;
      }
      ChangeHandle(handle, op.value);
      return Some(handle);
    }

    /** What an operation's open finds out. */
    method InitOp(kind: Kind, path: string, ans: Answers) returns (op: Option<Op>)
      requires Valid() && FreshAnswer(State().net, ans) && kind != Clone
      modifies table
      ensures Valid() && (State().net, op) == InitKind(old(State()).net, kind, path, ans)
      ensures State() == old(State()).(net := State().net)
    {
      hide FileSystem.Consistent, Dispatching, TreeOk, SessionsOk, Registry.StableSort, CtlNumber, DirNumber;
      match kind
      case FileDefault => op := Some(Plain);
      case File(Ctl) =>
        var n := CtlNumber(path);
        op := if n.None? then None else Some(CtlOp(n.value, false));
      case File(Listen) => op := Some(ListenOp(path, false));
      case File(_) =>
        var key := DirNumber(path);
        if key.None? {
          return None;
        }
        var fd := table.FindKey(key.value);
        op := if fd.None? then None else Some(SocketOp(fd.value));
      case Client =>
        var fd := table.FindKey(path);
        op := if fd.None? then None else Some(SocketOp(fd.value));
      case Server =>
        var fd := table.FindKey(path);
        if fd.None? || ans.fd.None? {
          return None;
        }
        table.OpenDescriptor(ans.fd.value, Established);
        op := Some(ConnOp(ans.fd.value));
      case _ => op := None;
    }

    /** Asking the current session's control file through a handle of its own; None when something threw. */
    method TargetCtlIs(request: string, ghost want: SockState, ans: Answers) returns (r: Option<bool>)
      requires Valid() && FreshAnswer(State().net, ans) && FileOf(Dec(State().current), Ctl) in State().tree
      requires IsProbe(request, want)
      modifies this`currentFd, this`handed, fs`tree, fs.tree.Values`entries, hm, table, poller
      ensures Valid() && fresh(fs.tree.Values - old(fs.tree.Values))
      ensures SlotsStay(old(hm.ops), hm.ops) && FileSystem.Grows(old(fs.tree), fs.tree)
      ensures poller.phs == old(poller.phs)
      ensures State() == Failed(old(State())).w
      ensures r == ProbeSession(old(State()), old(State()).current, want, ans)
      decreases 1, 0
    {
      hide Valid, State, Dec, Probe, FreshAnswer, OpenSpec, FileOf, Base, FileSystem.Grows, SlotsStay;
      ghost var before, slots := State(), hm.ops;
      HandleKeys();
      CurrentPaths();
      CtlOpens(before, ans);
      ValidIsBase();
      BaseCtl(before, before.current);
      NewIsNotPolled(before.last + 1);
      var handle := Open(SessionFilePath(Dec(currentFd), Ctl), FileOf(Dec(State().current), Ctl), ans);
      if handle.None? {
        return None;
      }
      HandleGone(before, handle.value, CtlOp(before.current, false));
      ghost var slots1 := hm.ops;
      r := AskAndClose(handle.value, before.current, request, want, ans);
      HandleKeys();
      SlotsStayBack(slots, slots1, hm.ops);
    }

    lemma NewIsNotPolled(h: int)
      requires Valid() && h !in State().handles
      ensures Poller.NotPolled(poller.phs, h)
    {
    }

    lemma HandleKeys()
      ensures State().handles.Keys == hm.ops.Keys
    {
    }

    lemma ValidIsBase()
      requires Valid()
      ensures Base(State()) && forall h :: h in State().handles ==> h <= State().last
    {
    }

    /** The request through an open control handle, which is closed whatever happens. */
    method AskAndClose(handle: int, ghost n: nat, request: string, ghost want: SockState, ans: Answers)
      returns (r: Option<bool>)
      requires Valid() && FreshAnswer(State().net, ans) && IsProbe(request, want)
      requires handle in State().handles && State().handles[handle] == CtlOp(n, false)
      requires Poller.NotPolled(poller.phs, handle)
      modifies hm, table, poller
      ensures Valid()
      ensures SlotsStay(hm.ops, old(hm.ops))
      ensures poller.phs == old(poller.phs)
      ensures State() == old(State()).(handles := old(State()).handles - {handle})
      ensures r == Probe(old(State()).net, n, want, ans)
    {
      hide Dec, Probe, WriteSpec, Base, Dispatching, FileSystem.Consistent, Registry.StableSort, PolledAfterClose,
           Poller.OnlyLive, Poller.NotPolled;
      ProbeCall(State(), handle, n, request, want, ans);
      BaseFewer(State(), handle);
      CloseOfNotPolled(poller.phs, State().handles, handle);
      SameKeys(hm.ops);
      CloseLeavesLive(State(), poller.phs, handle);
      var reply := Write(handle, request, 0, ans);
      var failed := Close(handle);
      SameKeys(hm.ops);
      r := if reply.Threw? then None else Some(reply != Result.Code(-ENOTCONN));
    }

    /** create_op: only the clone type does anything here. */
    method CreateOp(kind: Kind, ans: Answers) returns (ok: bool)
      requires Valid() && FreshAnswer(State().net, ans)
      modifies this`currentFd, this`handed, fs`tree, fs.tree.Values`entries, hm, table, poller
      ensures Valid() && fresh(fs.tree.Values - old(fs.tree.Values))
      ensures SlotsStay(old(hm.ops), hm.ops) && FileSystem.Grows(old(fs.tree), fs.tree)
      ensures poller.phs == old(poller.phs)
      ensures (State(), ok) == if kind == Clone then CreateClone(old(State()), ans) else (old(State()), true)
      decreases if kind == Clone then 2 else 0, 0
    {
      hide Valid, State, Dec, ProbeSession, FreshAnswer, Str, SessionFilePath, FileSystem.Grows, SlotsStay;
      FileSystem.GrowsNone(fs.tree);
      SlotsStayNone(hm.ops);
      if kind != Clone {
        return true;
      }
      CurrentPaths();
      var ctl := Find(SessionFilePath(Dec(currentFd), Ctl), FileOf(Dec(State().current), Ctl));
      ok := true;
      if ctl != null {
        ok := NextNumber(ans);
      }
    }

    /** The current session exists: is it connected, is it announced, and where does the counter go? */
    method NextNumber(ans: Answers) returns (ok: bool)
      requires Valid() && FreshAnswer(State().net, ans) && FileOf(Dec(State().current), Ctl) in State().tree
      modifies this`currentFd, this`handed, fs`tree, fs.tree.Values`entries, hm, table, poller
      ensures Valid() && fresh(fs.tree.Values - old(fs.tree.Values))
      ensures SlotsStay(old(hm.ops), hm.ops) && FileSystem.Grows(old(fs.tree), fs.tree)
      ensures poller.phs == old(poller.phs)
      ensures (State(), ok) == CreateClone(old(State()), ans)
      decreases 1, 1
    {
      hide Valid, State, Dec, ProbeSession, FreshAnswer, FileSystem.Grows, SlotsStay;
      ghost var w, slots, tree := State(), hm.ops, fs.tree;
      ProbesAreProbes();
      ProbeIgnoresLast(w, w.last + 1, Listening, ans);
      var connected := TargetCtlIs("is_connected", Established, ans);
      if connected.None? {
        return false;
      }
      ghost var slots1, tree1 := hm.ops, fs.tree;
      var announced := TargetCtlIs("is_announced", Listening, ans);
      FileSystem.GrowsOver(tree, tree1, fs.tree);
      SlotsStayOver(slots, slots1, hm.ops);
      if announced.None? {
        return false;
      }
      assert State() == w.(last := w.last + 2);
      if connected.value || announced.value {
        CountUp();
      }
      return true;
    }

    method CountUp()
      requires Valid()
      modifies this`currentFd
      ensures Valid() && State() == old(State()).(current := old(State()).current + 1)
    {
      hide Base, Dispatching, FileSystem.Consistent, Registry.StableSort;
      BaseNext(State());
      currentFd := currentFd + 1;
    }

    /** clone_op::open: make the session if it is not there, and open its control file. */
    method OpenCloneOp(ans: Answers) returns (ctl: Option<int>)
      requires Valid() && FreshAnswer(State().net, ans) && CLONE in State().tree
      modifies this`currentFd, this`handed, fs`tree, fs.tree.Values`entries, hm, table, poller
      ensures Valid() && fresh(fs.tree.Values - old(fs.tree.Values))
      ensures SlotsStay(old(hm.ops), hm.ops) && FileSystem.Grows(old(fs.tree), fs.tree)
      ensures poller.phs == old(poller.phs)
      ensures var s := MakeSession(old(State()), ans);
              if s.1 then Opened(State(), ctl) == OpenCtl(s.0) else State() == s.0 && ctl == None
      decreases 1, 0
    {
      hide Valid, State, Dec, FreshAnswer, OpenSpec, WithSession, Str, SessionDirPath, SessionFilePath, OpenCtl, FileOf,
           DirOf, FileSystem.Grows, SlotsStay;
      ghost var tree := fs.tree;
      FileSystem.GrowsNone(tree);
      SlotsStayNone(hm.ops);
      CurrentPaths();
      var dir := Find(SessionDirPath(Dec(currentFd)), DirOf(Dec(State().current)));
      if dir == null {
        var made := MakeSessionDir(ans);
        if !made {
          return None;
        }
        CurrentPaths();
      }
      CtlOpens(State(), ans);
      ghost var tree1 := fs.tree;
      ctl := Open(SessionFilePath(Dec(currentFd), Ctl), FileOf(Dec(State().current), Ctl), ans);
      FileSystem.GrowsOver(tree, tree1, fs.tree);
    }

    // ----- Reading -----

    /** ctl_op::read: the number once, then nothing. */
    method ReadCtl(h: int, size: nat) returns (r: Result)
      requires Valid()
      modifies hm
      ensures Valid() && Protocol.Done(State(), r) == Protocol.ReadCtl(old(State()), h, size)
      ensures SlotsStay(old(hm.ops), hm.ops)
    {
      hide FileSystem.Consistent, Dispatching, TreeOk, SessionsOk, Registry.StableSort, Dec;
      if h !in hm.ops || !hm.ops[h].op.CtlOp? {
        return Threw;
      }
      var op := hm.ops[h].op;
      if op.told {
        return Text("");
      }
      var line := Dec(op.n) + "\n";
      if |line| > size {
        return Result.Code(-ENOBUFS);
      }
      ChangeHandle(h, CtlOp(op.n, true));
      return Text(line);
    }

    /** The operation and entry of a live handle, or an exception. */
    method GetSlot(h: int) returns (slot: Option<Slot>)
      requires Valid()
      ensures slot.Some? <==> h in State().handles
      ensures slot.Some? ==> h in hm.ops && hm.ops[h] == slot.value && State().handles[h] == slot.value.op
      ensures slot.None? ==> !IsFile(h)
    {
      slot := hm.GetOpEntry(h);
    }

    /** read: default files give their bytes, control files tell their number, clone passes on, listen accepts. */
    method Read(h: int, size: nat, offset: nat, ans: Answers) returns (r: Result)
      requires Valid() && FreshAnswer(State().net, ans)
      modifies this`currentFd, this`handed, fs`tree, fs.tree.Values`entries, hm, table, poller
      ensures Valid() && fresh(fs.tree.Values - old(fs.tree.Values))
      ensures SlotsStay(old(hm.ops), hm.ops) && FileSystem.Grows(old(fs.tree), fs.tree)
      ensures poller.phs == old(poller.phs)
      ensures State() == ReadSpec(old(State()), h, size, ans).w
      ensures r == if old(IsFile(h)) then Text(FileData.ReadAt(old(hm.ops[h].entry.data), size, offset))
                   else ReadSpec(old(State()), h, size, ans).r
      decreases h in State().handles && State().handles[h].ListenOp?, 4
    {
      hide Valid, State, FreshAnswer, AcceptSpec, Protocol.ReadCtl, FileSystem.Grows, SlotsStay, FileData.ReadAt;
      FileSystem.GrowsNone(fs.tree);
      SlotsStayNone(hm.ops);
      var slot := GetSlot(h);
      if slot.None? {
        return Threw;
      }
      match slot.value.op
      case CtlOp(_, _) => r := ReadCtl(h, size);
      case CloneOp(ctl) => r := ReadCtl(ctl, size);
      case ListenOp(path, once) => r := ReadListen(h, path, once, size, ans);
      case Plain =>
        var bytes := ReadBytes(h, size, offset);
        r := Text(bytes);
      case _ => r := Elsewhere;
    }

    /** open_new_session: open clone, read the number, close clone again; None when something threw. */
    method OpenNewSession(ans: Answers) returns (r: Option<string>)
      requires Valid() && FreshAnswer(State().net, ans)
      modifies this`currentFd, this`handed, fs`tree, fs.tree.Values`entries, hm, table, poller
      ensures Valid() && fresh(fs.tree.Values - old(fs.tree.Values))
      ensures SlotsStay(old(hm.ops), hm.ops) && FileSystem.Grows(old(fs.tree), fs.tree)
      ensures poller.phs == old(poller.phs)
      ensures (State(), r) == NewSession(old(State()), ans)
      decreases true, 1
    {
      hide Valid, State, FreshAnswer, Dec, OpenClone, OpenSpec, Str, CloseSpec, ReadSpec, PolledAfterClose, Base,
           Poller.NotPolled, FileSystem.Grows, SlotsStay;
      ghost var w, slots, tree := State(), hm.ops, fs.tree;
      HandleKeys();
      ClonePath();
      OpenSpecOfClone(w, ans);
      ValidIsBase();
      CloneShape(w, ans);
      ghost var o := OpenClone(w, ans);
      if o.h.Some? {
        NewIsNotPolled(o.h.value);
        NewIsNotPolled(o.w.last);
      }
      var clone := Open("/tcp/clone", CLONE, ans);
      if clone.None? {
        return None;
      }
      ghost var slots1, tree1 := hm.ops, fs.tree;
      r := ReadNumber(clone.value, o.w.last, ans);
      HandleKeys();
      assert forall g :: g in w.handles.Keys ==> g in State().handles.Keys;
      FileSystem.GrowsOver(tree, tree1, fs.tree);
      SlotsStayBack(slots, slots1, hm.ops);
    }

    /** Reads an open clone once and closes it. */
    method ReadNumber(clone: int, ghost ctl: int, ans: Answers) returns (r: Option<string>)
      requires Valid() && FreshAnswer(State().net, ans) && ctl == State().last
      requires clone in State().handles && State().handles[clone] == CloneOp(ctl)
      requires ctl in State().handles && State().handles[ctl] == CtlOp(State().current, false)
      requires Poller.NotPolled(poller.phs, clone) && Poller.NotPolled(poller.phs, ctl)
      modifies this`currentFd, this`handed, fs`tree, fs.tree.Values`entries, hm, table, poller
      ensures Valid() && fresh(fs.tree.Values - old(fs.tree.Values))
      ensures SlotsStay(hm.ops, old(hm.ops)) && FileSystem.Grows(old(fs.tree), fs.tree)
      ensures poller.phs == old(poller.phs)
      ensures State() == CloseSpec(old(State()), clone)
      ensures r == var line := Dec(old(State()).current) + "\n"; if |line| > CLONE_BUFFER then None else Some(line)
      decreases true, 0
    {
      hide Valid, State, FreshAnswer, Dec, CloseSpec, ReadSpec, PolledAfterClose, Base, Poller.NotPolled,
           FileSystem.Grows, SlotsStay;
      ghost var slots := hm.ops;
      HandleKeys();
      HandleIsFile(clone);
      ReadThenClose(State(), clone, CLONE_BUFFER, ans);
      var reply := Read(clone, CLONE_BUFFER, 0, ans);
      ghost var slots1 := hm.ops;
      HandleKeys();
      CloseOfNotPolled(poller.phs, State().handles, clone);
      var failed := CloseHandle(clone);
      SlotsBothWays(slots, slots1);
      SlotsStayOver(hm.ops, slots1, slots);
      r := if reply.Text? then Some(reply.s) else None;
    }

    lemma HandleIsFile(h: int)
      ensures IsFile(h) <==> h in State().handles && State().handles[h].Plain?
    {
    }

    /** close on a handle whose nested handle, if any, is a control file's. */
    method CloseHandle(h: int) returns (threw: bool)
      requires Valid()
      requires h in State().handles && State().handles[h].CloneOp? && State().handles[h].ctl in State().handles ==>
                 State().handles[State().handles[h].ctl].CtlOp?
      modifies hm, table, poller
      ensures Valid() && State() == CloseSpec(old(State()), h)
      ensures SlotsStay(hm.ops, old(hm.ops))
      ensures poller.phs == PolledAfterClose(old(poller.phs), old(State()).handles, h)
    {
      hide FileSystem.Consistent, Dispatching, TreeOk, SessionsOk, Registry.StableSort, Poller.OnlyLive,
           PolledAfterClose;
      SameKeys(hm.ops);
      CloseLeavesLive(State(), poller.phs, h);
      threw := Close(h);
      SameKeys(hm.ops);
    }

    /** listen_op::read. */
    method ReadListen(h: int, path: string, once: bool, size: nat, ans: Answers) returns (r: Result)
      requires Valid() && FreshAnswer(State().net, ans) && h in State().handles
      modifies this`currentFd, this`handed, fs`tree, fs.tree.Values`entries, hm, table, poller
      ensures Valid() && fresh(fs.tree.Values - old(fs.tree.Values))
      ensures SlotsStay(old(hm.ops), hm.ops) && FileSystem.Grows(old(fs.tree), fs.tree)
      ensures poller.phs == old(poller.phs)
      ensures Protocol.Done(State(), r) == AcceptSpec(old(State()), h, path, once, size, ans)
      decreases true, 3
    {
      hide Valid, State, DirNumber, AcceptedSpec, FileSystem.Grows, SlotsStay;
      FileSystem.GrowsNone(fs.tree);
      SlotsStayNone(hm.ops);
      var key := DirNumber(path);
      if key.None? {
        return Threw;
      }
      var server := FindKey(key.value);
      if server.None? {
        return Result.Code(-ENOTCONN);
      }
      if once {
        return Text("");
      }
      if ans.fd.None? {
        return Threw;
      }
      var socket := ans.fd.value;
      OpenFd(socket);
      r := AcceptInto(h, path, socket, size, ans);
    }

    /** What follows an accept: a session is allocated and takes the connection, which is closed if anything throws. */
    method AcceptInto(h: int, path: string, socket: int, size: nat, ans: Answers) returns (r: Result)
      requires Valid() && h in State().handles
      modifies this`currentFd, this`handed, fs`tree, fs.tree.Values`entries, hm, table, poller
      ensures Valid() && fresh(fs.tree.Values - old(fs.tree.Values))
      ensures SlotsStay(old(hm.ops), hm.ops) && FileSystem.Grows(old(fs.tree), fs.tree)
      ensures poller.phs == old(poller.phs)
      ensures Protocol.Done(State(), r) == AcceptedSpec(old(State()), h, path, socket, size, ans)
      decreases true, 2
    {
      hide Valid, State, Dec, NewSession, OpenClone, CloseSpec, AcceptedSpec, FreshAnswer, Base, FdTable.Insert,
           CloseSocket, FileSystem.Grows, SlotsStay;
      ghost var slots := hm.ops;
      NoFdIsFresh(State().net, ans);
      ValidIsBase();
      AcceptByParts(State(), h, path, socket, size, ans);
      var session := OpenNewSession(NoMore(ans));
      if session.None? {
        CloseFd(socket);
        return Threw;
      }
      if size < |session.value| {
        return Result.Code(-ENAMETOOLONG);
      }
      InsertKey(session.value[..|session.value| - 1], socket);
      HandleKeys();
      SlotsStayChange(slots, hm.ops, h, ListenOp(path, true));
      ChangeHandle(h, ListenOp(path, true));
      return Text(session.value);
    }

    method FindKey(k: string) returns (r: Option<int>)
      ensures r == FdTable.Find(State().net, k)
    {
      r := table.FindKey(k);
    }

    method OpenFd(fd: int)
      requires Valid() && fd !in State().net.sockets
      modifies table
      ensures Valid() && State() == old(State()).(net := OpenSocket(old(State()).net, fd, Established))
    {
      hide FileSystem.Consistent, Dispatching, TreeOk, SessionsOk, Registry.StableSort;
      table.OpenDescriptor(fd, Established);
    }

    method CloseFd(fd: int)
      requires Valid()
      modifies table
      ensures Valid() && State() == old(State()).(net := CloseSocket(old(State()).net, fd))
    {
      hide FileSystem.Consistent, Dispatching, TreeOk, SessionsOk, Registry.StableSort;
      table.CloseDescriptor(fd);
    }

    method InsertKey(k: string, fd: int)
      requires Valid()
      modifies table
      ensures Valid() && State() == old(State()).(net := FdTable.Insert(old(State()).net, k, fd))
    {
      hide FileSystem.Consistent, Dispatching, TreeOk, SessionsOk, Registry.StableSort;
      table.InsertEntry(k, fd);
    }

    // ----- Bytes of default files -----

    /** read on a default file: the bytes of its entry, whether or not the entry is still in the tree. */
    method ReadBytes(h: int, size: nat, offset: nat) returns (bytes: string)
      requires IsFile(h)
      ensures bytes == FileData.ReadAt(hm.ops[h].entry.data, size, offset)
    {
      bytes := hm.ops[h].entry.Read(size, offset);
      FileData.ReadMeaning(hm.ops[h].entry.data, size, offset);
    }

    /** write on a default file: visible through every handle on the same entry. */
    method WriteBytes(h: int, text: string, offset: nat) returns (size: nat)
      requires IsFile(h)
      modifies hm.ops[h].entry`data
      ensures State() == old(State()) && size == |text|
      ensures forall g :: g in hm.ops && hm.ops[g].entry == hm.ops[h].entry ==>
                hm.ops[g].entry.data == FileData.WriteAt(old(hm.ops[h].entry.data), text, offset)
      ensures forall g :: g in hm.ops && hm.ops[g].entry != hm.ops[h].entry ==>
                hm.ops[g].entry.data == old(hm.ops[g].entry.data)
    {
      size := hm.ops[h].entry.Write(text, offset);
    }

    /** truncate: look the path up, then cut its file or fill it with zeros; a directory throws. */
    method Truncate(path: string, ghost c: Path, size: nat) returns (threw: bool, ret: int)
      requires Valid() && c != [] && AllNames(c) && path == Str(c)
      modifies Cuttable(c)`data
      ensures Valid() && State() == old(State())
      ensures !threw && ret == 0 <==> c in State().tree && !State().tree[c].isDir
      ensures forall e :: e in Cuttable(c) ==> e.data == FileData.Resize(old(e.data), size)
    {
      hide Base, Dispatching, FileSystem.Consistent, Registry.StableSort, Str;
      var entry := Find(path, c);
      if entry == null {
        return false, -ENOENT;
      }
      if entry.isDir {
        return true, 0;
      }
      entry.Truncate(size);
      FileData.SameBytes(entry.data, FileData.Resize(old(entry.data), size));
      assert FileSystem.ListsOf(fs.tree) == old(FileSystem.ListsOf(fs.tree));
      return false, 0;
    }

    /** The file that a truncation of the path changes. */
    ghost function Cuttable(c: Path): set<FileSystem.Entry>
      reads fs
    {
      if c in fs.tree && !fs.tree[c].isDir then {fs.tree[c]} else {}
    }

    // ----- Creating and removing -----

    /** mknod: the type's hook connects for a client and listens for a server; a failure takes the file back. */
    method Mknod(path: string, ghost c: Path, ans: Answers) returns (ok: bool)
      requires Valid() && FreshAnswer(State().net, ans)
      requires c != [] && AllNames(c) && path == Str(c) && c !in State().tree
      modifies fs`tree, fs.tree.Values`entries, table
      ensures Valid() && fresh(fs.tree.Values - old(fs.tree.Values))
      ensures FileSystem.Grows(old(fs.tree), fs.tree)
      ensures State() == MknodSpec(old(State()), c, ans) && (ok <==> c in State().tree)
    {
      hide Valid, State, Str, KindAt, NameOf, CreateAt, CreatesAbsent, Base;
      ValidIsBase();
      var kind := RouteOf(path, c, false);
      var connects := kind == Client || kind == Server;
      var hook := if connects && ans.fd.None? then Throw else Return(0);
      SimpleCreation(State(), c, false, hook);
      var there := ParentIsThere(path, c);
      ok := AddPath(path, c, false, kind, hook);
      if there && connects {
        SetUpSocket(path, if kind == Client then Established else Listening, ans);
      }
    }

    /** Whether the path's parent is a directory. */
    method ParentIsThere(path: string, ghost c: Path) returns (yes: bool)
      requires Valid() && c != [] && AllNames(c) && path == Str(c)
      ensures yes <==> Creatable(State(), c)
    {
      hide Base, Dispatching, FileSystem.Consistent, Registry.StableSort, Str;
      var parent := fs.SearchParentDir(path);
      fs.ParentDirRefines(path);
      PlainParent(fs.Shape(), c);
      yes := parent != null;
    }

    /** The type the registry gives a new path. */
    method RouteOf(path: string, ghost c: Path, isDir: bool) returns (kind: Kind)
      requires Valid() && path == Str(c)
      ensures kind == KindAt(c, isDir)
    {
      hide Base, FileSystem.Consistent, NameOf, KindOfName, Registry.FirstMatch, Route, Registry.IsBest,
           Registry.Survivors;
      var ft := if isDir then Registry.Directory else Registry.Regular;
      var name := db.GetNameByPath(path, ft);
      KindOfItsName(Route(path, ft));
      kind := KindOfName(name.value).value;
    }

    /** The file system's part of a creation. */
    method AddPath(path: string, ghost c: Path, isDir: bool, kind: Kind, hook: Hook) returns (ok: bool)
      requires Valid() && path == Str(c) && CreatesAbsent(State().tree, path, isDir, NameOf(kind), hook)
      requires Base(State().(tree := CreateAt(State().tree, path, isDir, NameOf(kind), hook).t))
      modifies fs`tree, fs.tree.Values`entries
      ensures Valid() && fresh(fs.tree.Values - old(fs.tree.Values))
      ensures FileSystem.Grows(old(fs.tree), fs.tree)
      ensures var r := CreateAt(old(State()).tree, Str(c), isDir, NameOf(kind), hook);
              ok == r.ok && State() == old(State()).(tree := r.t)
    {
      hide Base, Dispatching, FileSystem.Consistent, Registry.StableSort, CreateAt, CreatesAbsent, Str, NameOf;
      ok := fs.CreateEntry(path, isDir, NameOf(kind), hook);
    }

    method SetUpSocket(key: string, st: SockState, ans: Answers)
      requires Valid() && FreshAnswer(State().net, ans)
      modifies table
      ensures Valid() && State() == old(State()).(net := SetUp(old(State()).net, key, st, ans))
    {
      hide FileSystem.Consistent, Dispatching, TreeOk, SessionsOk, Registry.StableSort, SetUp, FreshAnswer;
      var _, _ := InstallSocket(key, st, ans);
    }

    /** mkdir of anything but a session: "/tcp" brings its clone file along. */
    method Mkdir(path: string, ghost c: Path, ans: Answers) returns (ok: bool)
      requires Valid() && FreshAnswer(State().net, ans)
      requires c != [] && AllNames(c) && path == Str(c) && c !in State().tree && KindAt(c, true) != SessionDir
      modifies fs`tree, fs.tree.Values`entries
      ensures Valid() && fresh(fs.tree.Values - old(fs.tree.Values))
      ensures FileSystem.Grows(old(fs.tree), fs.tree)
      ensures State() == MkdirSpec(old(State()), c, ans) && (ok <==> c in State().tree)
    {
      hide Valid, State, FreshAnswer, Str, KindAt, NameOf, CreateAt, CreatesAbsent, Base, Route;
      ValidIsBase();
      var kind := RouteOf(path, c, true);
      if kind == TcpDir {
        var name := NameByPath("/tcp/clone");
        TcpCreation(State(), c, name);
        ok := AddPath(path, c, true, kind, Create(false, "/tcp/clone", Some(name), Return(0), Return(0)));
      } else {
        SimpleCreation(State(), c, true, Return(0));
        ok := AddPath(path, c, true, kind, Return(0));
      }
    }

    method NameByPath(path: string) returns (name: string)
      requires Valid()
      ensures name == NameOf(Route(path, Registry.Regular))
    {
      hide Base, FileSystem.Consistent, NameOf, Registry.FirstMatch, Route, Registry.IsBest, Registry.Survivors;
      var r := db.GetNameByPath(path, Registry.Regular);
      name := r.value;
    }

    /** unlink: the entry's type may veto; a client's or server's socket goes with its file. */
    method Unlink(path: string, ghost c: Path) returns (threw: bool, ret: int)
      requires Valid() && c != [] && AllNames(c) && path == Str(c)
      modifies fs`tree, fs.tree.Values`entries, table
      ensures Valid() && State() == UnlinkSpec(old(State()), c)
      ensures !threw && ret >= 0 <==> c in old(State()).tree && c !in State().tree
      ensures threw <==> c !in old(State()).tree || old(State()).tree[c].isDir
      ensures !threw ==> ret == if PathRules.Protected(c) then -EPERM else 0
      ensures fs.tree.Values <= old(fs.tree.Values) && FileSystem.Keeps(fs.tree, old(fs.tree))
      ensures forall e: FileSystem.Entry :: old(allocated(e)) ==> e.data == old(e.data)
    {
      hide Valid, State, Str, KindAt, NameOf, RemoveAt, TreeOk, SessionsOk;
      ValidIsBase();
      FileRemoval(State(), c);
      var entry := Find(path, c);
      if entry == null || entry.isDir {
        threw, ret := CutPath(path, c, false, Replied(0));
        return;
      }
      RoutedByTree(c);
      var kind := TypeOf(entry, KindAt(c, false));
      var vetoes := kind == Clone || kind == File(Ctl) || kind == File(Data);
      PathRules.ProtectedIff(c);
      if kind == Client || kind == Server {
        EraseKey(path);
      }
      threw, ret := CutPath(path, c, false, Replied(if vetoes then -EPERM else 0));
    }

    method EraseKey(k: string)
      requires Valid()
      modifies table
      ensures Valid() && State() == old(State()).(net := Erase(old(State()).net, k))
    {
      hide FileSystem.Consistent, Dispatching, TreeOk, SessionsOk, Registry.StableSort;
      table.EraseEntry(k);
    }

    /** The file system's part of a removal. */
    method CutPath(path: string, ghost c: Path, wantDir: bool, veto: Veto) returns (threw: bool, ret: int)
      requires Valid() && path == Str(c)
      requires Base(State().(tree := RemoveAt(State().tree, path, wantDir, veto, false).t))
      modifies fs`tree, fs.tree.Values`entries
      ensures Valid() && State() == old(State()).(tree := RemoveAt(old(State()).tree, Str(c), wantDir, veto, false).t)
      ensures FileSystem.Keeps(fs.tree, old(fs.tree))
      ensures Removal(State().tree, threw, ret) == RemoveAt(old(State()).tree, Str(c), wantDir, veto, false)
      ensures fs.tree.Values <= old(fs.tree.Values)
    {
      hide Base, Dispatching, FileSystem.Consistent, Registry.StableSort, RemoveAt, Str;
      threw, ret := fs.RemovePath(path, wantDir, veto, false);
    }

    /** rmdir: "/tcp" throws; a session gives up its socket. */
    method Rmdir(path: string, ghost c: Path) returns (threw: bool, ret: int)
      requires Valid() && c != [] && AllNames(c) && path == Str(c)
      modifies fs`tree, fs.tree.Values`entries, table
      ensures Valid() && State() == RmdirSpec(old(State()), c)
      ensures threw <==> c !in old(State()).tree || !old(State()).tree[c].isDir || c == TCP
      ensures !threw ==> ret == 0
      ensures !threw && ret >= 0 <==> c in old(State()).tree && c !in State().tree
      ensures fs.tree.Values <= old(fs.tree.Values) && FileSystem.Keeps(fs.tree, old(fs.tree))
      ensures forall e: FileSystem.Entry :: old(allocated(e)) ==> e.data == old(e.data)
    {
      hide Valid, State, Str, KindAt, NameOf, RemoveAt, TreeOk, SessionsOk, DirNumber;
      ValidIsBase();
      DirRemoval(State(), c);
      var entry := Find(path, c);
      if entry == null || !entry.isDir {
        threw, ret := CutPath(path, c, true, Replied(0));
        return;
      }
      DirRoutedByTree(c);
      PathRules.SessionKeyIs(c);
      RouteOfNames(c);
      var kind := TypeOf(entry, KindAt(c, true));
      var veto := if kind == TcpDir then Raised else Replied(0);
      if kind == SessionDir {
        var key := DirNumber(path);
        if key.None? {
          veto := Raised;
        } else {
          EraseKey(key.value);
        }
      }
      threw, ret := CutPath(path, c, true, veto);
    }

    lemma DirRoutedByTree(c: Path)
      requires Valid() && c != [] && c in State().tree && State().tree[c].isDir
      ensures State().tree[c].ops == NameOf(KindAt(c, true)) && AllNames(c)
    {
    }

    // ----- Polling -----

    /** poll: with a poll handle, the file is polled from now on; either way its last mask is told. */
    method Poll(h: int, ph: Option<nat>) returns (mask: nat)
      requires Valid() && (ph.Some? ==> h in State().handles)
      modifies poller
      ensures Valid() && mask == Poller.Status(poller.phs, h)
      ensures poller.phs == if ph.None? then old(poller.phs) else Poller.Registered(old(poller.phs), h, ph.value)
    {
      hide FileSystem.Consistent, Dispatching, TreeOk, SessionsOk, Registry.StableSort, Poller.OnlyLive,
           Poller.Registered, Poller.NotPolled, Poller.DistinctHandles, Poller.Status;
      SameKeys(hm.ops);
      if ph.Some? {
        Poller.RegisteredLive(poller.phs, h, ph.value, hm.ops.Keys);
        poller.RegisterNew(h, ph.value);
      }
      mask := poller.GetStatus(h);
    }

    /** A sweep between calls meets live handles only: it never throws, and reaches every polled handle. */
    method Sweep(answers: int -> nat) returns (threw: bool)
      requires Valid()
      modifies poller
      ensures Valid() && !threw
      ensures Poller.SweptTo(old(poller.phs), answers, |old(poller.phs)|, poller.phs)
    {
      hide FileSystem.Consistent, Dispatching, TreeOk, SessionsOk, Registry.StableSort;
      ghost var n;
      threw, n := poller.PollHandles(hm.ops.Keys, answers);
    }

    // ----- Serving calls -----

    method WriteHandle(h: int, text: string, offset: nat, ans: Answers) returns (r: Result)
      requires Valid() && FreshAnswer(State().net, ans)
      modifies table, Written(h)`data
      ensures Valid() && State() == WriteSpec(old(State()), h, text, ans).w
      ensures r == if IsFile(h) then Result.Code(|text|) else WriteSpec(old(State()), h, text, ans).r
      ensures IsFile(h) ==> hm.ops[h].entry.data == FileData.WriteAt(old(hm.ops[h].entry.data), text, offset)
    {
      hide FileSystem.Consistent, Dispatching, TreeOk, SessionsOk, Registry.StableSort, FreshAnswer, FileData.WriteAt;
      r := Write(h, text, offset, ans);
      assert FileSystem.ListsOf(fs.tree) == old(FileSystem.ListsOf(fs.tree));
    }

    method Drift(states: map<int, SockState>)
      requires Valid()
      modifies table
      ensures Valid() && State() == old(State()).(net := old(State()).net.(sockets := states))
    {
      hide FileSystem.Consistent, Dispatching, TreeOk, SessionsOk, Registry.StableSort;
      table.Drift(states);
    }

    lemma TreeIsOnePath()
      requires Valid()
      ensures FileSystem.OnePath(fs.tree) && FileSystem.ShapeOf(fs.tree) == State().tree
    {
    }

    /** What the surviving handles are on after a call, and the one an open made. */
    ghost predicate SlotsMoved(y: System, a: Action, ans: Answers, tree: FileSystem.Tree, slots: map<int, Slot>)
      requires FreshAnswer(y.w.net, ans)
      reads hm
    {
      && (forall h :: h in slots && h in hm.ops ==> hm.ops[h].entry == slots[h].entry)
      && (a.OpenFile? && OpenSpec(y.w, a.c, ans).h.Some? ==>
            var h := OpenSpec(y.w, a.c, ans).h.value;
            a.c in tree && h in hm.ops && hm.ops[h].entry == tree[a.c])
    }

    /** After a call that wrote no bytes: every handle on a default file is bound to the file of its entry. */
    lemma SlotsFollow(y: System, a: Action, ans: Answers, tree: FileSystem.Tree, slots: map<int, Slot>)
      requires StoreOk(y) && Inv(y.w) && Allowed(y.w, a, ans) && State() == Do(y.w, a, ans)
      requires y.w.handles == OpsOf(slots) && LocatedTree(y.s, loc, tree) && LocatedSlots(y.s, loc, slots)
      requires SlotsMoved(y, a, ans, tree, slots)
      ensures LocatedSlots(Advance(y, a, ans).s, loc, hm.ops)
    {
      hide Inv, Do, OpenSpec, NextIds, NextData, ChangeOf, KindAt;
      BoundKeeps(y, a, ans);
      SameKeys(hm.ops);
      forall h | h in hm.ops && hm.ops[h].op.Plain?
        ensures var b := Advance(y, a, ans).s.bound; h in b && b[h] in loc && loc[b[h]] == hm.ops[h].entry
      {
        assert h in State().handles && State().handles[h].Plain?;
        PlainIsOld(y.w, a, ans, h);
        if a.OpenFile? {
          OpenedIsBound(y, a.c, ans);
        }
      }
    }

    /** Bookkeeping after a call that wrote no bytes. */
    ghost method Settle(y: System, a: Action, ans: Answers, tree: FileSystem.Tree, slots: map<int, Slot>)
      requires Valid() && StoreOk(y) && Inv(y.w) && Allowed(y.w, a, ans) && ChangeOf(y, a).None?
      requires store == y.s && y.w.handles == OpsOf(slots) && State() == Do(y.w, a, ans)
      requires Located(store, loc, tree, slots) && TreeMoved(loc, tree, fs.tree) && SlotsMoved(y, a, ans, tree, slots)
      modifies this`store, this`loc
      ensures Running() && Whole() == Advance(y, a, ans) && loc.Values <= old(loc.Values) + fs.tree.Values
    {
      hide Valid, State, Inv, Do, Advance, StoreOk, NextIds, NextBound, NextData, ChangeOf, TreeMoved, LocatedTree,
           LocatedSlots, LocatedData, NextLoc, SlotsMoved;
      StoreKeeps(y, a, ans);
      PartsOfAdvance(y, a, ans);
      FilesAreOlder(y);
      TreeIsOnePath();
      SlotsFollow(y, a, ans, tree, slots);
      ghost var next := Advance(y, a, ans).s;
      DataMoved(store, loc, tree, fs.tree, next);
      TreeFollows(store, loc, tree, fs.tree, next);
      NextLocValues(store, loc, fs.tree);
      MoreLoc(next, loc, NextLoc(store, loc, fs.tree), hm.ops);
      store, loc := next, NextLoc(store, loc, fs.tree);
    }

    /** Bookkeeping after a call that changed one file. */
    ghost method SettleChange(y: System, a: Action, ans: Answers)
      requires Valid() && StoreOk(y) && Inv(y.w) && Allowed(y.w, a, ans) && ChangeOf(y, a).Some?
      requires a.Write? || a.Truncate?
      requires Whole() == y && Do(y.w, a, ans) == y.w
      requires LocatedTree(store, loc, fs.tree) && LocatedSlots(store, loc, hm.ops)
      requires loc.Keys == store.data.Keys && forall i, j :: i in loc && j in loc && loc[i] == loc[j] ==> i == j
      requires var change := ChangeOf(y, a).value;
               forall i :: i in loc ==>
                 loc[i].data == if i == change.id then Updated(store.data[i], change.u) else store.data[i]
      modifies this`store
      ensures Running() && Whole() == Advance(y, a, ans)
    {
      hide Valid, State, Inv, ChangeOf, Updated, Do, Advance, StoreOk, Located, LocatedTree, LocatedSlots;
      StoreKeeps(y, a, ans);
      WorldOfOne(y, a, ans);
      ChangeFollows(y, a, ans, loc, fs.tree, hm.ops);
      store := Advance(y, a, ans).s;
    }

    twostate lemma GrowthMoves()
      requires Valid() && FileSystem.Grows(old(fs.tree), fs.tree) && fresh(fs.tree.Values - old(fs.tree.Values))
      requires loc == old(loc)
      ensures TreeMoved(loc, old(fs.tree), fs.tree)
    {
      hide Valid;
      TreeIsOnePath();
      forall p | p in fs.tree && p !in old(fs.tree) ensures fs.tree[p] !in loc.Values && fs.tree[p].data == [] {
        NewIsOutside(old(fs.tree), fs.tree, p);
        assert fs.tree[p] in fs.tree.Values - old(fs.tree).Values;
      }
    }

    lemma RemovalMoves(before: FileSystem.Tree)
      requires Valid() && FileSystem.Keeps(fs.tree, before)
      ensures TreeMoved(loc, before, fs.tree)
    {
      hide Valid;
      TreeIsOnePath();
    }

    /** What a call may touch. */
    lemma AllLocated()
      requires Running()
      ensures fs.tree.Values <= loc.Values
      ensures forall h :: Written(h) <= loc.Values
      ensures forall c :: Cuttable(c) <= loc.Values
    {
      hide Valid, Inv, StoreOk;
      forall e | e in fs.tree.Values ensures e in loc.Values {
        var p :| p in fs.tree && fs.tree[p] == e;
        assert loc[store.ids[p]] in loc.Values;
      }
    }

    /** One call, or one change outside: the system moves as the state machine says. */
    method Serve(a: Action, ans: Answers) returns (r: Result)
      requires Running() && Allowed(State(), a, ans) && OnPlainPath(a)
      modifies this, fs`tree, loc.Values, hm, table, poller
      ensures Running() && fresh(loc.Values - old(loc.Values))
      ensures Whole() == Advance(old(Whole()), a, ans)
      ensures a.Read? ==> r == ReadOf(old(Whole()), a.h, a.size, a.offset, ans)
      ensures a.Write? ==> r == WriteOf(old(Whole()), a.h, a.text, ans)
    {
      hide Running, State, FreshAnswer, ReadOf, WriteOf, Advance, Allowed;
      r := Elsewhere;
      match a
      case Read(h, size, offset) => r := ServeRead(h, size, offset, ans);
      case Write(h, text, offset) => r := ServeWrite(h, text, offset, ans);
      case Truncate(c, size) => ServeTruncate(c, size, ans);
      case OpenFile(c) => ServeOpen(c, ans);
      case Close(h) => ServeClose(h, ans);
      case Mknod(_) => ServeCreation(a, ans);
      case Mkdir(_) => ServeCreation(a, ans);
      case Unlink(_) => ServeRemoval(a, ans);
      case Rmdir(_) => ServeRemoval(a, ans);
      case Outside(states) => ServeOutside(states, ans);
    }

    method ServeCreation(a: Action, ans: Answers)
      requires Running() && Allowed(State(), a, ans) && OnPlainPath(a) && (a.Mknod? || a.Mkdir?)
      modifies this, fs`tree, loc.Values, table
      ensures Running() && fresh(loc.Values - old(loc.Values)) && Whole() == Advance(old(Whole()), a, ans)
    {
      hide Valid, State, Inv, FreshAnswer, StoreOk, MknodSpec, MkdirSpec, Str, KindAt, LocatedTree, LocatedSlots,
           LocatedData, TreeMoved, FileSystem.Grows, Advance;
      ghost var y, tree, slots := Whole(), fs.tree, hm.ops;
      AllLocated();
      HandlesAreOps();
      if a.Mknod? {
        var ok := Mknod(Str(a.c), a.c, ans);
      } else {
        var ok := Mkdir(Str(a.c), a.c, ans);
      }
      GrowthMoves();
      Settle(y, a, ans, tree, slots);
    }

    method ServeRemoval(a: Action, ans: Answers)
      requires Running() && Allowed(State(), a, ans) && OnPlainPath(a) && (a.Unlink? || a.Rmdir?)
      modifies this, fs`tree, loc.Values, table
      ensures Running() && fresh(loc.Values - old(loc.Values)) && Whole() == Advance(old(Whole()), a, ans)
    {
      hide Valid, State, Inv, FreshAnswer, StoreOk, UnlinkSpec, RmdirSpec, Str, KindAt, LocatedTree, LocatedSlots,
           LocatedData, TreeMoved, FileSystem.Keeps, Advance;
      ghost var y, tree, slots := Whole(), fs.tree, hm.ops;
      AllLocated();
      HandlesAreOps();
      if a.Unlink? {
        var threw, ret := Unlink(Str(a.c), a.c);
      } else {
        var threw, ret := Rmdir(Str(a.c), a.c);
      }
      RemovalMoves(tree);
      Settle(y, a, ans, tree, slots);
    }

    method ServeOpen(c: Path, ans: Answers)
      requires Running() && Allowed(State(), OpenFile(c), ans) && OnPlainPath(OpenFile(c))
      modifies this, fs`tree, loc.Values, hm, table, poller
      ensures Running() && fresh(loc.Values - old(loc.Values)) && Whole() == Advance(old(Whole()), OpenFile(c), ans)
    {
      hide Valid, State, Inv, FreshAnswer, StoreOk, OpenSpec, Str, KindAt, LocatedTree, LocatedSlots, LocatedData,
           TreeMoved, FileSystem.Grows, Advance;
      ghost var y, tree, slots := Whole(), fs.tree, hm.ops;
      AllLocated();
      HandlesAreOps();
      var h := Open(Str(c), c, ans);
      GrowthMoves();
      Settle(y, OpenFile(c), ans, tree, slots);
    }

    method ServeRead(h: int, size: nat, offset: nat, ans: Answers) returns (r: Result)
      requires Running() && Allowed(State(), Action.Read(h, size, offset), ans)
      modifies this, fs`tree, loc.Values, hm, table, poller
      ensures Running() && fresh(loc.Values - old(loc.Values))
      ensures Whole() == Advance(old(Whole()), Action.Read(h, size, offset), ans)
      ensures r == ReadOf(old(Whole()), h, size, offset, ans)
    {
      hide Valid, State, Inv, FreshAnswer, StoreOk, ReadSpec, LocatedTree, LocatedSlots, LocatedData, TreeMoved,
           FileSystem.Grows, Advance, FileData.ReadAt;
      ghost var y, tree, slots := Whole(), fs.tree, hm.ops;
      AllLocated();
      HandlesAreOps();
      FileOfHandle(h);
      r := Read(h, size, offset, ans);
      GrowthMoves();
      Settle(y, Action.Read(h, size, offset), ans, tree, slots);
    }

    method ServeClose(h: int, ans: Answers)
      requires Running() && Allowed(State(), Action.Close(h), ans)
      modifies this, hm, table, poller
      ensures Running() && fresh(loc.Values - old(loc.Values)) && Whole() == Advance(old(Whole()), Action.Close(h), ans)
    {
      hide Valid, State, Inv, FreshAnswer, StoreOk, CloseSpec, LocatedTree, LocatedSlots, LocatedData, TreeMoved,
           FileSystem.Keeps, Advance;
      ghost var y, tree, slots := Whole(), fs.tree, hm.ops;
      AllLocated();
      HandlesAreOps();
      FileSystem.KeepsAll(tree);
      ClonesOwnControls(State());
      var threw := CloseHandle(h);
      RemovalMoves(tree);
      Settle(y, Action.Close(h), ans, tree, slots);
    }

    method ServeOutside(states: map<int, SockState>, ans: Answers)
      requires Running() && Allowed(State(), Outside(states), ans)
      modifies this, table
      ensures Running() && fresh(loc.Values - old(loc.Values)) && Whole() == Advance(old(Whole()), Outside(states), ans)
    {
      hide Valid, State, Inv, FreshAnswer, StoreOk, LocatedTree, LocatedSlots, LocatedData, TreeMoved,
           FileSystem.Keeps, Advance;
      ghost var y, tree, slots := Whole(), fs.tree, hm.ops;
      AllLocated();
      HandlesAreOps();
      FileSystem.KeepsAll(tree);
      Drift(states);
      RemovalMoves(tree);
      Settle(y, Outside(states), ans, tree, slots);
    }

    method ServeWrite(h: int, text: string, offset: nat, ans: Answers) returns (r: Result)
      requires Running() && Allowed(State(), Action.Write(h, text, offset), ans)
      modifies this, loc.Values, table
      ensures Running() && fresh(loc.Values - old(loc.Values))
      ensures Whole() == Advance(old(Whole()), Action.Write(h, text, offset), ans)
      ensures r == WriteOf(old(Whole()), h, text, ans)
    {
      hide Valid, State, Inv, FreshAnswer, StoreOk, WriteSpec, LocatedTree, LocatedSlots, LocatedData, TreeMoved,
           FileSystem.Keeps, Advance, FileData.WriteAt;
      ghost var y, tree, slots := Whole(), fs.tree, hm.ops;
      AllLocated();
      HandlesAreOps();
      FileOfHandle(h);
      FileSystem.KeepsAll(tree);
      FileBytes();
      r := WriteHandle(h, text, offset, ans);
      if IsFile(h) {
        WritesNoState(y.w, h, text, ans);
        SettleChange(y, Action.Write(h, text, offset), ans);
      } else {
        RemovalMoves(tree);
        Settle(y, Action.Write(h, text, offset), ans, tree, slots);
      }
    }

    method ServeTruncate(c: Path, size: nat, ans: Answers)
      requires Running() && Allowed(State(), Action.Truncate(c, size), ans) && OnPlainPath(Action.Truncate(c, size))
      modifies this, loc.Values
      ensures Running() && fresh(loc.Values - old(loc.Values))
      ensures Whole() == Advance(old(Whole()), Action.Truncate(c, size), ans)
    {
      hide Valid, State, Inv, FreshAnswer, StoreOk, LocatedTree, LocatedSlots, LocatedData, TreeMoved,
           FileSystem.Keeps, Advance, FileData.Resize;
      ghost var y, tree, slots := Whole(), fs.tree, hm.ops;
      AllLocated();
      HandlesAreOps();
      FileOfPath(c);
      FileSystem.KeepsAll(tree);
      FileBytes();
      var threw, ret := Truncate(Str(c), c, size);
      if !threw && ret == 0 {
        SettleChange(y, Action.Truncate(c, size), ans);
      } else {
        RemovalMoves(tree);
        Settle(y, Action.Truncate(c, size), ans, tree, slots);
      }
    }

    lemma HandlesAreOps()
      ensures State().handles == OpsOf(hm.ops)
    {
    }

    lemma FileOfHandle(h: int)
      requires Running()
      ensures IsFile(h) <==> FileHandle(Whole(), h)
      ensures IsFile(h) ==> store.bound[h] in loc && loc[store.bound[h]] == hm.ops[h].entry
                            && store.bound[h] in store.data && store.data[store.bound[h]] == hm.ops[h].entry.data
    {
      hide Valid, Inv;
      HandleIsFile(h);
    }

    lemma FileBytes()
      requires Running()
      ensures loc.Keys == store.data.Keys && forall i :: i in loc ==> loc[i].data == store.data[i]
      ensures forall i, j :: i in loc && j in loc && loc[i] == loc[j] ==> i == j
    {
    }

    lemma FileOfPath(c: Path)
      requires Running()
      ensures Cuttable(c) != {} <==> c in State().tree && !State().tree[c].isDir
      ensures c in State().tree ==>
                c in store.ids && store.ids[c] in loc && c in fs.tree && loc[store.ids[c]] == fs.tree[c]
    {
      hide Valid, Inv;
    }

    /** Any run of calls takes the system where it takes the machine: protocol and files. */
    method ServeAll(run: seq<Call>)
      requires Running() && AllowedRun(State(), run)
      requires forall i :: 0 <= i < |run| ==> OnPlainPath(run[i].a)
      modifies this, fs`tree, loc.Values, hm, table, poller
      ensures Running() && fresh(loc.Values - old(loc.Values))
      ensures Whole() == AdvanceAll(old(Whole()), run) && State() == Exec(old(State()), run)
      decreases run
    {
      hide Running, State, Do, OnPlainPath, Advance;
      if run != [] {
        assert OnPlainPath(run[0].a);
        WorldOfOne(Whole(), run[0].a, run[0].ans);
        var r := Serve(run[0].a, run[0].ans);
        ServeAll(run[1..]);
      }
    }
  }

  lemma NewIsOutside(before: FileSystem.Tree, after: FileSystem.Tree, p: Path)
    requires FileSystem.Keeps(before, after) && FileSystem.OnePath(after) && p in after && p !in before
    ensures after[p] !in before.Values
  {
    forall q | q in before ensures before[q] != after[p] {
      assert after[q] == before[q];
    }
  }

  lemma WritesNoState(w: World, h: int, text: string, ans: Answers)
    requires FreshAnswer(w.net, ans) && h in w.handles && w.handles[h].Plain?
    ensures WriteSpec(w, h, text, ans).w == w
  {
  }

  lemma MoreLoc(store: Store, loc: map<FileId, FileSystem.Entry>, more: map<FileId, FileSystem.Entry>,
                slots: map<int, Slot>)
    requires LocatedSlots(store, loc, slots) && forall i :: i in loc ==> i in more && more[i] == loc[i]
    ensures LocatedSlots(store, more, slots)
  {
  }

  /** The paths a client names are absolute, below the root, with no empty component. */
  ghost predicate OnPlainPath(a: Action) {
    match a
    case Mknod(c) => c != [] && AllNames(c)
    case Mkdir(c) => c != [] && AllNames(c)
    case Unlink(c) => c != [] && AllNames(c)
    case Rmdir(c) => c != [] && AllNames(c)
    case OpenFile(c) => c != [] && AllNames(c)
    case Truncate(c, _) => c != [] && AllNames(c)
    case _ => true
  }

  lemma ClonesOwnControls(w: World)
    requires Inv(w)
    ensures forall h :: h in w.handles && w.handles[h].CloneOp? ==>
              w.handles[h].ctl in w.handles && w.handles[w.handles[h].ctl].CtlOp?
  {
  }

  /** What the tree goes through when the current session is made. */
  lemma MakeSessionFacts(w: World, ans: Answers)
    requires Base(w) && CLONE in w.tree && DirOf(Dec(w.current)) !in w.tree
    ensures var d := Dec(w.current);
            var hook := SessionHook(d, 0, ans.hookFault);
            && CreatesAbsent(w.tree, SessionDirPath(d), true, NameOf(SessionDir), hook)
            && CreateAt(w.tree, SessionDirPath(d), true, NameOf(SessionDir), hook)
               == Outcome(MakeSession(w, ans).0.tree, MakeSession(w, ans).1)
            && Base(MakeSession(w, ans).0)
  {
    hide WithSession, Dec, TreeOk, SessionsOk, SessionHook, CreateAt, CreatesAbsent, NameOf;
    DecIsNumeral(w.current);
    TreeFacts(w);
    SessionCreation(w.tree, Dec(w.current), ans.hookFault);
    SessionAdded(w.tree, w.current, w.current);
  }

  lemma TreeFacts(w: World)
    requires Base(w) && CLONE in w.tree
    ensures PrefixClosed(w.tree) && TCP in w.tree && w.tree[TCP].isDir
  {
    assert Parent(CLONE) == TCP;
  }

  lemma NumberPaths(n: nat)
    ensures var d := Dec(n);
            && DirOf(d) != [] && AllNames(DirOf(d)) && Str(DirOf(d)) == SessionDirPath(d)
            && FileOf(d, Ctl) != [] && AllNames(FileOf(d, Ctl)) && Str(FileOf(d, Ctl)) == SessionFilePath(d, Ctl)
            && FileOf(d, Ctl) != CLONE
  {
    DecIsNumeral(n);
    NumeralIsName(Dec(n));
    FileTextIsName(Ctl);
    assert IsName("tcp");
    SessionStrings(Dec(n), Ctl);
  }

  /** Opening the current control file, as any file is opened. */
  lemma CtlOpens(w: World, ans: Answers)
    requires FreshAnswer(w.net, ans)
    ensures OpenSpec(w, FileOf(Dec(w.current), Ctl), ans) == OpenCtl(w)
  {
    hide Dec, Str, CtlNumber, DirNumber, KindAt;
    var n := w.current;
    DecIsNumeral(n);
    SessionFileRoute(Dec(n), Ctl);
    SessionStrings(Dec(n), Ctl);
    KeysAgreeIff(Dec(n), Ctl);
  }

  /** The two requests clone probes with. */
  ghost predicate IsProbe(request: string, want: SockState) {
    (request == "is_connected" && want == Established) || (request == "is_announced" && want == Listening)
  }

  lemma ProbeIgnoresLast(w: World, last: int, want: SockState, ans: Answers)
    ensures ProbeSession(w.(last := last), w.current, want, ans) == ProbeSession(w, w.current, want, ans)
  {
  }

  lemma ProbesAreProbes()
    ensures IsProbe("is_connected", Established) && IsProbe("is_announced", Listening)
  {
  }

  lemma ProbeReplies(n: Net, num: nat, request: string, want: SockState, ans: Answers)
    requires FreshAnswer(n, ans) && IsProbe(request, want)
    ensures Interpret(n, num, request, ans) == ProbeReply(n, Probe(n, num, want, ans))
  {
    hide Dec;
    assert RequestParser.IsCommandWord("is_connected") && RequestParser.IsCommandWord("is_announced");
    RequestParser.ReadsCommandAlone(request);
  }

  lemma ProbeCall(w: World, h: int, n: nat, request: string, want: SockState, ans: Answers)
    requires FreshAnswer(w.net, ans) && IsProbe(request, want)
    requires h in w.handles && w.handles[h] == CtlOp(n, false)
    ensures var r := WriteSpec(w, h, request, ans);
            && r.w == w
            && (match Probe(w.net, n, want, ans)
                case None => r.r == Threw
                case Some(yes) => !r.r.Threw? && (r.r != Result.Code(-ENOTCONN) <==> yes))
  {
    hide Interpret, Probe;
    ProbeReplies(w.net, n, request, want, ans);
  }

  lemma BaseCtl(w: World, n: nat)
    requires Base(w) && FileOf(Dec(n), Ctl) in w.tree
    ensures !w.tree[FileOf(Dec(n), Ctl)].isDir
  {
    hide Dec;
    DecIsNumeral(n);
    assert Parent(FileOf(Dec(n), Ctl)) == DirOf(Dec(n));
    assert GoodSession(w.tree, Dec(n), w.current);
  }

  /** Probing changes neither the tree nor the table. */
  lemma CreateTouchesNoFile(w: World, ans: Answers)
    ensures CreateClone(w, ans).0.tree == w.tree && CreateClone(w, ans).0.net == w.net
  {
    hide ProbeSession;
  }

  /** The last parts leave the clone's own handle alone. */
  lemma OpenCtlKeeps(w: World, ans: Answers, h: int)
    requires h in w.handles && h <= w.last
    ensures h in OpenCtl(MakeSession(w, ans).0).w.handles
  {
    hide WithSession;
  }

  lemma HandleGone(w: World, h: int, op: Op)
    requires h !in w.handles
    ensures w.handles[h := op] - {h} == w.handles
  {
  }

  lemma BaseFewer(w: World, h: int)
    requires Base(w)
    ensures Base(w.(handles := w.handles - {h}))
  {
  }

  /** The counter may go on. */
  lemma BaseNext(w: World)
    requires Base(w)
    ensures Base(w.(current := w.current + 1))
  {
    forall d | DirOf(d) in w.tree && w.tree[DirOf(d)].isDir && IsNumeral(d)
      ensures GoodSession(w.tree, d, w.current + 1)
    {
      assert GoodSession(w.tree, d, w.current);
    }
  }

  // ----- Creations and removals on plain paths -----

  lemma PlainParent(t: Shape, c: Path)
    requires c != [] && AllNames(c)
    ensures ParentDir(t, Str(c)) == (if Parent(c) in t && t[Parent(c)].isDir then Some(Parent(c)) else None)
    ensures FileName(Str(c)) == Last(c) && Child(Parent(c), Last(c)) == c
  {
    hide FileName, ParentPath, Comps, Str;
    StrParts(c);
    ChildOfParent(c);
  }

  /** A creation whose hook creates nothing further. */
  lemma SimpleCreation(w: World, c: Path, isDir: bool, hook: Hook)
    requires Base(w) && c != [] && AllNames(c) && c !in w.tree && (hook == Throw || hook == Return(0))
    requires isDir ==> KindAt(c, true) != SessionDir
    ensures var name := NameOf(KindAt(c, isDir));
            var r := CreateAt(w.tree, Str(c), isDir, name, hook);
            && CreatesAbsent(w.tree, Str(c), isDir, name, hook)
            && r == (if Creatable(w, c) && hook == Return(0) then Outcome(AddTo(w, c, isDir).tree, true)
                     else Outcome(w.tree, false))
            && Base(w.(tree := r.t))
  {
    hide FileName, ParentPath, Comps, Str, KindAt, NameOf, TreeOk, SessionsOk;
    PlainParent(w.tree, c);
    if Creatable(w, c) {
      var info := Info(isDir, NameOf(KindAt(c, isDir)));
      BaseIsClosed(w);
      AddKeepsClosed(w.tree, Parent(c), Last(c), info);
      assert Remove(w.tree[c := info], c) == w.tree;
      NewEntryKeeps(w.tree, c, isDir, w.current);
    }
  }

  lemma BaseIsClosed(w: World)
    requires Base(w)
    ensures PrefixClosed(w.tree)
  {
  }

  /** The tree after the creation of "/tcp" at the root. */
  function WithTcp(t: Shape): Shape {
    t[TCP := Info(true, NameOf(KindAt(TCP, true)))][CLONE := Info(false, NameOf(KindAt(CLONE, false)))]
  }

  lemma TcpParts(t: Shape)
    requires PrefixClosed(t) && TCP !in t
    ensures var t1 := t[TCP := Info(true, NameOf(KindAt(TCP, true)))];
            && CLONE !in t1
            && ParentDir(t, Str(TCP)) == Some([]) && Child([], FileName(Str(TCP))) == TCP
            && ParentDir(t1, Str(CLONE)) == Some(TCP) && Child(TCP, FileName(Str(CLONE))) == CLONE
  {
    hide FileName, ParentPath, Comps, Str, KindAt, NameOf;
    var t1 := t[TCP := Info(true, NameOf(KindAt(TCP, true)))];
    ClonePath();
    assert IsName("tcp");
    PlainParent(t, TCP);
    PlainParent(t1, CLONE);
    assert Parent(TCP) == [] && Parent(CLONE) == TCP;
    AddKeepsClosed(t, [], "tcp", Info(true, ""));
    assert Child([], "tcp") == TCP && Below(TCP, CLONE);
  }

  /** The creation of "/tcp" brings the clone file. */
  lemma TcpCreates(t: Shape)
    requires PrefixClosed(t) && TCP !in t
    ensures var ops := NameOf(KindAt(TCP, true));
            var hook := Create(false, Str(CLONE), Some(NameOf(KindAt(CLONE, false))), Return(0), Return(0));
            && CreatesAbsent(t, Str(TCP), true, ops, hook)
            && CreateAt(t, Str(TCP), true, ops, hook) == Outcome(WithTcp(t), true)
  {
    hide FileName, ParentDir, Str, KindAt, NameOf;
    TcpParts(t);
    var t1 := t[TCP := Info(true, NameOf(KindAt(TCP, true)))];
    assert CreateAt(t1, Str(CLONE), false, NameOf(KindAt(CLONE, false)), Return(0)) == Outcome(WithTcp(t), true);
    assert CreatesAbsent(t1, Str(CLONE), false, NameOf(KindAt(CLONE, false)), Return(0));
    assert HookCreatesAbsent(t1, Create(false, Str(CLONE), Some(NameOf(KindAt(CLONE, false))), Return(0), Return(0)));
  }

  lemma TcpKeepsBase(w: World)
    requires Base(w) && TCP !in w.tree
    ensures Base(w.(tree := WithTcp(w.tree)))
  {
    hide KindAt, NameOf, TreeOk, SessionsOk;
    ClonePath();
    assert IsName("tcp");
    RouteOfNames(TCP);
    BaseIsClosed(w);
    TcpParts(w.tree);
    assert Parent(TCP) == [] && Parent(CLONE) == TCP;
    NewEntryKeeps(w.tree, TCP, true, w.current);
    NewEntryKeeps(w.tree[TCP := Info(true, NameOf(KindAt(TCP, true)))], CLONE, false, w.current);
  }

  lemma TcpCreation(w: World, c: Path, name: string)
    requires Base(w) && c != [] && AllNames(c) && c !in w.tree && KindAt(c, true) == TcpDir
    requires name == NameOf(Route("/tcp/clone", Registry.Regular))
    ensures var hook := Create(false, "/tcp/clone", Some(name), Return(0), Return(0));
            && CreatesAbsent(w.tree, Str(c), true, NameOf(TcpDir), hook)
            && CreateAt(w.tree, Str(c), true, NameOf(TcpDir), hook)
               == Outcome(AddTo(AddTo(w, c, true), CLONE, false).tree, true)
            && Creatable(w, c) && Base(AddTo(AddTo(w, c, true), CLONE, false))
  {
    hide Str, KindAt, NameOf, TreeOk, SessionsOk, CreateAt, CreatesAbsent;
    RouteOfNames(c);
    ClonePath();
    CloneKind(name);
    BaseIsClosed(w);
    assert Parent(TCP) == [];
    TcpCreates(w.tree);
    TcpKeepsBase(w);
  }

  lemma CloneKind(name: string)
    requires name == NameOf(Route("/tcp/clone", Registry.Regular))
    ensures name == NameOf(KindAt(CLONE, false))
  {
    hide NameOf, Route;
    ClonePath();
  }

  /** What unlink of a plain path does to the tree. */
  lemma FileRemoval(w: World, c: Path)
    requires Base(w) && c != [] && AllNames(c)
    ensures forall veto: Veto :: veto.Replied? ==>
              var r := RemoveAt(w.tree, Str(c), false, veto, false);
              && r.t == (if c in w.tree && !w.tree[c].isDir && veto.ret >= 0 then Remove(w.tree, c) else w.tree)
              && (!r.threw && r.ret >= 0 <==> c in w.tree && !w.tree[c].isDir && veto.ret >= 0)
              && (r.threw <==> !(c in w.tree && !w.tree[c].isDir)) && (!r.threw ==> r.ret == veto.ret)
    ensures c in w.tree ==> Creatable(w, c)
    ensures c in w.tree && !w.tree[c].isDir && KindAt(c, false) != File(Ctl) ==> Base(w.(tree := Remove(w.tree, c)))
  {
    hide FileName, ParentPath, Comps, Str, KindAt, NameOf, TreeOk, SessionsOk;
    PlainParent(w.tree, c);
    BaseIsClosed(w);
    if c in w.tree && !w.tree[c].isDir && KindAt(c, false) != File(Ctl) {
      forall d | IsNumeral(d) && DirOf(d) in w.tree && w.tree[DirOf(d)].isDir ensures SparesSession(c, d) {
        FileSparesSessions(w.tree, c, w.current, d);
      }
      RemovalKeeps(w.tree, c, w.current);
    }
  }

  /** What rmdir of a plain path does to the tree; a session's directory may go. */
  lemma DirRemoval(w: World, c: Path)
    requires Base(w) && c != [] && AllNames(c)
    ensures forall veto: Veto :: veto == Raised || veto == Replied(0) ==>
              var r := RemoveAt(w.tree, Str(c), true, veto, false);
              && r.t == (if c in w.tree && w.tree[c].isDir && veto == Replied(0) then Remove(w.tree, c) else w.tree)
              && (!r.threw && r.ret >= 0 <==> c in w.tree && w.tree[c].isDir && veto == Replied(0))
              && (r.threw <==> !(c in w.tree && w.tree[c].isDir && veto == Replied(0))) && (!r.threw ==> r.ret == 0)
    ensures c in w.tree ==> Creatable(w, c)
    ensures c in w.tree && w.tree[c].isDir ==> Base(w.(tree := Remove(w.tree, c)))
  {
    hide FileName, ParentPath, Comps, Str, KindAt, NameOf;
    PlainParent(w.tree, c);
    BaseIsClosed(w);
    if c in w.tree && w.tree[c].isDir {
      RemoveKeepsClosed(w.tree, c);
      var u := Remove(w.tree, c);
      forall d | DirOf(d) in u && u[DirOf(d)].isDir && IsNumeral(d) ensures GoodSession(u, d, w.current) {
        assert GoodSession(w.tree, d, w.current);
        PrefixOfCtl(c, d);
        assert !Below(c, DirOf(d));
      }
    }
  }
}

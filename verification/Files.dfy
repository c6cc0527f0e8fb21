/**
 The bytes of files under the protocol: which file each path and each open handle stands for,
 and what every file holds. A file outlives its path for as long as handles are open on it.
 */
module Files {
  import opened Options
  import opened Decimal
  import opened Paths
  import opened FlatTree
  import opened FileData
  import opened Routes
  import opened Sessions
  import opened FdTable
  import opened Requests
  import opened Protocol
  import opened ProtocolInvariant
  import opened ProtocolSteps
  import opened ProtocolTheorems

  /** A file is told apart by its path and by the call that created it. */
  datatype FileId = FileId(path: Path, birth: nat)

  /** The files in the tree, the files behind handles on default files, and the bytes of all files so far. */
  datatype Store = Store(ids: map<Path, FileId>, bound: map<int, FileId>, data: map<FileId, string>, clock: nat)

  datatype System = System(w: World, s: Store)

  // ----- One change of a file -----

  datatype Update = Put(text: string, offset: nat) | Cut(size: nat)

  function Updated(d: string, u: Update): string {
    match u
    case Put(text, offset) => WriteAt(d, text, offset)
    case Cut(size) => Resize(d, size)
  }

  /** One change after the other. */
  function Replay(d: string, us: seq<Update>): string
    decreases us
  {
    if us == [] then d else Replay(Updated(d, us[0]), us[1..])
  }

  /** The byte at i: that of the last write over i, unless the file was cut below i after it. */
  function LastByte(d: string, us: seq<Update>, i: nat): byte {
    if us == [] then ByteAt(d, i)
    else
      match us[|us| - 1]
      case Put(text, offset) =>
        if offset <= i < offset + |text| then text[i - offset] else LastByte(d, us[..|us| - 1], i)
      case Cut(size) => if i < size then LastByte(d, us[..|us| - 1], i) else '\0'
  }

  /** The length: the last cut, or the farthest write since. */
  function LastLength(d: string, us: seq<Update>): nat {
    if us == [] then |d|
    else
      match us[|us| - 1]
      case Put(text, offset) => Max(LastLength(d, us[..|us| - 1]), offset + |text|)
      case Cut(size) => size
  }

  lemma {:induction false} ReplaySnoc(d: string, us: seq<Update>, u: Update)
    ensures Replay(d, us + [u]) == Updated(Replay(d, us), u)
    decreases us
  {
    hide Updated;
    if us == [] {
      assert [u][1..] == [] && us + [u] == [u];
    } else {
      assert (us + [u])[1..] == us[1..] + [u];
      ReplaySnoc(Updated(d, us[0]), us[1..], u);
    }
  }

  /** After any changes, length and bytes are those of the last that matter. */
  lemma {:induction false} ReplayMeaning(d: string, us: seq<Update>)
    ensures |Replay(d, us)| == LastLength(d, us)
    ensures forall i: nat :: ByteAt(Replay(d, us), i) == LastByte(d, us, i)
  {
    hide Replay, WriteAt, Resize;
    if us == [] {
      ReplayNothing(d);
    } else {
      var front, u := us[..|us| - 1], us[|us| - 1];
      assert us == front + [u];
      ReplayMeaning(d, front);
      ReplaySnoc(d, front, u);
      if u.Put? {
        WriteMeaning(Replay(d, front), u.text, u.offset);
      }
    }
  }

  lemma ReplayNothing(d: string)
    ensures Replay(d, []) == d
  {
  }

  // ----- One call -----

  /** A live handle on a default file. */
  predicate FileHandle(y: System, h: int) {
    h in y.w.handles && y.w.handles[h].Plain? && h in y.s.bound
  }

  datatype Change = Change(id: FileId, u: Update)

  /** The file a call writes or truncates. */
  function ChangeOf(y: System, a: Action): Option<Change> {
    match a
    case Write(h, text, offset) => if FileHandle(y, h) then Some(Change(y.s.bound[h], Put(text, offset))) else None
    case Truncate(c, size) =>
      if c in y.w.tree && !y.w.tree[c].isDir && c in y.s.ids then Some(Change(y.s.ids[c], Cut(size))) else None
    case _ => None
  }

  /** What a read gives: a default file's bytes, or what the protocol answers. */
  function ReadOf(y: System, h: int, size: nat, offset: nat, ans: Answers): Result
    requires FreshAnswer(y.w.net, ans)
  {
    if FileHandle(y, h) && y.s.bound[h] in y.s.data then Text(ReadAt(y.s.data[y.s.bound[h]], size, offset))
    else ReadSpec(y.w, h, size, ans).r
  }

  function WriteOf(y: System, h: int, text: string, ans: Answers): Result
    requires FreshAnswer(y.w.net, ans)
  {
    if FileHandle(y, h) then Result.Code(|text|) else WriteSpec(y.w, h, text, ans).r
  }

  /** New paths get new files. */
  function NextIds(s: Store, t: Shape): map<Path, FileId> {
    map p | p in t :: if p in s.ids then s.ids[p] else FileId(p, s.clock)
  }

  function Born(s: Store, t: Shape): set<FileId> {
    set p | p in t && p !in s.ids :: FileId(p, s.clock)
  }

  /** Opening a default file binds the handle to the file its path stands for now. */
  function NextBound(y: System, a: Action, ans: Answers): map<int, FileId>
    requires FreshAnswer(y.w.net, ans)
  {
    match a
    case OpenFile(c) =>
      var o := OpenSpec(y.w, c, ans);
      if o.h.Some? && o.h.value in o.w.handles && o.w.handles[o.h.value].Plain? && c in y.s.ids
      then y.s.bound[o.h.value := y.s.ids[c]]
      else y.s.bound
    case Close(h) => y.s.bound - {h}
    case _ => y.s.bound
  }

  /** Removing a path takes no file away: its bytes stay for the handles open on it. */
  function NextData(s: Store, t: Shape, change: Option<Change>): map<FileId, string> {
    map id | id in s.data.Keys + Born(s, t) ::
      if id !in s.data then ""
      else if change.Some? && change.value.id == id then Updated(s.data[id], change.value.u)
      else s.data[id]
  }

  function Advance(y: System, a: Action, ans: Answers): System
    requires FreshAnswer(y.w.net, ans)
  {
    var w := Do(y.w, a, ans);
    System(w, Store(NextIds(y.s, w.tree), NextBound(y, a, ans), NextData(y.s, w.tree, ChangeOf(y, a)), y.s.clock + 1))
  }

  lemma PartsOfAdvance(y: System, a: Action, ans: Answers)
    requires FreshAnswer(y.w.net, ans)
    ensures var z, t := Advance(y, a, ans), Do(y.w, a, ans).tree;
            && z.w == Do(y.w, a, ans) && z.s.ids == NextIds(y.s, t) && z.s.data == NextData(y.s, t, ChangeOf(y, a))
  {
    hide Do;
  }

  ghost function AdvanceAll(y: System, run: seq<Call>): System
    requires AllowedRun(y.w, run)
    decreases run
  {
    if run == [] then y else AdvanceAll(Advance(y, run[0].a, run[0].ans), run[1..])
  }

  // ----- What every call keeps -----

  /** Every path has a file, exactly the handles on default files are bound to one, and all files are older than now. */
  ghost predicate StoreOk(y: System) {
    && y.s.ids.Keys == y.w.tree.Keys
    && (forall p :: p in y.s.ids ==> y.s.ids[p] in y.s.data && y.s.ids[p].path == p)
    && (forall h :: h in y.s.bound <==> h in y.w.handles && y.w.handles[h].Plain?)
    && (forall h :: h in y.s.bound ==> y.s.bound[h] in y.s.data)
    && (forall id :: id in y.s.data ==> id.birth < y.s.clock)
  }

  lemma FilesAreOlder(y: System)
    requires StoreOk(y)
    ensures forall id :: id in y.s.data ==> id.birth < y.s.clock
  {
  }

  /** A handle on a default file stays one until it is closed. */
  lemma PlainStays(w: World, a: Action, ans: Answers, h: int)
    requires Inv(w) && Allowed(w, a, ans) && h in w.handles && w.handles[h].Plain? && a != Close(h)
    ensures h in Do(w, a, ans).handles && Do(w, a, ans).handles[h].Plain?
  {
    hide Inv, Dec, OpenClone, OpenSpec, ReadSpec, HasSession, InUse, Str, KindAt, DirNumber, CtlNumber, Interpret;
    match a
    case OpenFile(c) => OpenAddsPlain(w, c, ans, h);
    case Read(g, size, _) => ReadAddsNoPlain(w, g, size, ans, h);
    case Close(g) => CloneOwnsCtlOnly(w, g);
    case _ =>
  }

  lemma CloneOwnsCtlOnly(w: World, g: int)
    requires Inv(w)
    ensures g in w.handles && w.handles[g].CloneOp? ==>
              w.handles[g].ctl in w.handles && w.handles[w.handles[g].ctl].CtlOp?
  {
  }

  /** Only an open of a default file makes such a handle. */
  lemma PlainIsOld(w: World, a: Action, ans: Answers, h: int)
    requires Inv(w) && Allowed(w, a, ans) && h in Do(w, a, ans).handles && Do(w, a, ans).handles[h].Plain?
    ensures (h in w.handles && w.handles[h].Plain? && a != Close(h)) ||
        (a.OpenFile? && OpenSpec(w, a.c, ans).h == Some(h))
  {
    hide Inv, Dec, OpenClone, OpenSpec, ReadSpec, HasSession, InUse, Str, KindAt, DirNumber, CtlNumber, Interpret;
    match a
    case OpenFile(c) => OpenAddsPlain(w, c, ans, h);
    case Read(g, size, _) => ReadAddsNoPlain(w, g, size, ans, h);
    case _ =>
  }

  lemma OpenAddsPlain(w: World, c: Path, ans: Answers, h: int)
    requires Inv(w) && FreshAnswer(w.net, ans)
    ensures var o := OpenSpec(w, c, ans);
            && (h in w.handles ==> h in o.w.handles && o.w.handles[h] == w.handles[h])
            && (h in o.w.handles && o.w.handles[h].Plain? ==> h in w.handles || o.h == Some(h))
            && (o.h.Some? ==> o.h.value > w.last && o.h.value !in w.handles && c in w.tree && !w.tree[c].isDir)
  {
    hide Inv, Dec, OpenClone, HasSession, InUse, Str, KindAt, DirNumber, CtlNumber;
    NoLaterHandles(w);
    if c in w.tree && !w.tree[c].isDir && KindAt(c, false) == Clone {
      CloneIsThere(w, c);
      OpenCloneKeeps(w, ans);
    }
  }

  lemma ReadAddsNoPlain(w: World, g: int, size: nat, ans: Answers, h: int)
    requires Inv(w) && FreshAnswer(w.net, ans)
    ensures var u := ReadSpec(w, g, size, ans).w;
            && (h in w.handles && w.handles[h].Plain? ==> h in u.handles && u.handles[h].Plain?)
            && (h in u.handles && u.handles[h].Plain? ==> h in w.handles && w.handles[h].Plain?)
  {
    hide Inv, Dec, OpenClone, CloseSpec, HasSession, InUse, DirNumber;
    if g in w.handles && w.handles[g].ListenOp? && ans.fd.Some? && CLONE in w.tree && !w.tree[CLONE].isDir {
      OpenKeeps(w, ans.fd.value, Established);
      var w1 := w.(net := OpenSocket(w.net, ans.fd.value, Established));
      OpenCloneKeeps(w1, ans);
      var o := OpenClone(w1, ans);
      if o.h.Some? {
        CloseAfterClone(w1, o);
      }
    }
  }

  lemma BoundKeeps(y: System, a: Action, ans: Answers)
    requires StoreOk(y) && Inv(y.w) && Allowed(y.w, a, ans)
    ensures var z := Advance(y, a, ans);
            && (forall h :: h in z.s.bound <==> h in z.w.handles && z.w.handles[h].Plain?)
            && (forall h :: h in z.s.bound ==> z.s.bound[h] in y.s.data)
            && (forall h :: h in y.s.bound && a != Close(h) ==> h in z.s.bound && z.s.bound[h] == y.s.bound[h])
  {
    hide Inv, Do, OpenSpec, NextIds, NextData, ChangeOf, KindAt, HasSession;
    var z := Advance(y, a, ans);
    forall h | h in y.w.handles && y.w.handles[h].Plain? && a != Close(h)
      ensures h in z.w.handles && z.w.handles[h].Plain?
    {
      PlainStays(y.w, a, ans, h);
    }
    forall h | h in z.w.handles && z.w.handles[h].Plain?
      ensures (h in y.w.handles && y.w.handles[h].Plain? && a != Close(h)) ||
          (a.OpenFile? && OpenSpec(y.w, a.c, ans).h == Some(h))
    {
      PlainIsOld(y.w, a, ans, h);
    }
    if a.OpenFile? {
      OpenedIsBound(y, a.c, ans);
    } else if a.Close? {
      ClosedIsGone(y.w, a.h, ans);
    }
  }

  lemma ClosedIsGone(w: World, h: int, ans: Answers)
    requires FreshAnswer(w.net, ans)
    ensures h !in Do(w, Close(h), ans).handles
  {
  }

  lemma OpenedIsBound(y: System, c: Path, ans: Answers)
    requires StoreOk(y) && Inv(y.w) && FreshAnswer(y.w.net, ans)
    ensures var o := OpenSpec(y.w, c, ans);
            && Do(y.w, OpenFile(c), ans) == o.w
            && (o.h.Some? ==> c in y.s.ids && o.h.value !in y.s.bound)
  {
    hide Inv, OpenSpec;
    OpenAddsPlain(y.w, c, ans, 0);
  }

  lemma StoreKeeps(y: System, a: Action, ans: Answers)
    requires StoreOk(y) && Inv(y.w) && Allowed(y.w, a, ans)
    ensures StoreOk(Advance(y, a, ans)) && Inv(Advance(y, a, ans).w)
  {
    hide Inv, Do, NextBound, ChangeOf, Updated;
    BoundKeeps(y, a, ans);
    CallKeeps(y.w, a, ans);
    FilesStay(y, a, ans);
  }

  /** No call takes a file away, and it keeps its bytes unless it is the one the call changes. */
  lemma FilesStay(y: System, a: Action, ans: Answers)
    requires FreshAnswer(y.w.net, ans)
    ensures var z := Advance(y, a, ans);
            var change := ChangeOf(y, a);
            && (forall id :: id in y.s.data ==> id in z.s.data)
            && (forall id :: id in y.s.data ==>
                  z.s.data[id] == if change.Some? && change.value.id == id then Updated(y.s.data[id], change.value.u)
                                  else y.s.data[id])
  {
    hide Do, NextBound, NextIds, ChangeOf, Updated;
  }

  // ----- Every run -----

  /** The changes a run makes to a file, through whatever handle or path, in order. */
  ghost function ChangesTo(y: System, run: seq<Call>, id: FileId): seq<Update>
    requires AllowedRun(y.w, run)
    decreases run
  {
    if run == [] then []
    else
      var change := ChangeOf(y, run[0].a);
      (if change.Some? && change.value.id == id then [change.value.u] else [])
      + ChangesTo(Advance(y, run[0].a, run[0].ans), run[1..], id)
  }

  lemma {:induction false} DataIsReplay(y: System, run: seq<Call>, id: FileId)
    requires AllowedRun(y.w, run) && id in y.s.data
    ensures var z := AdvanceAll(y, run);
            id in z.s.data && z.s.data[id] == Replay(y.s.data[id], ChangesTo(y, run, id))
    decreases run
  {
    hide Do, Advance, Updated, ChangeOf;
    if run != [] {
      var a, ans := run[0].a, run[0].ans;
      FilesStay(y, a, ans);
      WorldOfOne(y, a, ans);
      DataIsReplay(Advance(y, a, ans), run[1..], id);
      var first, rest := ChangeOf(y, a), ChangesTo(Advance(y, a, ans), run[1..], id);
      if first.Some? && first.value.id == id {
        assert ([first.value.u] + rest)[1..] == rest;
      } else {
        assert [] + rest == rest;
      }
    }
  }

  lemma WorldOfOne(y: System, a: Action, ans: Answers)
    requires FreshAnswer(y.w.net, ans)
    ensures Advance(y, a, ans).w == Do(y.w, a, ans)
  {
    hide Do;
  }

  /** A handle stands for one file until it is closed, whatever happens to the tree. */
  lemma {:induction false} HandleKeepsFile(y: System, run: seq<Call>, h: int)
    requires StoreOk(y) && Inv(y.w) && AllowedRun(y.w, run) && h in y.s.bound
    requires forall i :: 0 <= i < |run| ==> run[i].a != Close(h)
    ensures var z := AdvanceAll(y, run);
            FileHandle(z, h) && z.s.bound[h] == y.s.bound[h] && StoreOk(z) && Inv(z.w)
    decreases run
  {
    hide Inv, Do, Advance;
    if run != [] {
      var a, ans := run[0].a, run[0].ans;
      WorldOfOne(y, a, ans);
      StoreKeeps(y, a, ans);
      BoundKeeps(y, a, ans);
      HandleKeepsFile(Advance(y, a, ans), run[1..], h);
    }
  }

  /**
   Open handles survive removal. Over any run that does not close it, a handle on a default file reads exactly
   what the changes to its file left, made through this handle or any other, or through a path; whatever
   was unlinked, removed or created anew in between.
   */
  lemma HandleReadsWhatWasWritten(y: System, run: seq<Call>, h: int, size: nat, offset: nat, ans: Answers)
    requires StoreOk(y) && Inv(y.w) && AllowedRun(y.w, run) && h in y.s.bound
    requires forall i :: 0 <= i < |run| ==> run[i].a != Close(h)
    requires FreshAnswer(AdvanceAll(y, run).w.net, ans)
    ensures var id := y.s.bound[h];
            var d, us := y.s.data[id], ChangesTo(y, run, id);
            var r := ReadOf(AdvanceAll(y, run), h, size, offset, ans);
            var length := LastLength(d, us);
            && r.Text?
            && |r.s| == (if offset >= length then 0 else if size < length - offset then size else length - offset)
            && forall i :: 0 <= i < |r.s| ==> r.s[i] == LastByte(d, us, offset + i)
  {
    hide Inv, Advance, AllowedRun, AdvanceAll, ReadAt, Replay, LastByte, LastLength, ChangesTo, ReadSpec;
    var id := y.s.bound[h];
    HandleKeepsFile(y, run, h);
    DataIsReplay(y, run, id);
    ReplayMeaning(y.s.data[id], ChangesTo(y, run, id));
    ReadMeaning(AdvanceAll(y, run).s.data[id], size, offset);
  }

  /** The path is in the tree before every call of the run and after the last. */
  ghost predicate StaysInTree(w: World, run: seq<Call>, c: Path)
    requires AllowedRun(w, run)
    decreases run
  {
    c in w.tree && (run != [] ==> StaysInTree(Do(w, run[0].a, run[0].ans), run[1..], c))
  }

  /** A path stands for one file for as long as it is in the tree. */
  lemma {:induction false} PathKeepsFile(y: System, run: seq<Call>, c: Path)
    requires StoreOk(y) && Inv(y.w) && AllowedRun(y.w, run) && StaysInTree(y.w, run, c)
    ensures c in y.s.ids && c in AdvanceAll(y, run).s.ids && AdvanceAll(y, run).s.ids[c] == y.s.ids[c]
    decreases run
  {
    hide Inv, Do, NextBound, NextData, ChangeOf;
    if run != [] {
      StoreKeeps(y, run[0].a, run[0].ans);
      PathKeepsFile(Advance(y, run[0].a, run[0].ans), run[1..], c);
    }
  }

  /** Handles opened on a path at two times share their file, as long as the path was in the tree in between. */
  lemma SamePathSameFile(y: System, c: Path, first: Answers, run: seq<Call>, second: Answers)
    requires StoreOk(y) && Inv(y.w) && FreshAnswer(y.w.net, first) && c in y.w.tree && !y.w.tree[c].isDir
    requires KindAt(c, false) == FileDefault
    requires var y1 := Advance(y, OpenFile(c), first);
             && AllowedRun(y1.w, run) && StaysInTree(y1.w, run, c) && FreshAnswer(AdvanceAll(y1, run).w.net, second)
             && forall i :: 0 <= i < |run| ==> run[i].a != Close(y.w.last + 1)
    ensures var z := AdvanceAll(Advance(y, OpenFile(c), first), run);
            var u := Advance(z, OpenFile(c), second);
            && c in z.w.tree
            && (!z.w.tree[c].isDir ==>
                  && FileHandle(u, y.w.last + 1) && FileHandle(u, z.w.last + 1)
                  && u.s.bound[y.w.last + 1] == u.s.bound[z.w.last + 1])
  {
    hide Inv, Do, Advance, AdvanceAll, AllowedRun, StaysInTree, StoreOk, KindAt, OpenSpec, Allowed;
    var h := y.w.last + 1;
    OpenBinds(y, c, first);
    var y1 := Advance(y, OpenFile(c), first);
    StoreKeeps(y, OpenFile(c), first);
    BoundInside(y1);
    HandleKeepsFile(y1, run, h);
    PathKeepsFile(y1, run, c);
    var z := AdvanceAll(y1, run);
    StaysAtTheEnd(y1, run, c);
    if !z.w.tree[c].isDir {
      OpenBinds(z, c, second);
      BoundKeeps(z, OpenFile(c), second);
      BoundInside(z);
    }
  }

  lemma BoundInside(y: System)
    requires StoreOk(y)
    ensures forall h :: FileHandle(y, h) <==> h in y.s.bound
  {
  }

  lemma StaysAtTheEnd(y: System, run: seq<Call>, c: Path)
    requires StoreOk(y) && Inv(y.w) && AllowedRun(y.w, run) && StaysInTree(y.w, run, c)
    ensures c in AdvanceAll(y, run).w.tree
    decreases run
  {
    hide Inv, Do, NextBound, NextData, NextIds, ChangeOf;
    if run != [] {
      StoreKeeps(y, run[0].a, run[0].ans);
      StaysAtTheEnd(Advance(y, run[0].a, run[0].ans), run[1..], c);
    }
  }

  /** An open of a default file binds the next handle number to the file at the path. */
  lemma OpenBinds(y: System, c: Path, ans: Answers)
    requires StoreOk(y) && FreshAnswer(y.w.net, ans) && c in y.w.tree && !y.w.tree[c].isDir
    requires KindAt(c, false) == FileDefault
    ensures Allowed(y.w, OpenFile(c), ans)
    ensures var z := Advance(y, OpenFile(c), ans);
            && FileHandle(z, y.w.last + 1) && z.s.bound[y.w.last + 1] == y.s.ids[c]
            && z.w.last == y.w.last + 1 && z.w.tree == y.w.tree && z.s.ids[c] == y.s.ids[c]
  {
    hide KindAt, NextData, ChangeOf;
  }

  /** A path that comes back after its removal stands for a file of its own. */
  lemma NewFileIsAnother(y: System, run: seq<Call>, c: Path)
    requires StoreOk(y) && Inv(y.w) && AllowedRun(y.w, run)
    requires c !in y.w.tree
    ensures var z := AdvanceAll(y, run);
            c in z.w.tree ==> c in z.s.ids && z.s.ids[c] in z.s.data && z.s.ids[c] !in y.s.data
    decreases run
  {
    hide Inv, Advance, AdvanceAll, AllowedRun;
    RemovedComesBackNew(y, run, c, y.s.clock);
    AllStoreKeeps(y, run);
  }

  lemma {:induction false} AllStoreKeeps(y: System, run: seq<Call>)
    requires StoreOk(y) && Inv(y.w) && AllowedRun(y.w, run)
    ensures StoreOk(AdvanceAll(y, run)) && Inv(AdvanceAll(y, run).w)
    decreases run
  {
    hide Inv, Do, Advance, StoreOk;
    if run != [] {
      WorldOfOne(y, run[0].a, run[0].ans);
      StoreKeeps(y, run[0].a, run[0].ans);
      AllStoreKeeps(Advance(y, run[0].a, run[0].ans), run[1..]);
    }
  }

  lemma {:induction false} RemovedComesBackNew(y: System, run: seq<Call>, c: Path, since: nat)
    requires StoreOk(y) && Inv(y.w) && AllowedRun(y.w, run) && since <= y.s.clock
    requires c in y.s.ids ==> y.s.ids[c].birth >= since
    ensures c in AdvanceAll(y, run).s.ids ==> AdvanceAll(y, run).s.ids[c].birth >= since
    decreases run
  {
    hide Inv, Do, NextBound, NextData, ChangeOf;
    if run != [] {
      StoreKeeps(y, run[0].a, run[0].ans);
      RemovedComesBackNew(Advance(y, run[0].a, run[0].ans), run[1..], c, since);
    }
  }

  // ----- The start -----

  const NOTHING: Store := Store(map[], map[], map[], 0)

  function STARTUP(): System {
    var t := START().tree;
    System(START(), Store(NextIds(NOTHING, t), map[], NextData(NOTHING, t, None), 1))
  }

  lemma StartupIsGood()
    ensures StoreOk(STARTUP()) && Inv(STARTUP().w)
  {
    StartIsGood();
  }

  /** A write counts its bytes, and every handle on the file reads them back at once. */
  lemma WriteThenRead(y: System, h: int, g: int, text: string, offset: nat, ans: Answers, next: Answers)
    requires StoreOk(y) && FreshAnswer(y.w.net, ans) && FreshAnswer(y.w.net, next)
    requires FileHandle(y, h) && FileHandle(y, g) && y.s.bound[g] == y.s.bound[h]
    ensures var z := Advance(y, Write(h, text, offset), ans);
            && WriteOf(y, h, text, ans) == Result.Code(|text|)
            && z.w == y.w && ReadOf(z, g, |text|, offset, next) == Text(text)
  {
    hide WriteAt, ReadAt;
    ReadBack(y.s.data[y.s.bound[h]], text, offset);
  }
}

/**
 The simple view of the directory tree: a prefix-closed map from component paths to
 entry kinds, and what creation with re-entrant hooks and removal do to it.
 */
module FlatTree {
  import opened Options
  import opened Paths

  datatype Info = Info(isDir: bool, ops: string)

  type Shape = map<Path, Info>

  function Parent(p: Path): Path
    requires p != []
  {
    p[..|p| - 1]
  }

  function Last(p: Path): string
    requires p != []
  {
    p[|p| - 1]
  }

  function Child(p: Path, name: string): (c: Path)
    ensures c != [] && Parent(c) == p && Last(c) == name
  {
    p + [name]
  }

  lemma ChildOfParent(p: Path)
    requires p != []
    ensures Child(Parent(p), Last(p)) == p
  {
  }

  predicate Below(key: Path, p: Path) {
    key <= p
  }

  ghost predicate PrefixClosed(t: Shape) {
    && [] in t && t[[]].isDir
    && forall p :: p in t && p != [] ==> Parent(p) in t && t[Parent(p)].isDir
  }

  /** What looking a path string up gives: an exception, nothing, or the entry at a component path. */
  datatype Lookup = Refused | Missing | At(path: Path)

  function LookUp(t: Shape, p: string): Lookup {
    match Comps(p)
    case None => Refused
    case Some(c) => if c in t then At(c) else Missing
  }

  /** The directory a path string's parent names, if it is one. */
  function ParentDir(t: Shape, p: string): Option<Path> {
    match LookUp(t, ParentPath(p))
    case At(c) => if t[c].isDir then Some(c) else None
    case _ => None
  }

  function Remove(t: Shape, key: Path): Shape {
    map p | p in t && !Below(key, p) :: t[p]
  }

  // ----- Creation -----

  /**
   One complete behaviour of a type's creation hook: it returns a code, throws, or asks
   the file system to create another entry, whose own hook behaves as `nested`, and goes on as
   `rest` if that succeeded. `ops` is None when no registered type matches the new path.
   Every hook run that terminates has this shape, whatever its nesting depth.
   */
  datatype Hook =
    | Return(code: int)
    | Throw
    | Create(isDir: bool, path: string, ops: Option<string>, nested: Hook, rest: Hook)

  datatype Outcome = Outcome(t: Shape, ok: bool)

  /** mknod or mkdir: add the entry, run its hook, take the entry away again if the hook threw. */
  function CreateAt(t: Shape, path: string, isDir: bool, ops: string, hook: Hook): Outcome
    decreases hook, 1
  {
    match ParentDir(t, path)
    case None => Outcome(t, false)
    case Some(c) =>
      var key := Child(c, FileName(path));
      var r := RunHook(t[key := Info(isDir, ops)], hook);
      if r.ok then r else Outcome(Remove(r.t, key), false)
  }

  /** A negative return code is ignored: only a throw fails. */
  function RunHook(t: Shape, hook: Hook): Outcome
    decreases hook, 0
  {
    match hook
    case Return(_) => Outcome(t, true)
    case Throw => Outcome(t, false)
    case Create(isDir, path, ops, nested, rest) =>
      if ops == None then Outcome(t, false)
      else
        var r := CreateAt(t, path, isDir, ops.value, nested);
        if r.ok then RunHook(r.t, rest) else r
  }

  /** No creation of the run hits a name that is already there; the code does not check this. */
  ghost predicate CreatesAbsent(t: Shape, path: string, isDir: bool, ops: string, hook: Hook)
    decreases hook, 1
  {
    match ParentDir(t, path)
    case None => true
    case Some(c) =>
      var key := Child(c, FileName(path));
      key !in t && HookCreatesAbsent(t[key := Info(isDir, ops)], hook)
  }

  ghost predicate HookCreatesAbsent(t: Shape, hook: Hook)
    decreases hook, 0
  {
    match hook
    case Return(_) => true
    case Throw => true
    case Create(isDir, path, ops, nested, rest) =>
      ops.Some? ==>
        && CreatesAbsent(t, path, isDir, ops.value, nested)
        && (CreateAt(t, path, isDir, ops.value, nested).ok ==>
              HookCreatesAbsent(CreateAt(t, path, isDir, ops.value, nested).t, rest))
  }

  /** Every path the hook asks to create, at any depth, lies strictly below key. */
  ghost predicate Confined(key: Path, hook: Hook) {
    match hook
    case Return(_) => true
    case Throw => true
    case Create(_, path, _, nested, rest) =>
      && (Comps(ParentPath(path)).Some? ==> Below(key, Comps(ParentPath(path)).value))
      && Confined(key, nested) && Confined(key, rest)
  }

  ghost predicate Extends(t: Shape, t': Shape) {
    forall p :: p in t ==> p in t' && t'[p] == t[p]
  }

  lemma AddKeepsClosed(t: Shape, c: Path, name: string, info: Info)
    requires PrefixClosed(t) && c in t && t[c].isDir && Child(c, name) !in t
    ensures PrefixClosed(t[Child(c, name) := info])
    ensures forall p :: Below(Child(c, name), p) ==> p !in t
  {
    var key := Child(c, name);
    forall p | p in t && Below(key, p) ensures false {
      ClosedAbove(t, key, p);
    }
    var t' := t[key := info];
    forall p | p in t' && p != [] ensures Parent(p) in t' && t'[Parent(p)].isDir {
      if p != key {
        assert Parent(p) in t;
      }
    }
  }

  lemma {:induction false} ClosedAbove(t: Shape, q: Path, p: Path)
    requires PrefixClosed(t) && p in t && q <= p
    ensures q in t
    decreases |p|
  {
    if q != p {
      assert Parent(p) in t;
      ClosedAbove(t, q, Parent(p));
    }
  }

  lemma RemoveKeepsClosed(t: Shape, key: Path)
    requires PrefixClosed(t) && key != []
    ensures PrefixClosed(Remove(t, key))
  {
    var t' := Remove(t, key);
    forall p | p in t' && p != [] ensures Parent(p) in t' && t'[Parent(p)].isDir {
      assert Parent(p) in t;
      assert Parent(p) <= p;
    }
  }

  /** Creation keeps the map prefix-closed and, when no name was taken, only ever adds entries. */
  lemma {:induction false} CreateGrows(t: Shape, path: string, isDir: bool, ops: string, hook: Hook)
    requires PrefixClosed(t) && CreatesAbsent(t, path, isDir, ops, hook)
    ensures var r := CreateAt(t, path, isDir, ops, hook);
            PrefixClosed(r.t) && Extends(t, r.t)
    decreases hook, 1
  {
    var c := ParentDir(t, path);
    if c.Some? {
      var key := Child(c.value, FileName(path));
      var t1 := t[key := Info(isDir, ops)];
      AddKeepsClosed(t, c.value, FileName(path), Info(isDir, ops));
      HookGrows(t1, hook);
      RemoveKeepsClosed(RunHook(t1, hook).t, key);
    }
  }

  lemma {:induction false} HookGrows(t: Shape, hook: Hook)
    requires PrefixClosed(t) && HookCreatesAbsent(t, hook)
    ensures PrefixClosed(RunHook(t, hook).t) && Extends(t, RunHook(t, hook).t)
    decreases hook, 0
  {
    match hook
    case Create(isDir, path, ops, nested, rest) =>
      if ops.Some? {
        CreateGrows(t, path, isDir, ops.value, nested);
        var r := CreateAt(t, path, isDir, ops.value, nested);
        if r.ok {
          HookGrows(r.t, rest);
        }
      }
    case _ =>
  }

  /** Everything a confined hook adds lies below its entry. */
  lemma {:induction false} ConfinedAddsBelow(t: Shape, key: Path, hook: Hook)
    requires Confined(key, hook)
    ensures forall p :: p in RunHook(t, hook).t && !Below(key, p) ==> p in t && RunHook(t, hook).t[p] == t[p]
    ensures forall p :: p in t && !Below(key, p) ==> p in RunHook(t, hook).t
    decreases hook
  {
    hide FileName, ParentPath, Comps;
    match hook
    case Create(isDir, path, ops, nested, rest) =>
      if ops.Some? {
        var c := ParentDir(t, path);
        if c.Some? {
          var k := Child(c.value, FileName(path));
          assert Below(key, k);
          ConfinedAddsBelow(t[k := Info(isDir, ops.value)], key, nested);
        }
        var r := CreateAt(t, path, isDir, ops.value, nested);
        if r.ok {
          ConfinedAddsBelow(r.t, key, rest);
        }
      }
    case _ =>
  }

  /**
   Creation is all-or-nothing. If any hook at any depth throws, the tree is the one before the outermost
   call. Otherwise the new path is there, every old path is unchanged, and whatever else was added lies below
   the new path.
   */
  lemma CreationIsAtomic(t: Shape, path: string, isDir: bool, ops: string, hook: Hook)
    requires PrefixClosed(t) && CreatesAbsent(t, path, isDir, ops, hook)
    requires ParentDir(t, path).Some? ==> Confined(Child(ParentDir(t, path).value, FileName(path)), hook)
    ensures var r := CreateAt(t, path, isDir, ops, hook);
            && (!r.ok ==> r.t == t)
            && (r.ok ==>
                  && ParentDir(t, path).Some?
                  && var key := Child(ParentDir(t, path).value, FileName(path));
                  && key !in t && key in r.t && r.t[key] == Info(isDir, ops)
                  && Remove(r.t, key) == t && Extends(t, r.t) && PrefixClosed(r.t))
  {
    hide FileName, ParentPath, Comps, RunHook, HookCreatesAbsent, Confined;
    var c := ParentDir(t, path);
    if c.Some? {
      var key := Child(c.value, FileName(path));
      var t1 := t[key := Info(isDir, ops)];
      AddKeepsClosed(t, c.value, FileName(path), Info(isDir, ops));
      ConfinedAddsBelow(t1, key, hook);
      HookGrows(t1, hook);
      assert Remove(RunHook(t1, hook).t, key) == t;
    }
  }

  // ----- What a hook leaves behind -----

  /** Nothing in the hook throws, at any depth. */
  predicate Fine(hook: Hook) {
    match hook
    case Return(_) => true
    case Throw => false
    case Create(_, _, ops, nested, rest) => ops.Some? && Fine(nested) && Fine(rest)
  }

  /** The component path that a creation at the path string makes. */
  function KeyOf(path: string): Option<Path> {
    match Comps(ParentPath(path))
    case None => None
    case Some(c) => Some(Child(c, FileName(path)))
  }

  /** The paths that stay when the hook has run: all it creates, but for what each inner rollback takes away again. */
  function Left(hook: Hook): set<Path> {
    match hook
    case Return(_) => {}
    case Throw => {}
    case Create(_, path, ops, nested, rest) =>
      if ops.None? || KeyOf(path).None? then {}
      else
        var key := KeyOf(path).value;
        if Fine(nested) then {key} + Left(nested) + Left(rest) else set p | p in Left(nested) && !Below(key, p)
  }

  /** Every creation names a directory that is there by then. */
  ghost predicate FindsParents(t: Shape, hook: Hook)
    decreases hook
  {
    match hook
    case Return(_) => true
    case Throw => true
    case Create(isDir, path, ops, nested, rest) =>
      ops.Some? ==>
        && ParentDir(t, path).Some?
        && FindsParents(t[Child(ParentDir(t, path).value, FileName(path)) := Info(isDir, ops.value)], nested)
        && (CreateAt(t, path, isDir, ops.value, nested).ok ==>
              FindsParents(CreateAt(t, path, isDir, ops.value, nested).t, rest))
  }

  /** What one creation leaves of itself. */
  function LeftOf(key: Path, nested: Hook): set<Path> {
    if Fine(nested) then {key} + Left(nested) else set p | p in Left(nested) && !Below(key, p)
  }

  lemma {:induction false} HookLeaves(t: Shape, hook: Hook)
    requires PrefixClosed(t) && HookCreatesAbsent(t, hook) && FindsParents(t, hook)
    ensures RunHook(t, hook).ok == Fine(hook)
    ensures RunHook(t, hook).t.Keys == t.Keys + Left(hook) && Left(hook) !! t.Keys
    decreases hook, 0
  {
    hide FileName, ParentPath, Comps, LeftOf, CreateAt, CreatesAbsent;
    match hook
    case Create(isDir, path, ops, nested, rest) =>
      if ops.Some? {
        ParentDirIsKey(t, path);
        CreationLeaves(t, path, isDir, ops.value, nested);
        LeftUnfolds(hook);
        var r := CreateAt(t, path, isDir, ops.value, nested);
        if r.ok {
          HookLeaves(r.t, rest);
        }
      }
    case _ =>
  }

  lemma LeftUnfolds(hook: Hook)
    requires hook.Create? && hook.ops.Some? && KeyOf(hook.path).Some?
    ensures Left(hook)
         == LeftOf(KeyOf(hook.path).value, hook.nested) + if Fine(hook.nested) then Left(hook.rest) else {}
  {
  }

  lemma ParentDirIsKey(t: Shape, path: string)
    ensures ParentDir(t, path).Some? ==> KeyOf(path) == Some(Child(ParentDir(t, path).value, FileName(path)))
  {
  }

  lemma {:induction false} CreationLeaves(t: Shape, path: string, isDir: bool, ops: string, nested: Hook)
    requires PrefixClosed(t) && CreatesAbsent(t, path, isDir, ops, nested) && ParentDir(t, path).Some?
    requires FindsParents(t[Child(ParentDir(t, path).value, FileName(path)) := Info(isDir, ops)], nested)
    ensures var r := CreateAt(t, path, isDir, ops, nested);
            var left := LeftOf(Child(ParentDir(t, path).value, FileName(path)), nested);
            && r.ok == Fine(nested) && PrefixClosed(r.t)
            && r.t.Keys == t.Keys + left && left !! t.Keys
    decreases nested, 1
  {
    hide FileName, ParentPath, Comps, Left, Fine, RunHook, HookCreatesAbsent, FindsParents;
    var c := ParentDir(t, path).value;
    var key := Child(c, FileName(path));
    var t1 := t[key := Info(isDir, ops)];
    CreateGrows(t, path, isDir, ops, nested);
    AddKeepsClosed(t, c, FileName(path), Info(isDir, ops));
    HookLeaves(t1, nested);
    CutKeys(t, key, RunHook(t1, nested).t, Left(nested));
  }

  lemma CutKeys(t: Shape, key: Path, after: Shape, left: set<Path>)
    requires forall p :: Below(key, p) ==> p !in t
    requires after.Keys == t.Keys + {key} + left
    ensures Remove(after, key).Keys == t.Keys + set p | p in left && !Below(key, p)
  {
    assert forall p :: p in after <==> p in after.Keys;
    assert forall p :: p in Remove(after, key).Keys <==> p in after && !Below(key, p);
  }

  /**
   Without confinement: the creation fails exactly when something in its hook throws, and then the earlier tree is
   back exactly when all that the hook leaves lies below the new path. Both can be read off the hook.
   */
  lemma RollbackRestoresIff(t: Shape, path: string, isDir: bool, ops: string, hook: Hook)
    requires PrefixClosed(t) && CreatesAbsent(t, path, isDir, ops, hook) && ParentDir(t, path).Some?
    requires FindsParents(t[Child(ParentDir(t, path).value, FileName(path)) := Info(isDir, ops)], hook)
    ensures var r := CreateAt(t, path, isDir, ops, hook);
            var key := Child(ParentDir(t, path).value, FileName(path));
            && r.ok == Fine(hook)
            && (!Fine(hook) ==> (r.t == t <==> forall p :: p in Left(hook) ==> Below(key, p)))
  {
    hide FileName, ParentPath, Comps, Left, Fine, FindsParents;
    var c := ParentDir(t, path).value;
    var key := Child(c, FileName(path));
    var t1 := t[key := Info(isDir, ops)];
    AddKeepsClosed(t, c, FileName(path), Info(isDir, ops));
    HookLeaves(t1, hook);
    HookGrows(t1, hook);
    CutKeys(t, key, RunHook(t1, hook).t, Left(hook));
    var u := Remove(RunHook(t1, hook).t, key);
    if forall p :: p in Left(hook) ==> Below(key, p) {
      assert u.Keys == t.Keys;
      assert forall p :: p in u <==> p in u.Keys;
      assert u == t;
    } else {
      var p :| p in Left(hook) && !Below(key, p);
      assert p in u.Keys && p !in t.Keys;
    }
  }

  /** A creation in a directory that is not there throws: the hook with such creations written as throws. */
  function Settled(t: Shape, hook: Hook): Hook
    decreases hook
  {
    match hook
    case Return(_) => hook
    case Throw => hook
    case Create(isDir, path, ops, nested, rest) =>
      if ops.None? || ParentDir(t, path).None? then Throw
      else
        var t1 := t[Child(ParentDir(t, path).value, FileName(path)) := Info(isDir, ops.value)];
        var r := CreateAt(t, path, isDir, ops.value, nested);
        Create(isDir, path, ops, Settled(t1, nested), if r.ok then Settled(r.t, rest) else rest)
  }

  lemma {:induction false} SettledIsTheSame(t: Shape, hook: Hook)
    ensures RunHook(t, Settled(t, hook)) == RunHook(t, hook) && FindsParents(t, Settled(t, hook))
    ensures HookCreatesAbsent(t, hook) ==> HookCreatesAbsent(t, Settled(t, hook))
    decreases hook
  {
    hide FileName, ParentPath, Comps;
    match hook
    case Create(isDir, path, ops, nested, rest) =>
      if ops.Some? && ParentDir(t, path).Some? {
        var t1 := t[Child(ParentDir(t, path).value, FileName(path)) := Info(isDir, ops.value)];
        SettledIsTheSame(t1, nested);
        var r := CreateAt(t, path, isDir, ops.value, nested);
        assert CreateAt(t, path, isDir, ops.value, Settled(t1, nested)) == r;
        assert HookCreatesAbsent(t, hook) ==> CreatesAbsent(t, path, isDir, ops.value, nested);
        assert CreatesAbsent(t, path, isDir, ops.value, nested) ==> HookCreatesAbsent(t1, nested);
        assert HookCreatesAbsent(t, hook) ==> CreatesAbsent(t, path, isDir, ops.value, Settled(t1, nested));
        if r.ok {
          SettledIsTheSame(r.t, rest);
        }
      }
    case _ =>
  }

  /** The same for any hook, whatever directories it names. */
  lemma RollbackOfAnyHook(t: Shape, path: string, isDir: bool, ops: string, hook: Hook)
    requires PrefixClosed(t) && CreatesAbsent(t, path, isDir, ops, hook) && ParentDir(t, path).Some?
    ensures var r := CreateAt(t, path, isDir, ops, hook);
            var key := Child(ParentDir(t, path).value, FileName(path));
            var h := Settled(t[key := Info(isDir, ops)], hook);
            && r.ok == Fine(h)
            && (!Fine(h) ==> (r.t == t <==> forall p :: p in Left(h) ==> Below(key, p)))
  {
    hide FileName, ParentPath, Comps, Left, Fine, FindsParents, Settled, RunHook, HookCreatesAbsent;
    var t1 := t[Child(ParentDir(t, path).value, FileName(path)) := Info(isDir, ops)];
    SettledIsTheSame(t1, hook);
    RollbackRestoresIff(t, path, isDir, ops, Settled(t1, hook));
  }

  /** So a hook that creates elsewhere and then throws leaves that entry behind. */
  lemma UnconfinedHookLeaks(t: Shape)
    requires PrefixClosed(t) && ["x"] !in t
    requires ["tcp"] in t && t[["tcp"]].isDir && ["tcp", "clone"] !in t
    ensures var hook := Create(false, Str(["tcp", "clone"]), Some("clone"), Return(0), Throw);
            var r := CreateAt(t, Str(["x"]), true, "dir", hook);
            CreatesAbsent(t, Str(["x"]), true, "dir", hook) && !r.ok && ["tcp", "clone"] in r.t
  {
    hide FileName, ParentPath, Comps, Str;
    var clone := Create(false, Str(["tcp", "clone"]), Some("clone"), Return(0), Throw);
    StrParts(["x"]);
    StrParts(["tcp", "clone"]);
    assert ["x"][..0] == [] && ["tcp", "clone"][..1] == ["tcp"];
    var t1 := t[["x"] := Info(true, "dir")];
    assert ParentDir(t, Str(["x"])) == Some([]);
    assert Child([], "x") == ["x"] && Child(["tcp"], "clone") == ["tcp", "clone"];
    assert ParentDir(t1, Str(["tcp", "clone"])) == Some(["tcp"]);
    assert RunHook(t1, clone).t == t1[["tcp", "clone"] := Info(false, "clone")];
  }

  // ----- Removal -----

  /** What the entry's type answers when asked to give the entry up. */
  datatype Veto = Replied(ret: int) | Raised | NoSuchType

  datatype Removal = Removal(t: Shape, threw: bool, ret: int)

  /** unlink (wantDir false) or rmdir (wantDir true). */
  function RemoveAt(t: Shape, path: string, wantDir: bool, veto: Veto, force: bool): Removal {
    match ParentDir(t, path)
    case None => Removal(t, true, 0)
    case Some(c) =>
      var key := Child(c, FileName(path));
      if key !in t || t[key].isDir != wantDir || veto.Raised? then Removal(t, true, 0)
      else
        var ret := if veto.Replied? then veto.ret else 0;
        if ret < 0 && !force then Removal(t, false, ret) else Removal(Remove(t, key), false, ret)
  }

  /** A file has nothing below it, so unlink takes away exactly one path; rmdir takes away the whole subtree. */
  lemma RemovesExactly(t: Shape, path: string, wantDir: bool, veto: Veto, force: bool)
    requires PrefixClosed(t)
    ensures var r := RemoveAt(t, path, wantDir, veto, force);
            && PrefixClosed(r.t)
            && (r.threw <==>
                  var c := ParentDir(t, path);
                  || c.None? || veto.Raised?
                  || Child(c.value, FileName(path)) !in t || t[Child(c.value, FileName(path))].isDir != wantDir)
            && (!r.threw ==> r.ret == if veto.Replied? then veto.ret else 0)
            && (r.threw || (r.ret < 0 && !force) ==> r.t == t)
            && (!r.threw && (r.ret >= 0 || force) ==>
                  && ParentDir(t, path).Some?
                  && var key := Child(ParentDir(t, path).value, FileName(path));
                  && key in t
                  && (forall p :: p in r.t <==> p in t && !Below(key, p))
                  && (forall p :: p in r.t ==> r.t[p] == t[p])
                  && (!wantDir ==> r.t.Keys == t.Keys - {key}))
  {
    var c := ParentDir(t, path);
    if c.Some? {
      var key := Child(c.value, FileName(path));
      RemoveKeepsClosed(t, key);
      if key in t && !t[key].isDir {
        forall p | p in t && Below(key, p) ensures p == key {
          NothingBelowFile(t, key, p);
        }
      }
    }
  }

  lemma {:induction false} NothingBelowFile(t: Shape, key: Path, p: Path)
    requires PrefixClosed(t) && key in t && !t[key].isDir && p in t && key <= p
    ensures p == key
    decreases |p|
  {
    if p != key {
      assert Parent(p) in t && t[Parent(p)].isDir;
      NothingBelowFile(t, key, Parent(p));
    }
  }
}

/**
 The directory tree as linked entries, with the operations of the core file system.
 A ghost map from component paths to entries describes the tree; each operation is
 proved to do to it what FlatTree says.
 */
module FileSystem {
  import opened Options
  import opened Strings
  import opened Paths
  import opened FlatTree
  import FileData

  class Entry {
    const name: string
    const ops: string
    const isDir: bool
    var entries: seq<Entry>   // used by directories
    var data: string        // used by files

    constructor (name: string, ops: string, isDir: bool)
      ensures this.name == name && this.ops == ops && this.isDir == isDir
      ensures entries == [] && data == []
    {
      this.name, this.ops, this.isDir := name, ops, isDir;
      entries, data := [], [];
    }

    /** default_file_op::read: at most size bytes from offset on. */
    method Read(size: nat, offset: nat) returns (bytes: string)
      ensures |bytes| == if offset >= |data| then 0 else if size < |data| - offset then size else |data| - offset
      ensures forall i :: 0 <= i < |bytes| ==> bytes[i] == data[offset + i]
    {
      FileData.ReadMeaning(data, size, offset);
      bytes := FileData.ReadAt(data, size, offset);
    }

    /** default_file_op::write: only this file's bytes change, and only in the written range and the gap before it. */
    method Write(buf: string, offset: nat) returns (size: nat)
      modifies this`data
      ensures size == |buf|
      ensures data == FileData.WriteAt(old(data), buf, offset)
      ensures |data| == FileData.Max(|old(data)|, offset + |buf|)
      ensures forall i: nat :: FileData.ByteAt(data, i)
                            == if offset <= i < offset + |buf| then buf[i - offset] else FileData.ByteAt(old(data), i)
    {
      FileData.WriteMeaning(data, buf, offset);
      if |data| < |buf| + offset {
        data := FileData.Resize(data, |buf| + offset);
      }
      data := data[..offset] + buf + data[offset + |buf|..];
      size := |buf|;
    }

    method Truncate(size: nat)
      modifies this`data
      ensures |data| == size
      ensures forall i: nat :: FileData.ByteAt(data, i) == if i < size then FileData.ByteAt(old(data), i) else '\0'
    {
      data := FileData.Resize(data, size);
    }
  }

  /** The first entry of that name. */
  function SearchEntries(es: seq<Entry>, name: string): (r: Entry?)
    ensures r != null ==> r in es && r.name == name
    ensures r == null ==> forall e :: e in es ==> e.name != name
  {
    if es == [] then null
    else if es[0].name == name then es[0]
    else SearchEntries(es[1..], name)
  }

  /** What is left when every entry of that name is taken out. */
  function RemoveEntry(es: seq<Entry>, name: string): (r: seq<Entry>)
    ensures forall i :: 0 <= i < |r| ==> r[i] in es && r[i].name != name
    ensures forall i :: 0 <= i < |es| && es[i].name != name ==> es[i] in r
  {
    if es == [] then []
    else (if es[0].name == name then [] else [es[0]]) + RemoveEntry(es[1..], name)
  }

  ghost predicate FirstNamed(es: seq<Entry>, i: nat, name: string) {
    i < |es| && es[i].name == name && forall j :: 0 <= j < i ==> es[j].name != name
  }

  /** A search answers with the first entry of the name. */
  lemma {:induction false} SearchIsFirst(es: seq<Entry>, name: string)
    ensures SearchEntries(es, name) == null <==> forall i :: 0 <= i < |es| ==> es[i].name != name
    ensures SearchEntries(es, name) != null ==>
              exists i :: 0 <= i < |es| && FirstNamed(es, i, name) && es[i] == SearchEntries(es, name)
  {
    if es != [] && es[0].name != name {
      SearchIsFirst(es[1..], name);
      if SearchEntries(es, name) != null {
        var i :| 0 <= i < |es[1..]| && FirstNamed(es[1..], i, name) && es[1..][i] == SearchEntries(es[1..], name);
        assert FirstNamed(es, i + 1, name) by {
          assert forall j :: 0 < j < i + 1 ==> es[j] == es[1..][j - 1];
        }
      }
    } else if es != [] {
      assert FirstNamed(es, 0, name);
    }
  }

  /** A removal treats each part of the list on its own, so what is kept keeps its order. */
  lemma {:induction false} RemoveKeepsOrder(a: seq<Entry>, b: seq<Entry>, name: string)
    ensures RemoveEntry(a + b, name) == RemoveEntry(a, name) + RemoveEntry(b, name)
  {
    if a == [] {
      assert a + b == b;
    } else {
      assert (a + b)[1..] == a[1..] + b;
      RemoveKeepsOrder(a[1..], b, name);
    }
  }

  ghost predicate DistinctNames(es: seq<Entry>) {
    forall i, j :: 0 <= i < j < |es| ==> es[i].name != es[j].name
  }

  /** Taking a just-added entry out restores the list exactly when its name was not in use. */
  lemma {:induction false} AddThenRemove(es: seq<Entry>, e: Entry)
    ensures RemoveEntry(es + [e], e.name) == es <==> SearchEntries(es, e.name) == null
  {
    var x := SearchEntries(es, e.name);
    if x == null {
      RemoveAppended(es, e);
    } else {
      assert x !in RemoveEntry(es + [e], e.name);
    }
  }

  lemma {:induction false} RemoveAppended(es: seq<Entry>, e: Entry)
    requires forall x :: x in es ==> x.name != e.name
    ensures RemoveEntry(es + [e], e.name) == es
  {
    if es != [] {
      assert (es + [e])[1..] == es[1..] + [e];
      RemoveAppended(es[1..], e);
    } else {
      assert (es + [e])[1..] == [];
    }
  }

  lemma {:induction false} RemoveKeepsDistinct(es: seq<Entry>, name: string)
    requires DistinctNames(es)
    ensures DistinctNames(RemoveEntry(es, name))
  {
    if es != [] {
      RemoveKeepsDistinct(es[1..], name);
      var rest := RemoveEntry(es[1..], name);
      forall j | 0 <= j < |rest| ensures rest[j].name != es[0].name {
        assert rest[j] in es[1..];
      }
    }
  }

  // ----- The tree as values: entries at component paths, and the list each directory holds -----

  type Tree = map<Path, Entry>

  type Lists = map<Entry, seq<Entry>>

  ghost function ListsOf(tree: Tree): Lists
    reads tree.Values
  {
    map e | e in tree.Values :: e.entries
  }

  ghost function InfoOf(e: Entry): Info {
    Info(e.isDir, e.ops)
  }

  ghost function ShapeOf(tree: Tree): Shape {
    map p | p in tree :: InfoOf(tree[p])
  }

  ghost predicate Linked(tree: Tree, lists: Lists, p: Path)
    requires lists.Keys == tree.Values && p in tree && p != []
  {
    && Parent(p) in tree && tree[Parent(p)].isDir
    && tree[p].name == Last(p)
    && tree[p] in lists[tree[Parent(p)]]
  }

  ghost predicate Owns(tree: Tree, p: Path, e: Entry) {
    Child(p, e.name) in tree && tree[Child(p, e.name)] == e
  }

  ghost predicate GoodList(e: Entry, list: seq<Entry>) {
    DistinctNames(list) && (!e.isDir ==> list == [])
  }

  ghost predicate OnePath(tree: Tree) {
    forall p, q :: p in tree && q in tree && tree[p] == tree[q] ==> p == q
  }

  /** The linked entries are exactly the map: each is listed once, by its parent directory, and nothing else is. */
  ghost predicate Consistent(root: Entry, tree: Tree, lists: Lists) {
    && lists.Keys == tree.Values
    && [] in tree && tree[[]] == root && root.isDir
    && (forall p :: p in tree && p != [] ==> Linked(tree, lists, p))
    && (forall p, e :: p in tree && e in lists[tree[p]] ==> Owns(tree, p, e))
    && (forall p :: p in tree ==> GoodList(tree[p], lists[tree[p]]))
    && OnePath(tree)
  }

  /** The lists after a new entry e is linked at the end of the one at component path c. */
  ghost function Added(tree: Tree, lists: Lists, c: Path, e: Entry): Lists
    requires lists.Keys == tree.Values && c in tree
  {
    lists[tree[c] := lists[tree[c]] + [e]][e := []]
  }

  lemma AddStaysConsistent(root: Entry, tree: Tree, lists: Lists, c: Path, e: Entry)
    requires Consistent(root, tree, lists)
    requires c in tree && tree[c].isDir && Child(c, e.name) !in tree && e !in tree.Values
    ensures tree[Child(c, e.name) := e].Values == tree.Values + {e}
    ensures Consistent(root, tree[Child(c, e.name) := e], Added(tree, lists, c, e))
  {
    hide Linked, Owns, GoodList;
    var key := Child(c, e.name);
    var tree', lists' := tree[key := e], Added(tree, lists, c, e);
    AddedValues(tree, key, e);
    forall p | p in tree' && p != [] ensures Linked(tree', lists', p) {
      AddKeepsLinked(root, tree, lists, c, e, p);
    }
    forall p, x | p in tree' && x in lists'[tree'[p]] ensures Owns(tree', p, x) {
      AddKeepsOwns(root, tree, lists, c, e, p, x);
    }
    AddKeepsGoodLists(root, tree, lists, c, e);
  }

  lemma AddedValues(tree: Tree, key: Path, e: Entry)
    requires key !in tree
    ensures tree[key := e].Values == tree.Values + {e}
  {
    var tree' := tree[key := e];
    assert forall p :: p in tree ==> p in tree' && tree'[p] == tree[p];
    assert tree'[key] == e;
  }

  lemma AddKeepsLinked(root: Entry, tree: Tree, lists: Lists, c: Path, e: Entry, p: Path)
    requires Consistent(root, tree, lists)
    requires c in tree && tree[c].isDir && Child(c, e.name) !in tree && e !in tree.Values
    requires p in tree[Child(c, e.name) := e] && p != []
    ensures Added(tree, lists, c, e).Keys == tree[Child(c, e.name) := e].Values
    ensures Linked(tree[Child(c, e.name) := e], Added(tree, lists, c, e), p)
  {
    hide Owns, GoodList, OnePath;
    AddedValues(tree, Child(c, e.name), e);
    assert p in tree ==> Linked(tree, lists, p);
  }

  lemma AddKeepsOwns(root: Entry, tree: Tree, lists: Lists, c: Path, e: Entry, p: Path, x: Entry)
    requires Consistent(root, tree, lists)
    requires c in tree && tree[c].isDir && Child(c, e.name) !in tree && e !in tree.Values
    requires var tree' := tree[Child(c, e.name) := e];
             p in tree' && tree'[p] in Added(tree, lists, c, e) && x in Added(tree, lists, c, e)[tree'[p]]
    ensures Owns(tree[Child(c, e.name) := e], p, x)
  {
    hide Linked, GoodList;
    if p == c {
      assert x == e || Owns(tree, c, x);
    } else if p != Child(c, e.name) {
      assert tree[p] != tree[c];
      assert Owns(tree, p, x);
    }
  }

  lemma AddKeepsGoodLists(root: Entry, tree: Tree, lists: Lists, c: Path, e: Entry)
    requires Consistent(root, tree, lists)
    requires c in tree && tree[c].isDir && Child(c, e.name) !in tree && e !in tree.Values
    ensures var tree', lists' := tree[Child(c, e.name) := e], Added(tree, lists, c, e);
            forall p :: p in tree' ==> tree'[p] in lists' && GoodList(tree'[p], lists'[tree'[p]])
  {
    var d := tree[c];
    var l := lists[d];
    forall i | 0 <= i < |l| ensures l[i].name != e.name {
      assert Owns(tree, c, l[i]);
    }
    assert GoodList(d, l + [e]);
    forall p | p in tree ensures GoodList(tree[p], lists[tree[p]]) {
    }
  }

  ghost function Cut(tree: Tree, key: Path): Tree {
    map p | p in tree && !Below(key, p) :: tree[p]
  }

  lemma CutValues(tree: Tree, key: Path)
    ensures Cut(tree, key).Values <= tree.Values
    ensures ShapeOf(Cut(tree, key)) == Remove(ShapeOf(tree), key)
  {
    forall e | e in Cut(tree, key).Values ensures e in tree.Values {
      var p :| p in Cut(tree, key) && Cut(tree, key)[p] == e;
      assert tree[p] == e;
    }
  }

  ghost function CutLists(tree: Tree, lists: Lists, key: Path): Lists
    requires lists.Keys == tree.Values && key != [] && Parent(key) in tree
  {
    map e | e in Cut(tree, key).Values ::
      if e == tree[Parent(key)] then RemoveEntry(lists[e], Last(key)) else lists[e]
  }

  lemma CutListAt(root: Entry, tree: Tree, lists: Lists, key: Path, p: Path)
    requires Consistent(root, tree, lists) && key != [] && Parent(key) in tree && p in Cut(tree, key)
    ensures tree[p] in CutLists(tree, lists, key)
    ensures CutLists(tree, lists, key)[tree[p]]
         == if p == Parent(key) then RemoveEntry(lists[tree[p]], Last(key)) else lists[tree[p]]
  {
    hide RemoveEntry, SearchEntries, GoodList, Linked, Owns;
    assert Cut(tree, key)[p] == tree[p];
  }

  lemma CutLinked(root: Entry, tree: Tree, lists: Lists, key: Path, p: Path)
    requires Consistent(root, tree, lists) && key != [] && Parent(key) in tree && p in Cut(tree, key) && p != []
    ensures Linked(Cut(tree, key), CutLists(tree, lists, key), p)
  {
    hide RemoveEntry, SearchEntries, GoodList, Owns;
    assert Linked(tree, lists, p);
    assert Parent(p) <= p;
    CutListAt(root, tree, lists, key, Parent(p));
    if Parent(p) == Parent(key) {
      ChildOfParent(p);
      ChildOfParent(key);
      assert Last(p) != Last(key);
      var l := lists[tree[Parent(p)]];
      var i :| 0 <= i < |l| && l[i] == tree[p];
      assert l[i] in RemoveEntry(l, Last(key));
    }
  }

  lemma CutOwns(root: Entry, tree: Tree, lists: Lists, key: Path, p: Path, x: Entry)
    requires Consistent(root, tree, lists) && key != [] && Parent(key) in tree && p in Cut(tree, key)
    requires tree[p] in CutLists(tree, lists, key) && x in CutLists(tree, lists, key)[tree[p]]
    ensures Owns(Cut(tree, key), p, x)
  {
    hide RemoveEntry, SearchEntries, GoodList, Linked;
    CutListAt(root, tree, lists, key, p);
    var l := lists[tree[p]];
    if p == Parent(key) {
      var r := RemoveEntry(l, Last(key));
      var i :| 0 <= i < |r| && r[i] == x;
      assert r[i] in l && r[i].name != Last(key);
    }
    assert Owns(tree, p, x);
    var k := Child(p, x.name);
    assert x.name == Last(key) && p == Parent(key) ==> k == key;
    assert Below(key, k) ==> key == k;
  }

  lemma CutStaysConsistent(root: Entry, tree: Tree, lists: Lists, key: Path)
    requires Consistent(root, tree, lists) && key != [] && Parent(key) in tree
    ensures Consistent(root, Cut(tree, key), CutLists(tree, lists, key))
  {
    hide RemoveEntry, SearchEntries, Linked, Owns;
    var tree', lists' := Cut(tree, key), CutLists(tree, lists, key);
    forall p | p in tree' && p != [] ensures Linked(tree', lists', p) {
      CutLinked(root, tree, lists, key, p);
    }
    forall p, x | p in tree' && x in lists'[tree'[p]] ensures Owns(tree', p, x) {
      CutOwns(root, tree, lists, key, p, x);
    }
    forall p | p in tree' ensures GoodList(tree'[p], lists'[tree'[p]]) {
      CutListAt(root, tree, lists, key, p);
      assert GoodList(tree[p], lists[tree[p]]);
      RemoveKeepsDistinct(lists[tree[p]], Last(key));
      RemoveFromEmpty(lists[tree[p]], Last(key));
    }
  }

  lemma RemoveFromEmpty(es: seq<Entry>, name: string)
    ensures es == [] ==> RemoveEntry(es, name) == []
  {
  }

  /** What a lookup gives: an exception, a null pointer or an entry. */
  datatype Found = Refused | Null | Got(entry: Entry)

  class FileSystem {
    const root: Entry
    ghost var tree: Tree

    ghost predicate Valid()
      reads this, tree.Values
    {
      Consistent(root, tree, ListsOf(tree))
    }

    ghost function Shape(): Shape
      reads this
    {
      ShapeOf(tree)
    }

    constructor ()
      ensures Valid() && fresh(tree.Values) && NewEmpty(map[], tree)
      ensures Shape() == map[[] := Info(true, "dir_ops_type")]
    {
      var r := new Entry("/", "dir_ops_type", true);
      root := r;
      tree := map[[] := r];
    }

    lemma ShapeClosed()
      requires Valid()
      ensures PrefixClosed(Shape())
    {
      forall p | p in Shape() && p != []
        ensures Parent(p) in Shape() && Shape()[Parent(p)].isDir
      {
        assert Linked(tree, ListsOf(tree), p);
      }
    }

    /** A directory's entry list answers for its children in the map. */
    lemma SearchFindsChild(p: Path, name: string)
      requires Valid() && p in tree
      ensures SearchEntries(tree[p].entries, name) ==
              (if Child(p, name) in tree then tree[Child(p, name)] else null)
    {
      var r := SearchEntries(tree[p].entries, name);
      assert Child(p, name) in tree ==> Linked(tree, ListsOf(tree), Child(p, name));
      if r != null {
        assert r in ListsOf(tree)[tree[p]];
        assert Owns(tree, p, r);
      }
    }

    lemma ScopeClosed()
      requires Valid()
      ensures Closed(tree.Values)
    {
      forall d, e | d in tree.Values && e in d.entries ensures e in tree.Values {
        var p :| p in tree && tree[p] == d;
        assert e in ListsOf(tree)[tree[p]];
        assert Owns(tree, p, e);
      }
    }

    /** get_entry_of: the root has its own path; any other path is looked up from the root. */
    function GetEntryOf(path: string): Found
      requires Valid()
      reads this, tree.Values
    {
      if path == "/" then Got(root)
      else
        ScopeClosed();
        GetEntryFrom(root, path, tree.Values)
    }

    /**
     The string recursion agrees with the map of component paths: it finds the entry whose component path
     extends that of the directory by the pieces of the string, and nothing when there is none.
     */
    lemma {:induction false} WalkFindsPath(c: Path, path: string)
      requires Valid() && c in tree && Closed(tree.Values)
      requires path != "" && path[0] == '/'
      ensures var q := c + Split(path[1..], '/');
              GetEntryFrom(tree[c], path, tree.Values) == if q in tree then Got(tree[q]) else Null
      decreases |path|
    {
      hide Consistent;
      var pos := Find(path, '/', 1);
      FindInSuffix(path, '/', 1);
      var s := path[1..];
      var q := c + Split(s, '/');
      if pos == |path| {
        SearchFindsChild(c, s);
        assert q == Child(c, s);
      } else {
        var name, rest := path[1..pos], "/" + path[pos + 1..];
        SearchFindsChild(c, name);
        assert s[..pos - 1] == name && s[pos..] == path[pos + 1..] && rest[1..] == path[pos + 1..];
        var k := Child(c, name);
        assert q == k + Split(path[pos + 1..], '/');
        if k in tree && tree[k].isDir {
          WalkFindsPath(k, rest);
        } else if q in tree {
          NothingUnder(k, q);
        }
      }
    }

    lemma NothingUnder(k: Path, q: Path)
      requires Valid() && k <= q && k != q && q in tree
      ensures k in tree && tree[k].isDir
    {
      ShapeClosed();
      ClosedAbove(Shape(), k, q);
      if !tree[k].isDir {
        NothingBelowFile(Shape(), k, q);
      }
    }

    /** What a lookup returns is what the flat map says. */
    lemma LookupRefinesMap(path: string)
      requires Valid()
      ensures GetEntryOf(path) ==
              match LookUp(Shape(), path)
              case Refused => Found.Refused
              case Missing => Null
              case At(c) => Got(tree[c])
    {
      if path != "/" && path != "" && path[0] == '/' {
        ScopeClosed();
        WalkFindsPath([], path);
        assert [] + Split(path[1..], '/') == Split(path[1..], '/');
      }
    }

    // ----- Creation -----

    /** The directory named by the parent of the path, or null. */
    function SearchParentDir(path: string): Entry?
      requires Valid()
      reads this, tree.Values
    {
      match GetEntryOf(ParentPath(path))
      case Got(e) => if e.isDir then e else null
      case _ => null
    }

    lemma ParentDirRefines(path: string)
      requires Valid()
      ensures var c := ParentDir(Shape(), path);
              SearchParentDir(path) == if c == None then null else tree[c.value]
    {
      LookupRefinesMap(ParentPath(path));
    }

    /** Links a new entry under directory `parent`, which is at component path c. */
    method AddEntry(ghost c: Path, parent: Entry, name: string, ops: string, isDir: bool) returns (e: Entry)
      requires Valid() && c in tree && tree[c] == parent && parent.isDir && Child(c, name) !in tree
      modifies this`tree, parent`entries
      ensures Valid() && fresh(e)
      ensures e.name == name && InfoOf(e) == Info(isDir, ops)
      ensures tree == old(tree)[Child(c, name) := e] && tree.Values == old(tree.Values) + {e}
      ensures Shape() == old(Shape())[Child(c, name) := Info(isDir, ops)]
      ensures parent.entries == old(parent.entries) + [e] && e.entries == [] && e.data == []
    {
      hide Consistent;
      ghost var before, lists := tree, ListsOf(tree);
      SameLists();
      e := new Entry(name, ops, isDir);
      AddStaysConsistent(root, tree, lists, c, e);
      parent.entries := parent.entries + [e];
      tree := tree[Child(c, name) := e];
      assert ListsOf(tree) == Added(before, lists, c, e);
    }

    /** Takes the name out of directory `parent`; everything below it leaves the tree. */
    method DropEntry(ghost c: Path, parent: Entry, name: string)
      requires Valid() && c in tree && tree[c] == parent
      modifies this`tree, parent`entries
      ensures Valid()
      ensures tree == Cut(old(tree), Child(c, name)) && tree.Values <= old(tree.Values)
      ensures Shape() == Remove(old(Shape()), Child(c, name))
      ensures parent.entries == RemoveEntry(old(parent.entries), name)
    {
      hide Consistent, RemoveEntry;
      ghost var key := Child(c, name);
      ghost var lists: Lists := ListsOf(tree);
      ghost var before := tree;
      SameLists();
      CutStaysConsistent(root, before, lists, key);
      parent.entries := RemoveEntry(parent.entries, name);
      tree := Cut(tree, key);
      CutValues(before, key);
      assert ListsOf(tree) == CutLists(before, lists, key);
    }

    lemma SameLists()
      requires Valid()
      ensures ListsOf(tree).Keys == tree.Values
    {
    }

    /** mknod and mkdir with the hook's behaviour given: link the entry, run the hook, unlink on a throw. */
    method CreateEntry(path: string, isDir: bool, ops: string, hook: Hook) returns (ok: bool)
      requires Valid() && CreatesAbsent(Shape(), path, isDir, ops, hook)
      modifies this`tree, tree.Values`entries
      ensures Valid() && fresh(tree.Values - old(tree.Values))
      ensures Outcome(Shape(), ok) == CreateAt(old(Shape()), path, isDir, ops, hook)
      ensures Keeps(old(tree), tree) && NewEmpty(old(tree), tree)
      decreases hook, 2
    {
      hide Consistent, ListsOf, FileName, ParentPath, Comps, Keeps, NewEmpty;
      var parent := SearchParentDir(path);
      ParentDirRefines(path);
      KeepsAll(tree);
      NewEmptyNone(tree);
      if parent == null {
        return false;
      }
      ok := CreateUnder(ParentDir(Shape(), path).value, parent, FileName(path), isDir, ops, hook);
    }

    method CreateUnder(ghost c: Path, parent: Entry, name: string, isDir: bool, ops: string, hook: Hook)
      returns (ok: bool)
      requires Valid() && c in tree && tree[c] == parent && parent.isDir
      requires Child(c, name) !in tree && HookCreatesAbsent(Shape()[Child(c, name) := Info(isDir, ops)], hook)
      modifies this`tree, tree.Values`entries
      ensures Valid() && fresh(tree.Values - old(tree.Values))
      ensures var r := RunHook(old(Shape())[Child(c, name) := Info(isDir, ops)], hook);
              && ok == r.ok
              && Shape() == if ok then r.t else Remove(r.t, Child(c, name))
      ensures Keeps(old(tree), tree) && NewEmpty(old(tree), tree)
      decreases hook, 1
    {
      hide Consistent, ListsOf, RunHook, HookCreatesAbsent, Keeps, NewEmpty, PrefixClosed, RemoveEntry;
      ghost var key := Child(c, name);
      ghost var tree0, shape0 := tree, Shape();
      ShapeClosed();
      var e := AddEntry(c, parent, name, ops, isDir);
      ghost var tree1 := tree;
      AddKeepsClosed(shape0, c, name, Info(isDir, ops));
      ok := ExecuteHook(hook);
      ghost var tree2 := tree;
      KeepsAdded(tree0, tree1, key, e, tree2);
      NewEmptyAdded(tree0, tree1, e, tree2);
      if !ok {
        KeepsAt(tree1, tree2, c);
        DropEntry(c, parent, name);
        KeepsCut(tree0, tree2, key);
        NewEmptyFewer(tree0, tree2, tree);
      }
    }

    method ExecuteHook(hook: Hook) returns (ok: bool)
      requires Valid() && HookCreatesAbsent(Shape(), hook)
      modifies this`tree, tree.Values`entries
      ensures Valid() && fresh(tree.Values - old(tree.Values))
      ensures Outcome(Shape(), ok) == RunHook(old(Shape()), hook)
      ensures Keeps(old(tree), tree) && NewEmpty(old(tree), tree)
      decreases hook, 0
    {
      hide Consistent, ListsOf, CreateAt, CreatesAbsent, Keeps, NewEmpty;
      KeepsAll(tree);
      NewEmptyNone(tree);
      match hook
      case Return(_) =>
        return true;
      case Throw =>
        return false;
      case Create(isDir, path, ops, nested, rest) =>
        if ops == None {
          return false;
        }
        ghost var tree0 := tree;
        ok := CreateEntry(path, isDir, ops.value, nested);
        if ok {
          ghost var tree1 := tree;
          ok := ExecuteHook(rest);
          KeepsTransitive(tree0, tree1, tree);
          NewEmptyTransitive(tree0, tree1, tree);
        }
    }

    /** unlink and rmdir, given what the entry's type answers. Only entry lists change: no file's data does. */
    method RemovePath(path: string, wantDir: bool, veto: Veto, force: bool) returns (threw: bool, ret: int)
      requires Valid()
      modifies this`tree, tree.Values`entries
      ensures Valid()
      ensures Removal(Shape(), threw, ret) == RemoveAt(old(Shape()), path, wantDir, veto, force)
      ensures forall p :: p in tree ==> p in old(tree) && tree[p] == old(tree)[p]
      ensures tree.Values <= old(tree.Values)
    {
      hide Consistent, ListsOf, FileName, ParentPath, Comps;
      var parent := SearchParentDir(path);
      ParentDirRefines(path);
      if parent == null {
        return true, 0;
      }
      ghost var c := ParentDir(Shape(), path).value;
      var name := FileName(path);
      SearchFindsChild(c, name);
      var e := SearchEntries(parent.entries, name);
      if e == null || e.isDir != wantDir || veto.Raised? {
        return true, 0;
      }
      ret := if veto.Replied? then veto.ret else 0;
      if ret < 0 && !force {
        return false, ret;
      }
      DropEntry(c, parent, name);
      return false, ret;
    }
  }

  /** Every path that was there is still there, with the very same entry. */
  ghost predicate Keeps(before: Tree, after: Tree) {
    forall p :: p in before ==> p in after && after[p] == before[p]
  }

  /** Entries that were not there before hold no bytes. */
  ghost predicate NewEmpty(before: Tree, after: Tree)
    reads after.Values`data
  {
    forall e :: e in after.Values && e !in before.Values ==> e.data == []
  }

  /** Nothing was taken out or replaced, and what was put in holds no bytes. */
  ghost predicate Grows(before: Tree, after: Tree)
    reads after.Values`data
  {
    Keeps(before, after) && NewEmpty(before, after)
  }

  lemma GrowsNone(t: Tree)
    ensures Grows(t, t)
  {
  }

  lemma GrowsOver(a: Tree, b: Tree, c: Tree)
    requires Grows(a, b) && Grows(b, c)
    ensures Grows(a, c)
  {
  }

  lemma NewEmptyNone(t: Tree)
    ensures NewEmpty(t, t)
  {
  }

  lemma NewEmptyAdded(before: Tree, added: Tree, e: Entry, after: Tree)
    requires added.Values == before.Values + {e} && e.data == [] && NewEmpty(added, after)
    ensures NewEmpty(before, after)
  {
  }

  lemma NewEmptyFewer(before: Tree, more: Tree, after: Tree)
    requires NewEmpty(before, more) && after.Values <= more.Values
    ensures NewEmpty(before, after)
  {
  }

  lemma NewEmptyTransitive(a: Tree, b: Tree, c: Tree)
    requires NewEmpty(a, b) && NewEmpty(b, c)
    ensures NewEmpty(a, c)
  {
  }

  lemma KeepsAll(t: Tree)
    ensures Keeps(t, t)
  {
  }

  lemma KeepsAt(before: Tree, after: Tree, c: Path)
    requires Keeps(before, after) && c in before
    ensures c in after && after[c] == before[c]
  {
  }

  lemma KeepsTransitive(a: Tree, b: Tree, c: Tree)
    requires Keeps(a, b) && Keeps(b, c)
    ensures Keeps(a, c)
  {
  }

  lemma KeepsAdded(before: Tree, added: Tree, key: Path, e: Entry, after: Tree)
    requires key !in before && added == before[key := e] && Keeps(added, after)
    ensures Keeps(before, after)
  {
    forall p | p in before ensures p in after && after[p] == before[p] {
      assert p in added && added[p] == before[p];
    }
  }

  lemma KeepsCut(before: Tree, after: Tree, key: Path)
    requires Keeps(before, after) && forall p :: Below(key, p) ==> p !in ShapeOf(before)
    ensures Keeps(before, Cut(after, key))
  {
    forall p | p in before ensures p in Cut(after, key) && Cut(after, key)[p] == before[p] {
      assert p in ShapeOf(before);
    }
  }

  ghost predicate Closed(scope: set<Entry>)
    reads scope
  {
    forall d, e :: d in scope && e in d.entries ==> e in scope
  }

  /**
   Lookup by peeling one component off the front of the path string and going on below it with the
   rest. The string gets shorter at each call.
   */
  function GetEntryFrom(dir: Entry, path: string, ghost scope: set<Entry>): Found
    requires dir in scope && Closed(scope)
    reads scope
    decreases |path|
  {
    if path == "" || path[0] != '/' then Found.Refused
    else
      var pos := Find(path, '/', 1);
      if pos == |path| then
        var e := SearchEntries(dir.entries, path[1..]);
        if e == null then Null else Got(e)
      else
        var d := SearchEntries(dir.entries, path[1..pos]);
        if d == null || !d.isDir then Null
        else GetEntryFrom(d, "/" + path[pos + 1..], scope)
  }
}

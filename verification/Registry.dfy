/**
 The registry of operation types: kept stably sorted by decreasing priority, and
 searched for the first type that matches a path.
 */
module Registry {
  import opened Options

  datatype FileType = Regular | Directory

  datatype OpsType = OpsType(name: string, matches: (string, FileType) -> bool)

  datatype Reg = Reg(ops: OpsType, prio: nat)

  const LOW: nat := 1
  const NORMAL: nat := 0x7fff_ffff

  // ----- Stable sorting -----

  ghost predicate Sorted(s: seq<Reg>) {
    forall i, j :: 0 <= i < j < |s| ==> s[i].prio >= s[j].prio
  }

  /** Behind everything of at least its priority. */
  function Insert(s: seq<Reg>, x: Reg): seq<Reg> {
    if s == [] then [x]
    else if s[0].prio >= x.prio then [s[0]] + Insert(s[1..], x)
    else [x] + s
  }

  function StableSort(s: seq<Reg>): seq<Reg> {
    if s == [] then [] else Insert(StableSort(s[..|s| - 1]), s[|s| - 1])
  }

  /** The entries of one priority, in order. */
  function OfPriority(s: seq<Reg>, p: nat): seq<Reg> {
    if s == [] then []
    else (if s[0].prio == p then [s[0]] else []) + OfPriority(s[1..], p)
  }

  lemma {:induction false} InsertFacts(s: seq<Reg>, x: Reg)
    requires Sorted(s)
    ensures Sorted(Insert(s, x))
    ensures forall y :: y in Insert(s, x) <==> y in s || y == x
    ensures |Insert(s, x)| == |s| + 1
  {
    if s != [] && s[0].prio >= x.prio {
      InsertFacts(s[1..], x);
      var r := Insert(s[1..], x);
      forall j | 0 <= j < |r| ensures s[0].prio >= r[j].prio {
        assert r[j] in s[1..] || r[j] == x;
      }
    }
  }

  lemma {:induction false} InsertKeepsClasses(s: seq<Reg>, x: Reg, p: nat)
    requires Sorted(s)
    ensures OfPriority(Insert(s, x), p) == OfPriority(s + [x], p)
  {
    if s == [] {
    } else if s[0].prio >= x.prio {
      InsertKeepsClasses(s[1..], x, p);
      assert (s + [x])[1..] == s[1..] + [x];
      assert Insert(s, x)[1..] == Insert(s[1..], x);
    } else {
      OfPrioritySnoc(s, x, p);
      assert ([x] + s)[1..] == s;
      if x.prio == p {
        NoneOfPriority(s, p);
      }
    }
  }

  lemma {:induction false} OfPrioritySnoc(s: seq<Reg>, x: Reg, p: nat)
    ensures OfPriority(s + [x], p) == OfPriority(s, p) + (if x.prio == p then [x] else [])
  {
    if s != [] {
      assert (s + [x])[1..] == s[1..] + [x];
      OfPrioritySnoc(s[1..], x, p);
    } else {
      assert (s + [x])[1..] == [];
    }
  }

  lemma {:induction false} NoneOfPriority(s: seq<Reg>, p: nat)
    requires forall i :: 0 <= i < |s| ==> s[i].prio != p
    ensures OfPriority(s, p) == []
  {
    if s != [] {
      NoneOfPriority(s[1..], p);
    }
  }

  /** Sorted, and the order within each priority is that of the input. */
  ghost predicate IsStableSort(s: seq<Reg>, r: seq<Reg>) {
    Sorted(r) && forall p :: OfPriority(r, p) == OfPriority(s, p)
  }

  lemma {:induction false} StableSortIsStable(s: seq<Reg>)
    ensures IsStableSort(s, StableSort(s))
  {
    if s != [] {
      var front, x := s[..|s| - 1], s[|s| - 1];
      var r := StableSort(front);
      StableSortIsStable(front);
      InsertFacts(r, x);
      assert s == front + [x];
      forall p ensures OfPriority(StableSort(s), p) == OfPriority(s, p) {
        InsertKeepsClasses(r, x, p);
        OfPrioritySnoc(r, x, p);
        OfPrioritySnoc(front, x, p);
      }
    }
  }

  lemma HeadOfClass(s: seq<Reg>)
    requires s != []
    ensures OfPriority(s, s[0].prio) != [] && OfPriority(s, s[0].prio)[0] == s[0]
  {
  }

  lemma SameHead(a: seq<Reg>, b: seq<Reg>)
    requires a != [] && b != [] && Sorted(a) && Sorted(b)
    requires OfPriority(a, a[0].prio) == OfPriority(b, a[0].prio)
    requires OfPriority(a, b[0].prio) == OfPriority(b, b[0].prio)
    ensures a[0] == b[0]
  {
    hide OfPriority;
    HeadOfClass(a);
    HeadOfClass(b);
    if a[0].prio < b[0].prio {
      NoneOfPriority(a, b[0].prio);
    } else if b[0].prio < a[0].prio {
      NoneOfPriority(b, a[0].prio);
    }
  }

  /** The two conditions leave no freedom, so any stable sort gives this sequence. */
  lemma {:induction false} StableSortUnique(a: seq<Reg>, b: seq<Reg>)
    requires Sorted(a) && Sorted(b)
    requires forall p :: OfPriority(a, p) == OfPriority(b, p)
    ensures a == b
  {
    if a == [] || b == [] {
      if a != [] {
        HeadOfClass(a);
      }
      if b != [] {
        HeadOfClass(b);
      }
      assert a != [] ==> OfPriority(b, a[0].prio) != [];
      assert b != [] ==> OfPriority(a, b[0].prio) != [];
    } else {
      SameHead(a, b);
      forall p ensures OfPriority(a[1..], p) == OfPriority(b[1..], p) {
        assert OfPriority(a, p) == OfPriority(b, p);
        var h := if a[0].prio == p then [a[0]] else [];
        assert OfPriority(a, p)[|h|..] == OfPriority(a[1..], p);
        assert OfPriority(b, p)[|h|..] == OfPriority(b[1..], p);
      }
      StableSortUnique(a[1..], b[1..]);
    }
  }

  // ----- Histories -----

  datatype Event = Register(reg: Reg) | Unregister(name: string) | Clear

  function RemoveName(s: seq<Reg>, name: string): seq<Reg> {
    if s == [] then []
    else (if s[0].ops.name == name then [] else [s[0]]) + RemoveName(s[1..], name)
  }

  /** The registrations that no later event took away, in order. */
  function Survivors(h: seq<Event>): seq<Reg> {
    if h == [] then []
    else
      var before := Survivors(h[..|h| - 1]);
      match h[|h| - 1]
      case Register(x) => before + [x]
      case Unregister(n) => RemoveName(before, n)
      case Clear => []
  }

  /** What the program does: append and sort again, filter in place, empty. */
  function Apply(types: seq<Reg>, e: Event): seq<Reg> {
    match e
    case Register(x) => StableSort(types + [x])
    case Unregister(n) => RemoveName(types, n)
    case Clear => []
  }

  lemma {:induction false} SortOfSorted(s: seq<Reg>)
    requires Sorted(s)
    ensures StableSort(s) == s
  {
    StableSortIsStable(s);
    StableSortUnique(StableSort(s), s);
  }

  lemma SortAppended(s: seq<Reg>, x: Reg)
    requires Sorted(s)
    ensures StableSort(s + [x]) == Insert(s, x)
  {
    assert (s + [x])[..|s|] == s;
    SortOfSorted(s);
  }

  lemma {:induction false} RemoveSnoc(s: seq<Reg>, x: Reg, n: string)
    ensures RemoveName(s + [x], n) == RemoveName(s, n) + (if x.ops.name == n then [] else [x])
  {
    if s != [] {
      assert (s + [x])[1..] == s[1..] + [x];
      RemoveSnoc(s[1..], x, n);
    } else {
      assert (s + [x])[1..] == [];
    }
  }

  lemma {:induction false} RemoveHas(s: seq<Reg>, n: string, y: Reg)
    ensures y in RemoveName(s, n) <==> y in s && y.ops.name != n
  {
    if s != [] {
      RemoveHas(s[1..], n, y);
      assert y in s <==> y == s[0] || y in s[1..];
    }
  }

  lemma {:induction false} RemoveIsSorted(s: seq<Reg>, n: string)
    requires Sorted(s)
    ensures Sorted(RemoveName(s, n))
    ensures forall y :: y in RemoveName(s, n) <==> y in s && y.ops.name != n
  {
    if s != [] {
      RemoveIsSorted(s[1..], n);
      var r := RemoveName(s[1..], n);
      forall j | 0 <= j < |r| ensures s[0].prio >= r[j].prio {
        var k :| 0 <= k < |s[1..]| && s[1..][k] == r[j];
        assert s[1 + k] == r[j];
      }
    }
    forall y ensures y in RemoveName(s, n) <==> y in s && y.ops.name != n {
      RemoveHas(s, n, y);
    }
  }

  /** Removing by name and inserting by priority do not disturb each other. */
  lemma {:induction false} RemoveOfInsert(s: seq<Reg>, x: Reg, n: string)
    requires Sorted(s)
    ensures RemoveName(Insert(s, x), n)
         == if x.ops.name == n then RemoveName(s, n) else Insert(RemoveName(s, n), x)
  {
    if s == [] {
    } else if s[0].prio >= x.prio {
      RemoveOfInsert(s[1..], x, n);
      assert Insert(s, x)[1..] == Insert(s[1..], x);
      var rest := RemoveName(s[1..], n);
      assert ([s[0]] + rest)[1..] == rest && [] + rest == rest;
      assert [] + Insert(rest, x) == Insert(rest, x);
    } else {
      assert ([x] + s)[1..] == s;
      RemoveIsSorted(s, n);
      InsertInFront(RemoveName(s, n), x);
    }
  }

  lemma InsertInFront(s: seq<Reg>, x: Reg)
    requires forall y :: y in s ==> y.prio < x.prio
    ensures Insert(s, x) == [x] + s
  {
  }

  lemma {:induction false} RemoveOfSort(s: seq<Reg>, n: string)
    ensures RemoveName(StableSort(s), n) == StableSort(RemoveName(s, n))
  {
    if s != [] {
      var front, x := s[..|s| - 1], s[|s| - 1];
      assert s == front + [x];
      RemoveOfSort(front, n);
      StableSortIsStable(front);
      RemoveOfInsert(StableSort(front), x, n);
      RemoveSnoc(front, x, n);
      if x.ops.name != n {
        assert RemoveName(s, n)[..|RemoveName(s, n)| - 1] == RemoveName(front, n);
      } else {
        assert RemoveName(s, n) == RemoveName(front, n);
      }
    }
  }

  /** Each step of the program keeps the registry equal to the sorted survivors of its whole history. */
  lemma RegistryIsSortedSurvivors(h: seq<Event>, e: Event)
    ensures Apply(StableSort(Survivors(h)), e) == StableSort(Survivors(h + [e]))
  {
    var before := Survivors(h);
    assert (h + [e])[..|h|] == h;
    StableSortIsStable(before);
    match e
    case Register(x) =>
      SortAppended(StableSort(before), x);
      assert (before + [x])[..|before|] == before;
    case Unregister(n) =>
      RemoveOfSort(before, n);
    case Clear =>
  }

  /** The registry after a whole history. */
  function Replayed(h: seq<Event>): seq<Reg> {
    if h == [] then [] else Apply(Replayed(h[..|h| - 1]), h[|h| - 1])
  }

  lemma {:induction false} RegistryAfterHistory(h: seq<Event>)
    ensures Replayed(h) == StableSort(Survivors(h))
  {
    if h != [] {
      var front, e := h[..|h| - 1], h[|h| - 1];
      assert h == front + [e];
      RegistryAfterHistory(front);
      RegistryIsSortedSurvivors(front, e);
    }
  }

  // ----- Dispatch -----

  function FirstMatch(s: seq<Reg>, path: string, ft: FileType): Option<Reg> {
    if s == [] then None
    else if s[0].ops.matches(path, ft) then Some(s[0])
    else FirstMatch(s[1..], path, ft)
  }

  lemma FirstMatchStep(s: seq<Reg>, path: string, ft: FileType)
    ensures FirstMatch(s, path, ft)
         == if s == [] then None
            else if s[0].ops.matches(path, ft) then Some(s[0]) else FirstMatch(s[1..], path, ft)
  {
  }

  ghost predicate NothingMatches(s: seq<Reg>, path: string, ft: FileType) {
    forall i :: 0 <= i < |s| ==> !s[i].ops.matches(path, ft)
  }

  /** Index i holds a match, and every other match is of lower priority, or of the same and registered later. */
  ghost predicate IsBest(s: seq<Reg>, path: string, ft: FileType, i: nat)
    requires i < |s|
  {
    && s[i].ops.matches(path, ft)
    && forall j :: 0 <= j < |s| && s[j].ops.matches(path, ft) && j != i
         ==> s[j].prio < s[i].prio || (s[j].prio == s[i].prio && i < j)
  }

  lemma {:induction false} FirstMatchOfInsert(s: seq<Reg>, x: Reg, path: string, ft: FileType)
    requires Sorted(s)
    ensures var m := FirstMatch(s, path, ft);
            FirstMatch(Insert(s, x), path, ft)
            == if x.ops.matches(path, ft) && (m.None? || m.value.prio < x.prio) then Some(x) else m
    ensures var m := FirstMatch(s, path, ft); m.Some? ==> m.value in s
  {
    if s == [] {
    } else if s[0].prio >= x.prio {
      FirstMatchOfInsert(s[1..], x, path, ft);
      assert Insert(s, x)[1..] == Insert(s[1..], x);
    } else {
      assert ([x] + s)[1..] == s;
      FirstMatchInside(s, path, ft);
    }
  }

  lemma {:induction false} FirstMatchInside(s: seq<Reg>, path: string, ft: FileType)
    ensures var m := FirstMatch(s, path, ft); m.Some? ==> m.value in s && m.value.ops.matches(path, ft)
    ensures FirstMatch(s, path, ft).None? <==> forall i :: 0 <= i < |s| ==> !s[i].ops.matches(path, ft)
  {
    if s != [] {
      FirstMatchInside(s[1..], path, ft);
    }
  }

  lemma BestStays(front: seq<Reg>, x: Reg, path: string, ft: FileType, i: nat)
    requires i < |front| && IsBest(front, path, ft, i)
    requires !x.ops.matches(path, ft) || x.prio <= front[i].prio
    ensures IsBest(front + [x], path, ft, i)
  {
  }

  lemma BestIsNew(front: seq<Reg>, x: Reg, path: string, ft: FileType)
    requires x.ops.matches(path, ft)
    requires forall i :: 0 <= i < |front| && front[i].ops.matches(path, ft) ==> front[i].prio < x.prio
    ensures IsBest(front + [x], path, ft, |front|)
  {
  }

  /** The first match of the sorted registry is the earliest survivor among those of highest priority. */
  lemma {:induction false} DispatchPicksBest(s: seq<Reg>, path: string, ft: FileType)
    ensures var m := FirstMatch(StableSort(s), path, ft);
            && (m.None? <==> NothingMatches(s, path, ft))
            && (m.Some? ==> exists i :: 0 <= i < |s| && IsBest(s, path, ft, i) && s[i] == m.value)
  {
    if s != [] {
      var front, x := s[..|s| - 1], s[|s| - 1];
      assert s == front + [x];
      DispatchPicksBest(front, path, ft);
      StableSortIsStable(front);
      FirstMatchOfInsert(StableSort(front), x, path, ft);
      DispatchSnoc(front, x, path, ft, FirstMatch(StableSort(front), path, ft));
    }
  }

  lemma DispatchSnoc(front: seq<Reg>, x: Reg, path: string, ft: FileType, m: Option<Reg>)
    requires m.None? <==> NothingMatches(front, path, ft)
    requires m.Some? ==> exists i :: 0 <= i < |front| && IsBest(front, path, ft, i) && front[i] == m.value
    ensures var s := front + [x];
            var m' := if x.ops.matches(path, ft) && (m.None? || m.value.prio < x.prio) then Some(x) else m;
            && (m'.None? <==> NothingMatches(s, path, ft))
            && (m'.Some? ==> exists i :: 0 <= i < |s| && IsBest(s, path, ft, i) && s[i] == m'.value)
  {
    var s := front + [x];
    assert s[|front|] == x;
    assert forall i :: 0 <= i < |front| ==> s[i] == front[i];
    if x.ops.matches(path, ft) && (m.None? || m.value.prio < x.prio) {
      BestIsNew(front, x, path, ft);
    } else if m.Some? {
      var i :| 0 <= i < |front| && IsBest(front, path, ft, i) && front[i] == m.value;
      BestStays(front, x, path, ft, i);
      assert s[i].ops.matches(path, ft);
    }
  }

  function ByName(s: seq<Reg>, name: string): Option<OpsType> {
    if s == [] then None
    else if s[0].ops.name == name then Some(s[0].ops)
    else ByName(s[1..], name)
  }

  ghost predicate UniqueNames(s: seq<Reg>) {
    forall i, j :: 0 <= i < j < |s| ==> s[i].ops.name != s[j].ops.name
  }

  /** With unique names, looking the dispatched name up gives the very type that matched. */
  lemma {:induction false} NameLeadsBack(s: seq<Reg>, x: Reg)
    requires UniqueNames(s) && x in s
    ensures ByName(s, x.ops.name) == Some(x.ops)
  {
    if s[0] != x {
      NameLeadsBack(s[1..], x);
    }
  }

  lemma {:induction false} ByNameInside(s: seq<Reg>, name: string)
    ensures ByName(s, name).None? <==> forall i :: 0 <= i < |s| ==> s[i].ops.name != name
    ensures ByName(s, name).Some? ==> ByName(s, name).value.name == name
  {
    if s != [] {
      ByNameInside(s[1..], name);
    }
  }

  /** The registry object. Its ghost history says how it got where it is. */
  class OpsTypeDb {
    var types: seq<Reg>
    ghost var history: seq<Event>

    ghost predicate Valid()
      reads this
    {
      types == StableSort(Survivors(history))
    }

    constructor ()
      ensures Valid() && types == [] && history == []
    {
      types, history := [], [];
    }

    method RegisterOps(prio: nat, ops: OpsType)
      requires Valid()
      modifies this
      ensures Valid() && history == old(history) + [Register(Reg(ops, prio))]
      ensures types == Insert(old(types), Reg(ops, prio))
    {
      RegistryIsSortedSurvivors(history, Register(Reg(ops, prio)));
      StableSortIsStable(Survivors(history));
      SortAppended(types, Reg(ops, prio));
      types := types + [Reg(ops, prio)];
      types := StableSort(types);
      history := history + [Register(Reg(ops, prio))];
    }

    method UnregisterOps(name: string)
      requires Valid()
      modifies this
      ensures Valid() && history == old(history) + [Unregister(name)]
      ensures types == RemoveName(old(types), name)
    {
      RegistryIsSortedSurvivors(history, Unregister(name));
      types := RemoveName(types, name);
      history := history + [Unregister(name)];
    }

    method ClearAll()
      requires Valid()
      modifies this
      ensures Valid() && types == [] && history == old(history) + [Clear]
    {
      RegistryIsSortedSurvivors(history, Clear);
      types := [];
      history := history + [Clear];
    }

    /** None stands for the exception when no type matches. */
    method GetNameByPath(path: string, ft: FileType) returns (r: Option<string>)
      requires Valid()
      ensures var s := Survivors(history);
              && (r.None? <==> NothingMatches(s, path, ft))
              && (r.Some? ==> exists i :: 0 <= i < |s| && IsBest(s, path, ft, i) && s[i].ops.name == r.value)
      ensures r == (match FirstMatch(types, path, ft) case None => None case Some(x) => Some(x.ops.name))
    {
      hide IsBest, Survivors, StableSort, FirstMatch, NothingMatches;
      ghost var s, m := Survivors(history), FirstMatch(types, path, ft);
      DispatchPicksBest(s, path, ft);
      var i := 0;
      while i < |types|
        invariant 0 <= i <= |types|
        invariant m == FirstMatch(types[i..], path, ft)
      {
        FirstMatchStep(types[i..], path, ft);
        if types[i].ops.matches(path, ft) {
          assert m == Some(types[i]);
          return Some(types[i].ops.name);
        }
        i := i + 1;
      }
      FirstMatchStep(types[i..], path, ft);
      return None;
    }

    /** None stands for the exception when the name is not registered. */
    method GetOps(name: string) returns (r: Option<OpsType>)
      ensures r == ByName(types, name)
      ensures r.None? <==> forall x :: x in types ==> x.ops.name != name
      ensures r.Some? ==>
                exists i :: 0 <= i < |types| && types[i].ops == r.value && types[i].ops.name == name
                            && forall j :: 0 <= j < i ==> types[j].ops.name != name
    {
      var i := 0;
      while i < |types|
        invariant 0 <= i <= |types|
        invariant ByName(types, name) == ByName(types[i..], name)
        invariant forall j :: 0 <= j < i ==> types[j].ops.name != name
      {
        if types[i].ops.name == name {
          return Some(types[i].ops);
        }
        i := i + 1;
      }
      return None;
    }

    /** Names and priorities in registry order. */
    method InfoList() returns (result: seq<(string, nat)>)
      ensures |result| == |types|
      ensures forall i :: 0 <= i < |types| ==> result[i] == (types[i].ops.name, types[i].prio)
    {
      result := [];
      for i := 0 to |types|
        invariant |result| == i
        invariant forall j :: 0 <= j < i ==> result[j] == (types[j].ops.name, types[j].prio)
      {
        result := result + [(types[i].ops.name, types[i].prio)];
      }
    }
  }

  // ----- Installing types that install other types -----

  /**
   A type together with what its install hook does: it installs the nested types in order,
   then succeeds, or fails by throwing or by a negative return code.
   */
  datatype Package = Package(reg: Reg, nested: seq<Package>, fails: bool)

  datatype Installed = Installed(types: seq<Reg>, ok: bool)

  /** install_ops: register the type, run its hook, and on a failure take this one name out again. */
  function Install(types: seq<Reg>, p: Package): Installed
    decreases p, 0
  {
    var r := InstallAll(Insert(types, p.reg), p.nested);
    if r.ok && !p.fails then r else Installed(RemoveName(r.types, p.reg.ops.name), false)
  }

  function InstallAll(types: seq<Reg>, ps: seq<Package>): Installed
    decreases ps
  {
    if ps == [] then Installed(types, true)
    else
      var r := Install(types, ps[0]);
      if r.ok then InstallAll(r.types, ps[1..]) else r
  }

  datatype Uninstalled = Uninstalled(types: seq<Reg>, threw: bool)

  /**
   uninstall_ops: run the hook of the registered type, which uninstalls the nested types in reverse
   order and swallows exceptions, then take the name out. An unregistered name throws.
   */
  function Uninstall(types: seq<Reg>, p: Package): Uninstalled
    decreases p, 0
  {
    var name := p.reg.ops.name;
    if ByName(types, name).None? then Uninstalled(RemoveName(types, name), true)
    else Uninstalled(RemoveName(UninstallAll(types, p.nested), name), false)
  }

  /** The nested types, last one first, stopping at the first that throws. */
  function UninstallAll(types: seq<Reg>, ps: seq<Package>): seq<Reg>
    decreases ps
  {
    if ps == [] then types
    else
      var r := Uninstall(types, ps[|ps| - 1]);
      if r.threw then r.types else UninstallAll(r.types, ps[..|ps| - 1])
  }

  /** Taking these out, last one first, finds each of them registered. */
  predicate AllFound(types: seq<Reg>, ps: seq<Package>)
    decreases ps
  {
    ps == [] ||
    (var r := Uninstall(types, ps[|ps| - 1]); !r.threw && AllFound(r.types, ps[..|ps| - 1]))
  }

  /**
   An uninstallation that does not find a nested type stops there: those behind it are gone, and those before it stay
   registered.
   */
  lemma {:induction false} UninstallStopsAtMissing(types: seq<Reg>, front: seq<Package>, p: Package, back: seq<Package>)
    requires AllFound(types, back)
    requires forall x :: x in UninstallAll(types, back) ==> x.ops.name != p.reg.ops.name
    ensures UninstallAll(types, front + [p] + back) == UninstallAll(types, back)
    decreases back
  {
    var all := front + [p] + back;
    if back == [] {
      assert all[..|all| - 1] == front && all[|all| - 1] == p;
      NotFound(types, p);
    } else {
      var last := back[|back| - 1];
      assert all[|all| - 1] == last && all[..|all| - 1] == front + [p] + back[..|back| - 1];
      UninstallStopsAtMissing(Uninstall(types, last).types, front, p, back[..|back| - 1]);
    }
  }

  lemma NotFound(types: seq<Reg>, p: Package)
    requires forall x :: x in types ==> x.ops.name != p.reg.ops.name
    ensures Uninstall(types, p) == Uninstalled(types, true)
  {
    RemoveAbsent(types, p.reg.ops.name);
    NoSuchName(types, p.reg.ops.name);
  }

  lemma {:induction false} NoSuchName(types: seq<Reg>, name: string)
    ensures ByName(types, name).None? <==> forall x :: x in types ==> x.ops.name != name
  {
    if types != [] {
      NoSuchName(types[1..], name);
    }
  }

  /** Everything a package registers when all its hooks succeed, in order. */
  function Flat(p: Package): seq<Reg>
    decreases p, 0
  {
    [p.reg] + FlatAll(p.nested)
  }

  function FlatAll(ps: seq<Package>): seq<Reg>
    decreases ps
  {
    if ps == [] then [] else Flat(ps[0]) + FlatAll(ps[1..])
  }

  function InsertEach(types: seq<Reg>, xs: seq<Reg>): seq<Reg>
    decreases xs
  {
    if xs == [] then types else InsertEach(Insert(types, xs[0]), xs[1..])
  }

  /** What a failed installation leaves behind: the nested packages that were already complete. */
  function Leftover(p: Package): seq<Reg>
    decreases p, 0
  {
    LeftoverAll(p.nested)
  }

  function LeftoverAll(ps: seq<Package>): seq<Reg>
    decreases ps
  {
    if ps == [] then []
    else if Succeeds(ps[0]) then Flat(ps[0]) + LeftoverAll(ps[1..])
    else Leftover(ps[0])
  }

  predicate Succeeds(p: Package)
    decreases p, 0
  {
    !p.fails && AllSucceed(p.nested)
  }

  predicate AllSucceed(ps: seq<Package>)
    decreases ps
  {
    ps == [] || (Succeeds(ps[0]) && AllSucceed(ps[1..]))
  }

  ghost predicate Apart(a: seq<Reg>, b: seq<Reg>) {
    forall x, y :: x in a && y in b ==> x.ops.name != y.ops.name
  }

  lemma {:induction false} InsertEachFacts(t: seq<Reg>, xs: seq<Reg>)
    requires Sorted(t)
    ensures Sorted(InsertEach(t, xs))
    ensures forall y :: y in InsertEach(t, xs) <==> y in t || y in xs
    decreases xs
  {
    if xs != [] {
      InsertFacts(t, xs[0]);
      InsertEachFacts(Insert(t, xs[0]), xs[1..]);
      assert forall y :: y in xs <==> y == xs[0] || y in xs[1..];
    }
  }

  lemma {:induction false} InsertEachConcat(t: seq<Reg>, xs: seq<Reg>, ys: seq<Reg>)
    ensures InsertEach(t, xs + ys) == InsertEach(InsertEach(t, xs), ys)
    decreases xs
  {
    if xs == [] {
      assert xs + ys == ys;
    } else {
      assert (xs + ys)[1..] == xs[1..] + ys;
      InsertEachConcat(Insert(t, xs[0]), xs[1..], ys);
    }
  }

  lemma {:induction false} RemoveAbsent(t: seq<Reg>, n: string)
    requires forall y :: y in t ==> y.ops.name != n
    ensures RemoveName(t, n) == t
  {
    if t != [] {
      RemoveAbsent(t[1..], n);
    }
  }

  /** Taking one fresh name out again restores the sequence the later insertions were made on. */
  lemma {:induction false} RemoveFirstInserted(t: seq<Reg>, x: Reg, xs: seq<Reg>)
    requires Sorted(t) && Apart(t, [x]) && Apart([x], xs)
    ensures RemoveName(InsertEach(Insert(t, x), xs), x.ops.name) == InsertEach(t, xs)
  {
    InsertFacts(t, x);
    RemovePastInserts(Insert(t, x), xs, x.ops.name);
    RemoveOfInsert(t, x, x.ops.name);
    RemoveAbsent(t, x.ops.name);
  }

  lemma {:induction false} RemovePastInserts(t: seq<Reg>, xs: seq<Reg>, n: string)
    requires forall y :: y in xs ==> y.ops.name != n
    requires Sorted(t)
    ensures RemoveName(InsertEach(t, xs), n) == InsertEach(RemoveName(t, n), xs)
    decreases xs
  {
    if xs != [] {
      InsertFacts(t, xs[0]);
      RemovePastInserts(Insert(t, xs[0]), xs[1..], n);
      RemoveOfInsert(t, xs[0], n);
    }
  }

  lemma {:induction false} FlatAllSnoc(ps: seq<Package>, p: Package)
    ensures FlatAll(ps + [p]) == FlatAll(ps) + Flat(p)
  {
    if ps != [] {
      assert (ps + [p])[1..] == ps[1..] + [p];
      FlatAllSnoc(ps[1..], p);
    } else {
      assert (ps + [p])[1..] == [];
    }
  }

  lemma UniqueParts(a: seq<Reg>, b: seq<Reg>)
    requires UniqueNames(a + b)
    ensures UniqueNames(a) && UniqueNames(b) && Apart(a, b)
  {
    assert forall i :: 0 <= i < |a| ==> (a + b)[i] == a[i];
    assert forall i :: 0 <= i < |b| ==> (a + b)[|a| + i] == b[i];
  }

  lemma {:induction false} LeftoverInside(p: Package)
    ensures forall y :: y in Leftover(p) ==> y in Flat(p)
    decreases p, 0
  {
    LeftoverAllInside(p.nested);
  }

  lemma {:induction false} LeftoverAllInside(ps: seq<Package>)
    ensures forall y :: y in LeftoverAll(ps) ==> y in FlatAll(ps)
    ensures AllSucceed(ps) ==> LeftoverAll(ps) == FlatAll(ps)
    decreases ps
  {
    if ps != [] {
      LeftoverInside(ps[0]);
      LeftoverAllInside(ps[1..]);
    }
  }

  /**
   Installing succeeds exactly when every hook in the package does. It then adds the whole package; a failed
   installation leaves exactly the nested packages that were already complete.
   */
  lemma {:induction false} InstallEffect(t: seq<Reg>, p: Package)
    requires Sorted(t) && Apart(t, Flat(p)) && UniqueNames(Flat(p))
    ensures Install(t, p) == Installed(InsertEach(t, if Succeeds(p) then Flat(p) else Leftover(p)), Succeeds(p))
    decreases p, 0
  {
    var t1 := Insert(t, p.reg);
    UniqueParts([p.reg], FlatAll(p.nested));
    InsertFacts(t, p.reg);
    assert forall y :: y in FlatAll(p.nested) ==> y in Flat(p);
    assert p.reg in Flat(p);
    InstallAllEffect(t1, p.nested);
    LeftoverAllInside(p.nested);
    RemoveFirstInserted(t, p.reg, LeftoverAll(p.nested));
    assert Flat(p)[1..] == FlatAll(p.nested);
  }

  lemma {:induction false} InstallAllEffect(t: seq<Reg>, ps: seq<Package>)
    requires Sorted(t) && Apart(t, FlatAll(ps)) && UniqueNames(FlatAll(ps))
    ensures InstallAll(t, ps) == Installed(InsertEach(t, LeftoverAll(ps)), AllSucceed(ps))
    decreases ps
  {
    if ps != [] {
      var first, rest := Flat(ps[0]), FlatAll(ps[1..]);
      UniqueParts(first, rest);
      InstallEffect(t, ps[0]);
      if Succeeds(ps[0]) {
        InsertEachFacts(t, first);
        InstallAllEffect(InsertEach(t, first), ps[1..]);
        InsertEachConcat(t, first, LeftoverAll(ps[1..]));
      }
    }
  }

  /** So a failed installation leaves the registry as it was exactly when no nested package had been completed. */
  lemma FailedInstallRestoresIff(t: seq<Reg>, p: Package)
    requires Sorted(t) && Apart(t, Flat(p)) && UniqueNames(Flat(p)) && !Succeeds(p)
    ensures !Install(t, p).ok
    ensures Install(t, p).types == t <==> Leftover(p) == []
    ensures p.nested == [] ==> Leftover(p) == []
  {
    InstallEffect(t, p);
    LengthOfInsertEach(t, Leftover(p));
  }

  lemma LeafFacts(r: Reg, fails: bool)
    ensures var p := Package(r, [], fails); Flat(p) == [r] && Leftover(p) == [] && Succeeds(p) == !fails
  {
  }

  lemma PairFacts(a: Reg, x: Package, y: Package)
    ensures var p := Package(a, [x, y], false);
            && Flat(p) == [a] + Flat(x) + Flat(y)
            && Succeeds(p) == (Succeeds(x) && Succeeds(y))
            && (Succeeds(x) && !Succeeds(y) ==> Leftover(p) == Flat(x) + Leftover(y))
  {
    assert [x, y][1..] == [y] && [y][1..] == [];
    assert FlatAll([y]) == Flat(y) + FlatAll([]) == Flat(y);
    assert LeftoverAll([y]) == if Succeeds(y) then Flat(y) + LeftoverAll([]) else Leftover(y);
    assert AllSucceed([y]) == Succeeds(y);
  }

  /** The failing case: a nested type that was complete stays when the one after it fails. */
  lemma FailedInstallLeaves(a: Reg, b: Reg, c: Reg)
    requires a.ops.name != b.ops.name && a.ops.name != c.ops.name && b.ops.name != c.ops.name
    ensures var p := Package(a, [Package(b, [], false), Package(c, [], true)], false);
            Install([], p) == Installed([b], false)
  {
    hide Flat, Leftover, Succeeds, Install, Insert;
    var ok, bad := Package(b, [], false), Package(c, [], true);
    LeafFacts(b, false);
    LeafFacts(c, true);
    PairFacts(a, ok, bad);
    var p := Package(a, [ok, bad], false);
    assert Flat(p) == [a, b, c];
    InstallEffect([], p);
    InsertedAlone(b);
  }

  lemma InsertedAlone(x: Reg)
    ensures InsertEach([], [x]) == [x]
  {
    assert [x][1..] == [];
  }

  lemma {:induction false} LengthOfInsertEach(t: seq<Reg>, xs: seq<Reg>)
    requires Sorted(t)
    ensures |InsertEach(t, xs)| == |t| + |xs|
    decreases xs
  {
    if xs != [] {
      InsertFacts(t, xs[0]);
      LengthOfInsertEach(Insert(t, xs[0]), xs[1..]);
    }
  }

  /** Uninstalling a package that was installed last gives back the exact earlier sequence. */
  lemma {:induction false} UninstallUndoes(t: seq<Reg>, p: Package)
    requires Sorted(t) && Apart(t, Flat(p)) && UniqueNames(Flat(p))
    ensures Uninstall(InsertEach(t, Flat(p)), p) == Uninstalled(t, false)
    decreases p, 0
  {
    var full, t1 := InsertEach(t, Flat(p)), Insert(t, p.reg);
    assert Flat(p)[1..] == FlatAll(p.nested) && Flat(p)[0] == p.reg;
    UniqueParts([p.reg], FlatAll(p.nested));
    InsertFacts(t, p.reg);
    InsertEachFacts(t, Flat(p));
    assert p.reg in Flat(p) && p.reg in full;
    ByNameInside(full, p.reg.ops.name);
    assert forall y :: y in FlatAll(p.nested) ==> y in Flat(p);
    UninstallAllUndoes(t1, p.nested);
    RemoveFirstInserted(t, p.reg, []);
  }

  lemma {:induction false} UninstallAllUndoes(t: seq<Reg>, ps: seq<Package>)
    requires Sorted(t) && Apart(t, FlatAll(ps)) && UniqueNames(FlatAll(ps))
    ensures UninstallAll(InsertEach(t, FlatAll(ps)), ps) == t
    decreases ps
  {
    if ps != [] {
      var front, last := ps[..|ps| - 1], ps[|ps| - 1];
      assert ps == front + [last];
      FlatAllSnoc(front, last);
      UniqueParts(FlatAll(front), Flat(last));
      var t1 := InsertEach(t, FlatAll(front));
      InsertEachFacts(t, FlatAll(front));
      InsertEachConcat(t, FlatAll(front), Flat(last));
      UninstallUndoes(t1, last);
      UninstallAllUndoes(t, front);
    }
  }

  /** Installing and uninstalling a package of fresh names restores the registry, order included. */
  lemma InstallRoundTrip(t: seq<Reg>, p: Package)
    requires Sorted(t) && Apart(t, Flat(p)) && UniqueNames(Flat(p)) && Succeeds(p)
    ensures Install(t, p).ok
    ensures Uninstall(Install(t, p).types, p) == Uninstalled(t, false)
  {
    InstallEffect(t, p);
    UninstallUndoes(t, p);
  }

  /** install_ops on the registry object. */
  method InstallOps(db: OpsTypeDb, p: Package) returns (ok: bool)
    requires db.Valid()
    modifies db
    ensures db.Valid()
    ensures Installed(db.types, ok) == Install(old(db.types), p)
    decreases p
  {
    hide StableSort, Survivors, Insert, RemoveName;
    db.RegisterOps(p.reg.prio, p.reg.ops);
    ghost var start := db.types;
    ok := true;
    var i := 0;
    while i < |p.nested| && ok
      invariant 0 <= i <= |p.nested| && db.Valid()
      invariant InstallAll(start, p.nested)
             == if ok then InstallAll(db.types, p.nested[i..]) else Installed(db.types, false)
    {
      ok := InstallOps(db, p.nested[i]);
      i := i + 1;
    }
    if !ok || p.fails {
      db.UnregisterOps(p.reg.ops.name);
      ok := false;
    }
  }

  /** uninstall_ops on the registry object; the name goes whether or not the hook ran. */
  method UninstallOps(db: OpsTypeDb, p: Package) returns (threw: bool)
    requires db.Valid()
    modifies db
    ensures db.Valid()
    ensures Uninstalled(db.types, threw) == Uninstall(old(db.types), p)
    decreases p
  {
    hide StableSort, Survivors, RemoveName, ByName;
    var ops := db.GetOps(p.reg.ops.name);
    threw := ops.None?;
    if ops.Some? {
      ghost var start := db.types;
      var i := |p.nested|;
      var stop := false;
      assert p.nested[..|p.nested|] == p.nested;
      while i > 0 && !stop
        invariant 0 <= i <= |p.nested| && db.Valid()
        invariant UninstallAll(start, p.nested) == if stop then db.types else UninstallAll(db.types, p.nested[..i])
      {
        i := i - 1;
        assert p.nested[..i + 1][..i] == p.nested[..i];
        stop := UninstallOps(db, p.nested[i]);
      }
    }
    db.UnregisterOps(p.reg.ops.name);
  }

  /** Registering one after another is sorting the whole sequence. */
  lemma {:induction false} InsertEachIsSort(s: seq<Reg>, xs: seq<Reg>)
    ensures InsertEach(StableSort(s), xs) == StableSort(s + xs)
    decreases xs
  {
    if xs == [] {
      assert s + xs == s;
    } else {
      StableSortIsStable(s);
      assert (s + [xs[0]])[..|s|] == s;
      InsertEachIsSort(s + [xs[0]], xs[1..]);
      assert s + [xs[0]] + xs[1..] == s + xs;
    }
  }
}

/**
 Session directories: where they live in the tree, how their paths are routed, and what
 creating one does.
 */
module Sessions {
  import opened Options
  import opened Strings
  import opened Paths
  import opened FlatTree
  import opened Regex
  import opened Registry
  import opened Routes

  function DirOf(d: string): Path {
    ["tcp", d]
  }

  function FileOf(d: string, f: SessionFile): Path {
    ["tcp", d, FileText(f)]
  }

  const TCP: Path := ["tcp"]
  const CLONE: Path := ["tcp", "clone"]

  /** The kind a new entry at component path c gets. */
  function KindAt(c: Path, isDir: bool): Kind {
    Route(Str(c), if isDir then Directory else Regular)
  }

  lemma NumeralIsName(d: string)
    requires IsNumeral(d)
    ensures IsName(d)
  {
  }

  lemma FileTextIsName(f: SessionFile)
    ensures IsName(FileText(f))
  {
  }

  lemma StrOfTcp(x: string)
    ensures Str(["tcp", x]) == "/tcp/" + x
  {
    assert Join(["tcp", x], '/') == "tcp" + "/" + Join([x], '/');
  }

  lemma StrOfThree(x: string, y: string)
    ensures Str(["tcp", x, y]) == "/tcp/" + x + "/" + y
  {
    assert ["tcp", x, y][1..] == [x, y] && [x, y][1..] == [y];
    assert Join([x, y], '/') == x + "/" + y;
  }

  lemma SessionStrings(d: string, f: SessionFile)
    ensures Str(DirOf(d)) == SessionDirPath(d)
    ensures Str(FileOf(d, f)) == SessionFilePath(d, f)
    ensures Str(CLONE) == "/tcp/clone" && Str(TCP) == "/tcp"
  {
    StrOfTcp(d);
    StrOfThree(d, FileText(f));
    StrOfTcp("clone");
  }

  lemma StrInjective(a: Path, b: Path)
    requires a != [] && b != [] && AllNames(a) && AllNames(b) && Str(a) == Str(b)
    ensures a == b
  {
    CompsOfStr(a);
    CompsOfStr(b);
  }

  /** Which component paths have the routes that matter to the protocol. */
  lemma RouteOfNames(c: Path)
    requires c != [] && AllNames(c)
    ensures KindAt(c, true) == SessionDir <==> |c| == 2 && c[0] == "tcp" && IsNumeral(c[1])
    ensures KindAt(c, true) == TcpDir <==> c == TCP
    ensures KindAt(c, false) == Clone <==> c == CLONE
  {
    hide FullMatch, ParentPath, FileName, Str, IsNumeral;
    SessionStrings("0", Ctl);
    assert AllNames(TCP) && AllNames(CLONE);
    if Str(c) == Str(TCP) {
      StrInjective(c, TCP);
    }
    if Str(c) == Str(CLONE) {
      StrInjective(c, CLONE);
    }
    SessionDirRoute(c);
  }

  lemma SessionDirRoute(c: Path)
    requires c != [] && AllNames(c)
    ensures FullMatch(SessionRe(""), Str(c)).Some? <==> |c| == 2 && c[0] == "tcp" && IsNumeral(c[1])
    ensures FullMatch(SessionRe(""), Str(c)).Some? ==> Str(c) != "/tcp"
  {
    hide FullMatch, ParentPath, FileName, Str, IsNumeral;
    SessionReIff("", Str(c), "");
    if FullMatch(SessionRe(""), Str(c)).Some? {
      var d := FullMatch(SessionRe(""), Str(c)).value[SESSION];
      SessionReIff("", Str(c), d);
      assert "/tcp/" + d + "" == "/tcp/" + d;
      StrOfTcp(d);
      NumeralIsName(d);
      assert IsName("tcp");
      StrInjective(c, DirOf(d));
      SessionDirIsNotTcp(Str(c));
    }
    if |c| == 2 && c[0] == "tcp" && IsNumeral(c[1]) {
      assert c == DirOf(c[1]);
      StrOfTcp(c[1]);
      assert "/tcp/" + c[1] + "" == "/tcp/" + c[1];
      SessionReIff("", Str(c), c[1]);
    }
  }

  lemma SessionFileRoute(d: string, f: SessionFile)
    requires IsNumeral(d)
    ensures KindAt(FileOf(d, f), false) == File(f) && Route(SessionFilePath(d, f), Regular) == File(f)
  {
    hide FullMatch, ParentPath, FileName, Str, IsNumeral;
    SessionStrings(d, f);
    var p := SessionFilePath(d, f);
    assert p == "/tcp/" + d + ("/" + FileText(f));
    SessionReIff("/" + FileText(f), p, d);
    MatchIsRoute(File(f), p, Regular);
  }

  /** Where clients and servers live: right under /tcp, at any name but the clone file's. */
  predicate SocketPath(c: Path) {
    |c| == 2 && c[0] == "tcp" && c != CLONE
  }

  lemma SocketFileRoute(c: Path)
    requires c != [] && AllNames(c)
    ensures KindAt(c, false) == Client <==> SocketPath(c) && c[1][0] != '*'
    ensures KindAt(c, false) == Server <==> SocketPath(c) && c[1][0] == '*'
  {
    hide FullMatch, ParentPath, FileName, Str, IsNumeral;
    var p := Str(c);
    StrParts(c);
    SessionStrings("0", Ctl);
    TcpIsParent(c);
    RouteOfNames(c);
    forall f | FullMatch(SessionRe("/" + FileText(f)), p).Some? ensures ParentPath(p) != "/tcp" {
      SessionFileParent(p, f);
    }
  }

  lemma TcpIsParent(c: Path)
    requires c != [] && AllNames(c)
    ensures ParentPath(Str(c)) == "/tcp" <==> |c| == 2 && c[0] == "tcp"
  {
    hide ParentPath, FileName, Str;
    StrParts(c);
    SessionStrings("0", Ctl);
    assert IsName("tcp");
    if |c| > 1 && Str(c[..|c| - 1]) == Str(TCP) {
      StrInjective(c[..|c| - 1], TCP);
    }
    assert |c| == 2 && c[0] == "tcp" ==> c[..|c| - 1] == TCP;
  }

  /** A regular path of that route is a session file path. */
  lemma SessionFileRouteOnly(c: Path, f: SessionFile)
    requires c != [] && AllNames(c) && KindAt(c, false) == File(f)
    ensures |c| == 3 && IsNumeral(c[1]) && c == FileOf(c[1], f)
  {
    hide FullMatch, ParentPath, FileName, Str, IsNumeral;
    MatchIsRoute(File(f), Str(c), Regular);
    SessionReIff("/" + FileText(f), Str(c), "");
    var d := FullMatch(SessionRe("/" + FileText(f)), Str(c)).value[SESSION];
    SessionReIff("/" + FileText(f), Str(c), d);
    StrOfThree(d, FileText(f));
    assert "/tcp/" + d + ("/" + FileText(f)) == "/tcp/" + d + "/" + FileText(f);
    NumeralIsName(d);
    FileTextIsName(f);
    assert IsName("tcp");
    StrInjective(c, FileOf(d, f));
  }

  // ----- Creating a session -----

  /** The order in which the session hook creates its files. */
  function FileNo(i: nat): SessionFile
    requires i < 5
  {
    if i == 0 then Data else if i == 1 then Ctl else if i == 2 then Local else if i == 3 then Remote else Listen
  }

  /** session_dir_type::mknod from its i-th creation on; `fault` is where something throws. */
  function SessionHook(d: string, i: nat, fault: Option<nat>): Hook
    requires i <= 5
    decreases 5 - i
  {
    if i == 5 then Return(0)
    else if fault == Some(i) then Throw
    else
      var path := SessionFilePath(d, FileNo(i));
      Create(false, path, Some(NameOf(Route(path, Regular))), Return(0), SessionHook(d, i + 1, fault))
  }

  /** The tree with the session files from the i-th on. */
  function WithFiles(t: Shape, d: string, i: nat): Shape
    requires i <= 5
    decreases 5 - i
  {
    if i == 5 then t
    else WithFiles(t[FileOf(d, FileNo(i)) := Info(false, NameOf(File(FileNo(i))))], d, i + 1)
  }

  function WithSession(t: Shape, d: string): Shape {
    WithFiles(t[DirOf(d) := Info(true, NameOf(SessionDir))], d, 0)
  }

  predicate Faulty(fault: Option<nat>, i: nat) {
    fault.Some? && i <= fault.value < 5
  }

  lemma FilePathParts(d: string, f: SessionFile)
    requires IsNumeral(d)
    ensures FileName(SessionFilePath(d, f)) == FileText(f)
    ensures Comps(ParentPath(SessionFilePath(d, f))) == Some(DirOf(d))
    ensures FileName(SessionDirPath(d)) == d && Comps(ParentPath(SessionDirPath(d))) == Some(TCP)
  {
    hide FileName, ParentPath, Comps, Str, IsNumeral;
    SessionStrings(d, f);
    NumeralIsName(d);
    FileTextIsName(f);
    assert IsName("tcp");
    StrParts(FileOf(d, f));
    StrParts(DirOf(d));
    assert FileOf(d, f)[..2] == DirOf(d) && DirOf(d)[..1] == TCP;
  }

  lemma {:induction false} SessionHookRuns(t: Shape, d: string, i: nat, fault: Option<nat>)
    requires IsNumeral(d) && i <= 5
    requires DirOf(d) in t && t[DirOf(d)].isDir
    requires forall j :: i <= j < 5 ==> FileOf(d, FileNo(j)) !in t
    ensures HookCreatesAbsent(t, SessionHook(d, i, fault))
    ensures RunHook(t, SessionHook(d, i, fault)).ok <==> !Faulty(fault, i)
    ensures !Faulty(fault, i) ==> RunHook(t, SessionHook(d, i, fault)).t == WithFiles(t, d, i)
    decreases 5 - i
  {
    hide FileName, ParentPath, Comps, SessionFilePath, IsNumeral, Route, NameOf;
    if i < 5 && fault != Some(i) {
      var f := FileNo(i);
      var path := SessionFilePath(d, f);
      FilePathParts(d, f);
      SessionFileRoute(d, f);
      var t1 := t[FileOf(d, f) := Info(false, NameOf(File(f)))];
      assert Child(DirOf(d), FileText(f)) == FileOf(d, f);
      forall j | i + 1 <= j < 5 ensures FileOf(d, FileNo(j)) !in t1 {
        OtherFile(d, FileNo(j), f);
      }
      SessionHookRuns(t1, d, i + 1, fault);
      assert ParentDir(t, path) == Some(DirOf(d));
      assert CreateAt(t, path, false, NameOf(File(f)), Return(0)) == Outcome(t1, true);
    }
  }

  lemma OtherFile(d: string, f: SessionFile, g: SessionFile)
    requires f != g
    ensures FileOf(d, f) != FileOf(d, g)
  {
    FileTextsDiffer(f, g);
    assert FileOf(d, f)[2] == FileText(f) && FileOf(d, g)[2] == FileText(g);
  }

  lemma {:induction false} SessionHookConfined(d: string, i: nat, fault: Option<nat>)
    requires IsNumeral(d) && i <= 5
    ensures Confined(DirOf(d), SessionHook(d, i, fault))
    decreases 5 - i
  {
    hide FileName, ParentPath, Comps, SessionFilePath, IsNumeral, Route, NameOf;
    if i < 5 && fault != Some(i) {
      FilePathParts(d, FileNo(i));
      SessionHookConfined(d, i + 1, fault);
    }
  }

  /**
   Creating a session either gives the directory with all five files, or, when anything throws on the
   way, leaves the tree as it was.
   */
  lemma SessionCreation(t: Shape, d: string, fault: Option<nat>)
    requires IsNumeral(d) && PrefixClosed(t) && TCP in t && t[TCP].isDir && DirOf(d) !in t
    ensures var hook := SessionHook(d, 0, fault);
            && CreatesAbsent(t, SessionDirPath(d), true, NameOf(SessionDir), hook)
            && CreateAt(t, SessionDirPath(d), true, NameOf(SessionDir), hook)
               == (if Faulty(fault, 0) then Outcome(t, false) else Outcome(WithSession(t, d), true))
            && (!Faulty(fault, 0) ==> PrefixClosed(WithSession(t, d)))
  {
    hide FileName, ParentPath, Comps, SessionFilePath, SessionDirPath, SessionHook, WithFiles, IsNumeral, NameOf,
         RunHook, HookCreatesAbsent, Confined;
    var hook := SessionHook(d, 0, fault);
    FilePathParts(d, Ctl);
    assert Child(TCP, d) == DirOf(d);
    assert ParentDir(t, SessionDirPath(d)) == Some(TCP);
    var t1 := t[DirOf(d) := Info(true, NameOf(SessionDir))];
    AddKeepsClosed(t, TCP, d, Info(true, NameOf(SessionDir)));
    forall j: nat | j < 5 ensures FileOf(d, FileNo(j)) !in t1 {
      assert Below(DirOf(d), FileOf(d, FileNo(j)));
    }
    SessionHookRuns(t1, d, 0, fault);
    SessionHookConfined(d, 0, fault);
    CreationIsAtomic(t, SessionDirPath(d), true, NameOf(SessionDir), hook);
  }

  /** What is in the tree after a session was added. */
  lemma {:induction false} WithFilesHas(t: Shape, d: string, i: nat, p: Path)
    requires i <= 5
    ensures p in WithFiles(t, d, i) <==> p in t || exists j: nat :: i <= j < 5 && p == FileOf(d, FileNo(j))
    ensures p in t && (forall j: nat :: i <= j < 5 ==> p != FileOf(d, FileNo(j))) ==> WithFiles(t, d, i)[p] == t[p]
    ensures forall j: nat :: i <= j < 5 && p == FileOf(d, FileNo(j)) ==>
              p in WithFiles(t, d, i) && WithFiles(t, d, i)[p] == Info(false, NameOf(File(FileNo(j))))
    decreases 5 - i
  {
    hide NameOf, FileText;
    if i < 5 {
      var k := FileOf(d, FileNo(i));
      WithFilesHas(t[k := Info(false, NameOf(File(FileNo(i))))], d, i + 1, p);
      if p == k {
        forall j: nat | i < j < 5 ensures FileOf(d, FileNo(j)) != k {
          OtherFile(d, FileNo(j), FileNo(i));
        }
      }
    }
  }
}

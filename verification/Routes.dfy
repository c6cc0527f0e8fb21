/**
 Which operation type a path is routed to, and which table key a session path stands for.
 */
module Routes {
  import opened Options
  import opened Decimal
  import opened Paths
  import opened Regex
  import opened Registry

  // ----- The path expressions -----

  const SESSION := 1
  const Digits: Re := Rep(DecDigit, 1, None)

  /** "/tcp/(\d+)" followed by the given text. */
  function SessionRe(tail: string): Re {
    Cat(Lit("/tcp/"), Cat(Mark(SESSION, Digits), Lit(tail)))
  }

  /** "/\w+/(\d+)[/\w]*" */
  const DirNumRe: Re :=
    Cat(Lit("/"), Cat(Rep(WordChar, 1, None), Cat(Lit("/"), Cat(Mark(SESSION, Digits), Rep(SlashOrWord, 0, None)))))

  /** The five files of a session. */
  datatype SessionFile = Ctl | Data | Remote | Local | Listen

  function FileText(f: SessionFile): string {
    match f
    case Ctl => "ctl"
    case Data => "data"
    case Remote => "remote"
    case Local => "local"
    case Listen => "listen"
  }

  function SessionDirPath(d: string): string {
    "/tcp/" + d
  }

  function SessionFilePath(d: string, f: SessionFile): string {
    SessionDirPath(d) + "/" + FileText(f)
  }

  /** Digits, at least one. */
  predicate IsNumeral(d: string) {
    d != "" && AllDigits(d)
  }

  lemma LitStep(text: string, next: Cont, s: string, i: nat, caps: Captures)
    requires i <= |s|
    ensures Try(Then(Lit(text), next), s, i, caps)
         == if i + |text| <= |s| && s[i..i + |text|] == text then Try(next, s, i + |text|, caps) else None
  {
  }

  lemma LitAtEnd(tail: string, s: string, i: nat, caps: Captures)
    requires i <= |s|
    ensures Try(Then(Lit(tail), Done), s, i, caps) == if s[i..] == tail then Some(caps) else None
  {
    LitStep(tail, Done, s, i, caps);
    assert i + |tail| == |s| ==> s[i..] == s[i..i + |tail|];
    assert s[i..] == tail ==> i + |tail| == |s|;
  }

  /** What the session expressions match: the prefix, all the digits there are, and the tail. */
  lemma SessionReMatches(tail: string, s: string)
    requires tail == "" || !IsDigit(tail[0])
    ensures FullMatch(SessionRe(tail), s)
         == if |s| >= 5 && s[..5] == "/tcp/" then
              var n := Run(DecDigit, s, 5);
              if n > 0 && s[5 + n..] == tail then Some(map[SESSION := s[5..5 + n]]) else None
            else None
  {
    hide Try, Run;
    var rest := Cat(Mark(SESSION, Digits), Lit(tail));
    CatSteps(Lit("/tcp/"), rest, Done, s, 0, map[]);
    LitStep("/tcp/", Then(rest, Done), s, 0, map[]);
    if |s| >= 5 && s[..5] == "/tcp/" {
      assert s[0..5] == s[..5];
      CatSteps(Mark(SESSION, Digits), Lit(tail), Done, s, 5, map[]);
      DigitsThenTail(tail, s, 5);
    }
  }

  lemma DigitsThenTail(tail: string, s: string, i: nat)
    requires i <= |s| && (tail == "" || !IsDigit(tail[0]))
    ensures var n := Run(DecDigit, s, i);
            Try(Then(Mark(SESSION, Digits), Then(Lit(tail), Done)), s, i, map[])
            == if n > 0 && s[i + n..] == tail then Some(map[SESSION := s[i..i + n]]) else None
  {
    hide Try, Run;
    var n := Run(DecDigit, s, i);
    var next := Then(Lit(tail), Done);
    RunIsMaximal(DecDigit, s, i);
    forall e | i < e < i + n ensures Try(next, s, e, map[][SESSION := s[i..e]]) == None {
      LitAtEnd(tail, s, e, map[][SESSION := s[i..e]]);
      assert s[e..][0] == s[e];
    }
    MarkedRun(SESSION, DecDigit, next, s, i, map[]);
    assert map[][SESSION := s[i..i + n]] == map[SESSION := s[i..i + n]];
    LitAtEnd(tail, s, i + n, map[SESSION := s[i..i + n]]);
  }

  lemma RunGivesForm(tail: string, s: string)
    requires |s| >= 5 && s[..5] == "/tcp/" && Run(DecDigit, s, 5) > 0 && s[5 + Run(DecDigit, s, 5)..] == tail
    ensures var m := s[5..5 + Run(DecDigit, s, 5)]; s == "/tcp/" + m + tail && IsNumeral(m)
  {
    hide Run, Member;
    var n := Run(DecDigit, s, 5);
    ThreeParts(s, 5, 5 + n);
    RunIsMaximal(DecDigit, s, 5);
    DigitsMakeNumeral(s, 5, 5 + n);
  }

  lemma ThreeParts(s: string, a: nat, b: nat)
    requires a <= b <= |s|
    ensures s == s[..a] + s[a..b] + s[b..]
  {
  }

  lemma DigitsMakeNumeral(s: string, a: nat, b: nat)
    requires a < b <= |s| && forall x :: a <= x < b ==> Member(s[x], DecDigit)
    ensures IsNumeral(s[a..b])
  {
  }

  lemma SameMark(a: string, b: string)
    ensures map[SESSION := a] == map[SESSION := b] <==> a == b
  {
    assert map[SESSION := a][SESSION] == a && map[SESSION := b][SESSION] == b;
  }

  /** The session expressions match exactly the paths of their form, and capture the numeral. */
  lemma SessionReIff(tail: string, s: string, d: string)
    requires tail == "" || !IsDigit(tail[0])
    ensures FullMatch(SessionRe(tail), s) == Some(map[SESSION := d]) <==> IsNumeral(d) && s == "/tcp/" + d + tail
    ensures FullMatch(SessionRe(tail), s).Some? ==>
              SESSION in FullMatch(SessionRe(tail), s).value &&
              FullMatch(SessionRe(tail), s) == Some(map[SESSION := FullMatch(SessionRe(tail), s).value[SESSION]])
  {
    hide Run, FullMatch, IsNumeral, SessionRe;
    SessionReMatches(tail, s);
    if IsNumeral(d) && s == "/tcp/" + d + tail {
      FormGivesRun(tail, s, d);
      assert d != "" by {
        NumeralHasDigits(d);
      }
    } else if |s| >= 5 && s[..5] == "/tcp/" && Run(DecDigit, s, 5) > 0 && s[5 + Run(DecDigit, s, 5)..] == tail {
      RunGivesForm(tail, s);
      SameMark(s[5..5 + Run(DecDigit, s, 5)], d);
    }
  }

  lemma NumeralHasDigits(d: string)
    requires IsNumeral(d)
    ensures d != ""
  {
  }

  lemma FormGivesRun(tail: string, s: string, d: string)
    requires tail == "" || !IsDigit(tail[0])
    requires IsNumeral(d) && s == "/tcp/" + d + tail
    ensures |s| >= 5 && s[..5] == "/tcp/" && Run(DecDigit, s, 5) == |d|
    ensures s[5..5 + |d|] == d && s[5 + |d|..] == tail
  {
    assert forall j :: 5 <= j < 5 + |d| ==> s[j] == d[j - 5];
    RunIs(DecDigit, s, 5, |d|);
  }

  // ----- Session keys -----

  /** fd_table::dir_number: the numeral in the second component; None is the exception. */
  function DirNumber(path: string): Option<string> {
    match FullMatch(DirNumRe, path)
    case None => None
    case Some(caps) => Some(Group(caps, SESSION))
  }

  const INT_MAX: nat := 0x7fff_ffff

  /** The number a control file reads from its path; None when the lexical cast to int fails. */
  function CtlNumber(path: string): Option<nat> {
    match FullMatch(SessionRe("/ctl"), path)
    case None => None
    case Some(caps) =>
      var d := Group(caps, SESSION);
      if AllDigits(d) && Val(d) <= INT_MAX then Some(Val(d)) else None
  }

  /** The end of a run does not depend on where in it one starts. */
  lemma {:induction false} SameEnd(s: string, e: nat, k: nat)
    requires e <= k <= |s| && forall x :: e <= x < k ==> Member(s[x], SlashOrWord)
    ensures e + Run(SlashOrWord, s, e) == k + Run(SlashOrWord, s, k)
    decreases k - e
  {
    if e < k {
      SameEnd(s, e + 1, k);
    }
  }

  const RestRe: Cont := Then(Rep(SlashOrWord, 0, None), Done)
  const SessionPart: Re := Cat(Lit("/"), Cat(Mark(SESSION, Digits), Rep(SlashOrWord, 0, None)))

  lemma RestToEnd(s: string, e: nat, caps: Captures)
    requires e <= |s|
    ensures Try(RestRe, s, e, caps) == if e + Run(SlashOrWord, s, e) == |s| then Some(caps) else None
  {
    OnlyLongest(0, Run(SlashOrWord, s, e), Done, s, e, caps);
  }

  /** The digits are all taken: giving some back cannot help what follows them. */
  lemma DigitsThenRest(s: string, j: nat)
    requires j <= |s|
    ensures var k := j + Run(DecDigit, s, j);
            Try(Then(Mark(SESSION, Digits), RestRe), s, j, map[])
            == if k > j && k + Run(SlashOrWord, s, k) == |s| then Some(map[SESSION := s[j..k]]) else None
  {
    hide Try, Run, Member;
    var k := j + Run(DecDigit, s, j);
    RunIsMaximal(DecDigit, s, j);
    DigitsAreWord(s, j, k);
    var fits := k + Run(SlashOrWord, s, k) == |s|;
    forall e | j < e <= k ensures Try(RestRe, s, e, map[][SESSION := s[j..e]]).Some? == fits {
      SameEnd(s, e, k);
      RestToEnd(s, e, map[][SESSION := s[j..e]]);
    }
    RestToEnd(s, k, map[][SESSION := s[j..k]]);
    assert map[][SESSION := s[j..k]] == map[SESSION := s[j..k]];
    if fits && k > j {
      MarkedGreedySucceeds(SESSION, DecDigit, RestRe, s, j, map[]);
    } else {
      MarkedRun(SESSION, DecDigit, RestRe, s, j, map[]);
    }
  }

  lemma DigitsAreWord(s: string, j: nat, k: nat)
    requires j <= k <= |s| && forall x :: j <= x < k ==> Member(s[x], DecDigit)
    ensures forall x :: j <= x < k ==> Member(s[x], SlashOrWord)
  {
  }

  lemma SessionPartAt(s: string, i: nat)
    requires i <= |s|
    ensures Try(Then(SessionPart, Done), s, i, map[])
         == if i < |s| && s[i] == '/' then Try(Then(Mark(SESSION, Digits), RestRe), s, i + 1, map[]) else None
  {
    hide Try, Run;
    var rest := Cat(Mark(SESSION, Digits), Rep(SlashOrWord, 0, None));
    CatSteps(Lit("/"), rest, Done, s, i, map[]);
    LitStep("/", Then(rest, Done), s, i, map[]);
    assert i < |s| ==> s[i..i + 1] == [s[i]];
    if i < |s| {
      CatSteps(Mark(SESSION, Digits), Rep(SlashOrWord, 0, None), Done, s, i + 1, map[]);
    }
  }

  /** The whole first component is taken: a slash has to follow it. */
  lemma FirstComponent(s: string)
    requires s != ""
    ensures var i := 1 + Run(WordChar, s, 1);
            Try(Then(Rep(WordChar, 1, None), Then(SessionPart, Done)), s, 1, map[])
            == if i == 1 then None else Try(Then(SessionPart, Done), s, i, map[])
  {
    hide Try, TryCounts, Run;
    var n := Run(WordChar, s, 1);
    var next := Then(SessionPart, Done);
    RepSteps(WordChar, 1, next, s, 1, map[]);
    RunIsMaximal(WordChar, s, 1);
    if n == 0 {
      CountStep(1, 0, next, s, 1, map[]);
    } else {
      forall e | 1 + 1 <= e < 1 + n ensures Try(next, s, e, map[]) == None {
        SessionPartAt(s, e);
      }
      OnlyLongest(1, n, next, s, 1, map[]);
    }
  }

  /**
   dir_number on every string: a slash, a word, a slash, all the digits that follow, at least one, and then
   nothing but slashes and word characters; otherwise the exception.
   */
  lemma DirNumberLayout(s: string)
    ensures DirNumber(s)
         == if s == "" || s[0] != '/' then None
            else
              var i := 1 + Run(WordChar, s, 1);
              if i == 1 || i == |s| || s[i] != '/' then None
              else
                var k := i + 1 + Run(DecDigit, s, i + 1);
                if k > i + 1 && k + Run(SlashOrWord, s, k) == |s| then Some(s[i + 1..k]) else None
  {
    hide FullMatch, Try, Run, Member;
    DirNumberStart(s);
    if s != "" && s[0] == '/' {
      FirstComponent(s);
      var i := 1 + Run(WordChar, s, 1);
      SessionPartAt(s, i);
      if i < |s| {
        DigitsThenRest(s, i + 1);
        var k := i + 1 + Run(DecDigit, s, i + 1);
        assert map[SESSION := s[i + 1..k]][SESSION] == s[i + 1..k];
      }
    }
  }

  lemma DirNumberStart(s: string)
    ensures FullMatch(DirNumRe, s)
         == if s != "" && s[0] == '/'
            then Try(Then(Rep(WordChar, 1, None), Then(SessionPart, Done)), s, 1, map[]) else None
  {
    hide Try, Run;
    CatSteps(Lit("/"), Cat(Rep(WordChar, 1, None), SessionPart), Done, s, 0, map[]);
    LitStep("/", Then(Cat(Rep(WordChar, 1, None), SessionPart), Done), s, 0, map[]);
    assert s != "" ==> s[0..1] == [s[0]];
    if s != "" {
      CatSteps(Rep(WordChar, 1, None), SessionPart, Done, s, 1, map[]);
    }
  }

  predicate IsWord(w: string) {
    w != "" && forall i :: 0 <= i < |w| ==> Member(w[i], WordChar)
  }

  /** Of a path that is laid out so, dir_number gives the digits, whatever its first component. */
  lemma DirNumberOf(s: string, word: string, d: string, tail: string)
    requires IsWord(word) && IsNumeral(d) && s == "/" + word + "/" + d + tail
    requires tail == "" || tail[0] == '/'
    requires forall i :: 0 <= i < |tail| ==> Member(tail[i], SlashOrWord)
    ensures DirNumber(s) == Some(d)
  {
    hide Run, DirNumber;
    DirNumberLayout(s);
    WordRuns(s, word, "/" + d + tail);
    SlashFollows(s, word, d + tail);
    DigitsRun(s, "/" + word + "/", d, tail);
    TailRuns(s, "/" + word + "/" + d, tail);
  }

  lemma WordRuns(s: string, word: string, rest: string)
    requires s == "/" + word + rest && rest != "" && rest[0] == '/'
    requires forall i :: 0 <= i < |word| ==> Member(word[i], WordChar)
    ensures |s| > 0 && s[0] == '/' && Run(WordChar, s, 1) == |word|
  {
    assert forall x :: 1 <= x < 1 + |word| ==> s[x] == word[x - 1];
    RunIs(WordChar, s, 1, |word|);
  }

  lemma SlashFollows(s: string, word: string, rest: string)
    requires s == "/" + word + "/" + rest
    ensures |s| > 1 + |word| && s[1 + |word|] == '/'
  {
  }

  lemma DigitsRun(s: string, front: string, d: string, tail: string)
    requires IsNumeral(d) && s == front + d + tail && (tail == "" || tail[0] == '/')
    ensures |s| == |front| + |d| + |tail| && Run(DecDigit, s, |front|) == |d| && s[|front|..|front| + |d|] == d
  {
    assert forall x :: |front| <= x < |front| + |d| ==> s[x] == d[x - |front|];
    RunIs(DecDigit, s, |front|, |d|);
  }

  lemma TailRuns(s: string, front: string, tail: string)
    requires s == front + tail && forall i :: 0 <= i < |tail| ==> Member(tail[i], SlashOrWord)
    ensures |s| == |front| + |tail| && Run(SlashOrWord, s, |front|) == |tail|
  {
    assert forall x :: |front| <= x < |s| ==> s[x] == tail[x - |front|];
    RunIs(SlashOrWord, s, |front|, |tail|);
  }

  lemma FileTailIsPlain(f: SessionFile)
    ensures var tail := "/" + FileText(f);
            tail[0] == '/' && forall i :: 0 <= i < |tail| ==> Member(tail[i], SlashOrWord)
  {
  }

  /**
   Key agreement. The data, local, remote and listen files and the session directory use the numeral of the
   path as their table key; the control file prints the number it read from the path. The two keys are the
   same exactly when the numeral has no leading zero; beyond the range of int the control file throws.
   */
  lemma KeysAgreeIff(d: string, f: SessionFile)
    requires IsNumeral(d)
    ensures DirNumber(SessionFilePath(d, f)) == Some(d) && DirNumber(SessionDirPath(d)) == Some(d)
    ensures CtlNumber(SessionFilePath(d, Ctl)) == if Val(d) <= INT_MAX then Some(Val(d)) else None
    ensures Val(d) <= INT_MAX ==>
              var n := CtlNumber(SessionFilePath(d, Ctl)).value;
              Some(Dec(n)) == DirNumber(SessionFilePath(d, f)) <==> Canonical(d)
  {
    hide Try, Run;
    FileTailIsPlain(f);
    assert "/tcp/" == "/" + "tcp" + "/" && IsWord("tcp");
    assert SessionFilePath(d, f) == "/" + "tcp" + "/" + d + ("/" + FileText(f));
    DirNumberOf(SessionFilePath(d, f), "tcp", d, "/" + FileText(f));
    assert SessionDirPath(d) == "/" + "tcp" + "/" + d + "";
    DirNumberOf(SessionDirPath(d), "tcp", d, "");
    assert SessionFilePath(d, Ctl) == "/tcp/" + d + "/ctl";
    SessionReIff("/ctl", SessionFilePath(d, Ctl), d);
    DecOfValIff(d);
  }

  /** The failing case: "/tcp/007/ctl" reads the number 7, and its key is not that of "/tcp/007/data". */
  lemma LeadingZerosPart()
    ensures CtlNumber("/tcp/007/ctl") == Some(7) && Dec(7) == "7" && DirNumber("/tcp/007/data") == Some("007")
  {
    assert SessionFilePath("007", Ctl) == "/tcp/007/ctl" && SessionFilePath("007", Data) == "/tcp/007/data";
    assert IsNumeral("007");
    KeysAgreeIff("007", Data);
    assert "007"[..2] == "00" && "00"[..1] == "0" && "0"[..0] == "";
    assert Val("0") == 0 && Val("00") == 0 && Val("007") == 7;
  }

  /** Distinct sessions have distinct keys, and no session key is a path key. */
  lemma KeysDoNotCollide(m: nat, n: nat, path: string)
    ensures Dec(m) == Dec(n) <==> m == n
    ensures path != "" && path[0] == '/' ==> path != Dec(m)
  {
    if Dec(m) == Dec(n) {
      DecInjective(m, n);
    }
    assert IsDigit(Dec(m)[0]);
  }

  // ----- The static types -----

  datatype Kind = FileDefault | DirDefault | TcpDir | Clone | File(f: SessionFile) | SessionDir | Client | Server

  function NameOf(k: Kind): string {
    match k
    case FileDefault => "planet.file_ops_type"
    case DirDefault => "planet.dir_ops_type"
    case TcpDir => "planet.net.tcp.dir"
    case Clone => "planet.net.tcp.clone"
    case File(f) => "planet.net.tcp." + FileText(f)
    case SessionDir => "planet.net.tcp.session_dir"
    case Client => "planet.net.tcp.client"
    case Server => "planet.net.tcp.server"
  }

  predicate Matches(k: Kind, p: string, ft: FileType) {
    match k
    case FileDefault => ft == Regular
    case DirDefault => ft == Directory
    case TcpDir => ft == Directory && p == "/tcp"
    case Clone => ft == Regular && p == "/tcp/clone"
    case File(f) => ft == Regular && FullMatch(SessionRe("/" + FileText(f)), p).Some?
    case SessionDir => ft == Directory && FullMatch(SessionRe(""), p).Some?
    case Client => ft == Regular && ParentPath(p) == "/tcp" && !StarName(p)
    case Server => ft == Regular && ParentPath(p) == "/tcp" && StarName(p)
  }

  predicate StarName(p: string) {
    FileName(p) != "" && FileName(p)[0] == '*'
  }

  predicate IsDefault(k: Kind) {
    k.FileDefault? || k.DirDefault?
  }

  function RegOf(k: Kind): Reg {
    Reg(OpsType(NameOf(k), (p, ft) => Matches(k, p, ft)), if IsDefault(k) then LOW else NORMAL)
  }

  /** Where a path goes: the specific type if there is one, else the default of its kind. */
  function Route(p: string, ft: FileType): Kind {
    if ft == Directory then
      if p == "/tcp" then TcpDir
      else if FullMatch(SessionRe(""), p).Some? then SessionDir
      else DirDefault
    else if p == "/tcp/clone" then Clone
    else if Matches(File(Ctl), p, ft) then File(Ctl)
    else if Matches(File(Data), p, ft) then File(Data)
    else if Matches(File(Remote), p, ft) then File(Remote)
    else if Matches(File(Local), p, ft) then File(Local)
    else if Matches(File(Listen), p, ft) then File(Listen)
    else if ParentPath(p) == "/tcp" then if StarName(p) then Server else Client
    else FileDefault
  }

  lemma FileTextsDiffer(f: SessionFile, g: SessionFile)
    ensures FileText(f) == FileText(g) <==> f == g
  {
  }

  lemma SessionFileParent(p: string, f: SessionFile)
    requires FullMatch(SessionRe("/" + FileText(f)), p).Some?
    ensures ParentPath(p) != "/tcp" && p != "/tcp/clone"
    ensures forall g :: FullMatch(SessionRe("/" + FileText(g)), p).Some? ==> g == f
  {
    hide Run, FullMatch, ParentPath, FileName;
    SessionReIff("/" + FileText(f), p, "");
    var d := FullMatch(SessionRe("/" + FileText(f)), p).value[SESSION];
    SessionReIff("/" + FileText(f), p, d);
    assert IsName(FileText(f));
    ExtendPath("/tcp/" + d, FileText(f));
    assert p == "/tcp/" + d + "/" + FileText(f);
    assert |"/tcp/" + d| > |"/tcp"|;
    assert IsDigit(p[5]);
    forall g | FullMatch(SessionRe("/" + FileText(g)), p).Some? ensures g == f {
      SessionReMatches("/" + FileText(f), p);
      SessionReMatches("/" + FileText(g), p);
      assert "/" + FileText(f) == "/" + FileText(g);
      assert ("/" + FileText(f))[1..] == FileText(f) && ("/" + FileText(g))[1..] == FileText(g);
      FileTextsDiffer(f, g);
    }
  }

  lemma SessionDirIsNotTcp(p: string)
    requires FullMatch(SessionRe(""), p).Some?
    ensures p != "/tcp"
  {
    SessionReMatches("", p);
  }

  lemma CloneIsUnderTcp()
    ensures ParentPath("/tcp/clone") == "/tcp" && FileName("/tcp/clone") == "clone"
  {
    assert "/tcp" + "/" + "clone" == "/tcp/clone";
    ExtendPath("/tcp", "clone");
  }

  /**
   The specific types are pairwise disjoint over all paths but one: at "/tcp/clone" the client type matches as
   well as the clone type.
   */
  lemma MatchIsRoute(k: Kind, p: string, ft: FileType)
    ensures Matches(Route(p, ft), p, ft)
    ensures Matches(k, p, ft) && !IsDefault(k) ==> k == Route(p, ft) || (k == Client && Route(p, ft) == Clone)
    ensures Matches(k, p, ft) && IsDefault(k) && IsDefault(Route(p, ft)) ==> k == Route(p, ft)
  {
    hide Run, FullMatch, ParentPath, FileName;
    if ft == Directory {
      if FullMatch(SessionRe(""), p).Some? {
        SessionDirIsNotTcp(p);
      }
    } else {
      if p == "/tcp/clone" {
        CloneIsUnderTcp();
      }
      forall f: SessionFile | Matches(File(f), p, ft)
        ensures Route(p, ft) == File(f) && ParentPath(p) != "/tcp" && p != "/tcp/clone"
      {
        SessionFileParent(p, f);
      }
    }
  }

  /** Every static type is registered, and no other type claims the path. */
  ghost predicate StaticTypesRegistered(s: seq<Reg>, p: string, ft: FileType) {
    && (forall k :: RegOf(k) in s)
    && (forall i :: 0 <= i < |s| && s[i].ops.matches(p, ft) ==> exists k :: s[i] == RegOf(k))
  }

  /** Clone was registered before any client. */
  ghost predicate CloneFirst(s: seq<Reg>) {
    forall j :: 0 <= j < |s| && s[j] == RegOf(Client) ==> exists i :: 0 <= i < j && s[i] == RegOf(Clone)
  }

  /**
   Routing is total, and independent of the order of registration except at "/tcp/clone", where it is that of
   Route exactly when clone was registered before client.
   */
  lemma RoutingIsSettledIff(s: seq<Reg>, p: string, ft: FileType)
    requires StaticTypesRegistered(s, p, ft)
    ensures FirstMatch(StableSort(s), p, ft) == Some(RegOf(Route(p, ft))) <==> (Route(p, ft) == Clone ==> CloneFirst(s))
    ensures Route(p, ft) == Clone && !CloneFirst(s) ==> FirstMatch(StableSort(s), p, ft) == Some(RegOf(Client))
  {
    hide Matches, Route, NameOf, FirstMatch, StableSort, CloneFirst, StaticTypesRegistered;
    var k := Route(p, ft);
    var i, best := BestIsStatic(s, p, ft);
    MatchIsRoute(k, p, ft);
    MatchIsRoute(best, p, ft);
    ClientIsNotClone();
    DefaultYields(s, p, ft, i, best);
    if k == Clone {
      CloneIsAtItsPath(p, ft);
      ClientWins(s, p, ft, i);
      CloneWins(s, p, ft, i);
    }
  }

  /** What is dispatched to is a static type that matches, the best of them. */
  lemma BestIsStatic(s: seq<Reg>, p: string, ft: FileType) returns (i: nat, best: Kind)
    requires StaticTypesRegistered(s, p, ft)
    ensures i < |s| && IsBest(s, p, ft, i) && s[i] == RegOf(best) && Matches(best, p, ft)
    ensures FirstMatch(StableSort(s), p, ft) == Some(s[i])
  {
    hide Matches, Route, NameOf, FirstMatch, StableSort;
    var k := Route(p, ft);
    MatchIsRoute(k, p, ft);
    DispatchPicksBest(s, p, ft);
    assert RegOf(k) in s;
    var n :| 0 <= n < |s| && s[n] == RegOf(k);
    assert s[n].ops.matches(p, ft);
    i :| 0 <= i < |s| && IsBest(s, p, ft, i) && Some(s[i]) == FirstMatch(StableSort(s), p, ft);
    best :| s[i] == RegOf(best);
    assert s[i].ops.matches(p, ft);
  }

  /** A default is dispatched to only where no specific type matches. */
  lemma DefaultYields(s: seq<Reg>, p: string, ft: FileType, i: nat, best: Kind)
    requires StaticTypesRegistered(s, p, ft) && i < |s| && IsBest(s, p, ft, i) && s[i] == RegOf(best)
    ensures IsDefault(best) ==> IsDefault(Route(p, ft))
  {
    hide Matches, Route, NameOf;
    var k := Route(p, ft);
    MatchIsRoute(k, p, ft);
    assert RegOf(k) in s;
    var n :| 0 <= n < |s| && s[n] == RegOf(k);
    assert s[n].ops.matches(p, ft);
  }

  lemma CloneIsAtItsPath(p: string, ft: FileType)
    requires Route(p, ft) == Clone
    ensures Matches(Client, p, ft) && Matches(Clone, p, ft)
  {
    CloneIsUnderTcp();
  }

  lemma ClientWins(s: seq<Reg>, p: string, ft: FileType, i: nat)
    requires i < |s| && IsBest(s, p, ft, i) && Matches(Client, p, ft) && Matches(Clone, p, ft)
    ensures s[i] == RegOf(Clone) ==> CloneFirst(s)
  {
    hide Matches, NameOf;
    if s[i] == RegOf(Clone) {
      forall j | 0 <= j < |s| && s[j] == RegOf(Client) ensures i < j {
        ClientIsNotClone();
        assert s[j].ops.matches(p, ft);
      }
    }
  }

  lemma CloneWins(s: seq<Reg>, p: string, ft: FileType, i: nat)
    requires i < |s| && IsBest(s, p, ft, i) && Matches(Client, p, ft) && Matches(Clone, p, ft)
    ensures s[i] == RegOf(Client) ==> !CloneFirst(s)
  {
    hide Matches, NameOf;
    if s[i] == RegOf(Client) {
      ClientIsNotClone();
      assert RegOf(Clone).ops.matches(p, ft);
      forall n | 0 <= n < i ensures s[n] != RegOf(Clone) {
      }
    }
  }

  /** With client registered first, "/tcp/clone" goes to the client type, and every other path as before. */
  lemma ClientFirstTakesClone()
    ensures var s := Regs([FileDefault, DirDefault, Client, TcpDir, Clone, File(Ctl), File(Data), File(Remote),
                           File(Local), File(Listen), SessionDir, Server]);
            && FirstMatch(StableSort(s), "/tcp/clone", Regular) == Some(RegOf(Client))
            && forall p, ft :: Route(p, ft) != Clone ==> FirstMatch(StableSort(s), p, ft) == Some(RegOf(Route(p, ft)))
  {
    hide Matches, Route, NameOf, FirstMatch, StableSort, Regs, RegOf;
    var ks := [FileDefault, DirDefault, Client, TcpDir, Clone, File(Ctl), File(Data), File(Remote), File(Local),
               File(Listen), SessionDir, Server];
    var s := Regs(ks);
    RegsAt(ks);
    forall k ensures RegOf(k) in s {
      var i := ClientFirstIndex(k);
      assert ks[i] == k && s[i] == RegOf(ks[i]);
    }
    forall p, ft ensures StaticTypesRegistered(s, p, ft) {
      assert forall i :: 0 <= i < |s| ==> s[i] == RegOf(ks[i]);
    }
    forall p, ft | Route(p, ft) != Clone ensures FirstMatch(StableSort(s), p, ft) == Some(RegOf(Route(p, ft))) {
      RoutingIsSettledIff(s, p, ft);
    }
    NotCloneFirst(s, ks);
    ClonePathRoute();
    RoutingIsSettledIff(s, "/tcp/clone", Regular);
  }

  function ClientFirstIndex(k: Kind): (i: nat)
    ensures i < 12
  {
    match k
    case FileDefault => 0
    case DirDefault => 1
    case Client => 2
    case TcpDir => 3
    case Clone => 4
    case File(Ctl) => 5
    case File(Data) => 6
    case File(Remote) => 7
    case File(Local) => 8
    case File(Listen) => 9
    case SessionDir => 10
    case Server => 11
  }

  lemma NotCloneFirst(s: seq<Reg>, ks: seq<Kind>)
    requires |s| == |ks| && |ks| > 2 && ks[2] == Client && ks[0] == FileDefault && ks[1] == DirDefault
    requires forall i :: 0 <= i < |s| ==> s[i] == RegOf(ks[i])
    ensures !CloneFirst(s)
  {
    hide Matches, NameOf;
    NamesDiffer(FileDefault, Clone);
    NamesDiffer(DirDefault, Clone);
    assert s[2] == RegOf(Client) && s[0] == RegOf(FileDefault) && s[1] == RegOf(DirDefault);
    assert forall i :: 0 <= i < 2 ==> s[i] != RegOf(Clone);
  }

  lemma ClonePathRoute()
    ensures Route("/tcp/clone", Regular) == Clone
  {
  }

  lemma ClientIsNotClone()
    ensures RegOf(Client) != RegOf(Clone)
  {
    assert |NameOf(Client)| == |NameOf(Clone)| + 1;
  }

  // ----- The installation the program performs -----

  /** The TCP installer itself matches nothing. */
  function InstallerReg(): Reg {
    Reg(OpsType("planet.net.tcp.installer", (p, ft) => false), LOW)
  }

  function Leaf(k: Kind): Package {
    Package(RegOf(k), [], false)
  }

  /** The ten nested types, in the order of installation. */
  const TcpKinds: seq<Kind> :=
    [TcpDir, Clone, File(Ctl), File(Data), File(Remote), File(Local), File(Listen), SessionDir, Client, Server]

  function Leaves(ks: seq<Kind>): seq<Package> {
    if ks == [] then [] else [Leaf(ks[0])] + Leaves(ks[1..])
  }

  function Regs(ks: seq<Kind>): seq<Reg> {
    if ks == [] then [] else [RegOf(ks[0])] + Regs(ks[1..])
  }

  function TcpPackage(): Package {
    Package(InstallerReg(), Leaves(TcpKinds), false)
  }

  lemma {:induction false} LeavesFlat(ks: seq<Kind>)
    ensures FlatAll(Leaves(ks)) == Regs(ks) && AllSucceed(Leaves(ks))
  {
    if ks != [] {
      LeavesFlat(ks[1..]);
      assert Leaves(ks)[1..] == Leaves(ks[1..]);
      assert Flat(Leaf(ks[0])) == [RegOf(ks[0])];
    }
  }

  lemma {:induction false} RegsAt(ks: seq<Kind>)
    ensures |Regs(ks)| == |ks| && forall i :: 0 <= i < |ks| ==> Regs(ks)[i] == RegOf(ks[i])
  {
    if ks != [] {
      RegsAt(ks[1..]);
    }
  }

  /** Type names tell the types apart. */
  lemma NamesDiffer(k: Kind, l: Kind)
    ensures NameOf(k) == NameOf(l) ==> k == l
    ensures NameOf(k) != "planet.net.tcp.installer"
  {
    var n, m := NameOf(k), NameOf(l);
    if n == m {
      assert n[7] == m[7] && n[15] == m[15];
      if k.File? {
        assert n[15..] == FileText(k.f);
      }
      if l.File? {
        assert m[15..] == FileText(l.f);
      }
    }
  }

  lemma TcpFlat()
    ensures Flat(TcpPackage()) == [InstallerReg()] + Regs(TcpKinds)
    ensures Succeeds(TcpPackage()) && UniqueNames(Flat(TcpPackage()))
  {
    LeavesFlat(TcpKinds);
    RegsAt(TcpKinds);
    var all := [InstallerReg()] + Regs(TcpKinds);
    hide NameOf, Regs, Leaves, Flat, FlatAll;
    forall i, j | 0 <= i < j < |all| ensures all[i].ops.name != all[j].ops.name {
      if i > 0 {
        NamesDiffer(TcpKinds[i - 1], TcpKinds[j - 1]);
      } else {
        NamesDiffer(TcpKinds[j - 1], Clone);
      }
    }
    assert FlatAll(TcpPackage().nested) == Regs(TcpKinds);
    FlatUnfold(TcpPackage());
  }

  lemma FlatUnfold(p: Package)
    ensures Flat(p) == [p.reg] + FlatAll(p.nested)
  {
  }

  /** Installing and uninstalling the TCP types restores any registry that did not hold their names. */
  lemma TcpRoundTrip(t: seq<Reg>)
    requires Sorted(t) && Apart(t, Flat(TcpPackage()))
    ensures Install(t, TcpPackage()).ok
    ensures Uninstall(Install(t, TcpPackage()).types, TcpPackage()) == Uninstalled(t, false)
  {
    TcpFlat();
    InstallRoundTrip(t, TcpPackage());
  }

  /**
   After the TCP types are installed over any registrations that include the two defaults, every path that no
   other type claims is routed by Route.
   */
  lemma TcpInstallRoutes(s: seq<Reg>, p: string, ft: FileType)
    requires Apart(StableSort(s), Flat(TcpPackage()))
    requires RegOf(FileDefault) in s && RegOf(DirDefault) in s
    requires forall i :: 0 <= i < |s| && s[i].ops.matches(p, ft) ==>
        s[i] == RegOf(FileDefault) || s[i] == RegOf(DirDefault)
    requires forall i :: 0 <= i < |s| ==> s[i] != RegOf(Client)
    ensures FirstMatch(Install(StableSort(s), TcpPackage()).types, p, ft) == Some(RegOf(Route(p, ft)))
  {
    hide Flat, FlatAll, Regs, Leaves, StableSort, InsertEach, NameOf, Matches, Route, FirstMatch, Install, TcpPackage;
    TcpFlat();
    StableSortIsStable(s);
    InstallEffect(StableSort(s), TcpPackage());
    var added := Flat(TcpPackage());
    InsertEachIsSort(s, added);
    TcpKindsRegistered(s, added, p, ft);
    RoutingIsSettledIff(s + added, p, ft);
  }

  function KindIndex(k: Kind): (i: nat)
    requires !IsDefault(k)
    ensures i < 10 && TcpKinds[i] == k
  {
    match k
    case TcpDir => 0
    case Clone => 1
    case File(Ctl) => 2
    case File(Data) => 3
    case File(Remote) => 4
    case File(Local) => 5
    case File(Listen) => 6
    case SessionDir => 7
    case Client => 8
    case Server => 9
  }

  ghost predicate TcpList(added: seq<Reg>) {
    |added| == 11 && added[0] == InstallerReg() && forall i :: 0 <= i < 10 ==> added[1 + i] == RegOf(TcpKinds[i])
  }

  lemma TcpListIs(added: seq<Reg>)
    requires added == [InstallerReg()] + Regs(TcpKinds)
    ensures TcpList(added)
  {
    hide Regs, RegOf, InstallerReg;
    RegsAt(TcpKinds);
    assert forall i :: 0 <= i < 10 ==> added[1 + i] == Regs(TcpKinds)[i];
  }

  lemma TcpListHolds(added: seq<Reg>, k: Kind)
    requires TcpList(added)
    ensures |added| == 11 && added[0] == InstallerReg()
    ensures !IsDefault(k) ==> added[1 + KindIndex(k)] == RegOf(k)
    ensures forall i :: 0 <= i < 11 && added[i] == RegOf(Client) ==> i == 9
    ensures forall i :: 0 < i < 11 ==> exists l :: added[i] == RegOf(l)
  {
    hide NameOf, Matches;
    forall i | 0 <= i < 11 && added[i] == RegOf(Client) ensures i == 9 {
      NamesDiffer(Client, Client);
      if i > 0 {
        NamesDiffer(TcpKinds[i - 1], Client);
        assert added[1 + (i - 1)] == RegOf(TcpKinds[i - 1]);
      }
    }
    forall i | 0 < i < 11 ensures exists l :: added[i] == RegOf(l) {
      assert added[1 + (i - 1)] == RegOf(TcpKinds[i - 1]);
    }
  }

  lemma EveryKindIsRegistered(s: seq<Reg>, added: seq<Reg>, k: Kind)
    requires TcpList(added) && RegOf(FileDefault) in s && RegOf(DirDefault) in s
    ensures RegOf(k) in s + added
  {
    hide NameOf, Matches, RegOf, InstallerReg, TcpList;
    if !IsDefault(k) {
      TcpListHolds(added, k);
      assert (s + added)[|s| + (1 + KindIndex(k))] == RegOf(k);
    }
  }

  lemma ClaimsAreStatic(s: seq<Reg>, added: seq<Reg>, p: string, ft: FileType, i: nat)
    requires TcpList(added) && i < |s + added| && (s + added)[i].ops.matches(p, ft)
    requires forall i :: 0 <= i < |s| && s[i].ops.matches(p, ft) ==>
        s[i] == RegOf(FileDefault) || s[i] == RegOf(DirDefault)
    ensures exists k :: (s + added)[i] == RegOf(k)
  {
    hide NameOf, Matches, RegOf, InstallerReg, TcpList;
    InstallerClaimsNothing(p, ft);
    TcpListHolds(added, Clone);
    if i >= |s| {
      assert (s + added)[i] == added[i - |s|];
    }
  }

  lemma CloneComesFirst(s: seq<Reg>, added: seq<Reg>, j: nat)
    requires TcpList(added) && j < |s + added| && (s + added)[j] == RegOf(Client)
    requires forall i :: 0 <= i < |s| ==> s[i] != RegOf(Client)
    ensures exists i :: 0 <= i < j && (s + added)[i] == RegOf(Clone)
  {
    hide NameOf, Matches, RegOf, InstallerReg, TcpList;
    TcpListHolds(added, Clone);
    assert j >= |s| ==> (s + added)[j] == added[j - |s|];
    assert (s + added)[|s| + 2] == added[2] == RegOf(Clone);
  }

  lemma TcpKindsRegistered(s: seq<Reg>, added: seq<Reg>, p: string, ft: FileType)
    requires added == [InstallerReg()] + Regs(TcpKinds)
    requires RegOf(FileDefault) in s && RegOf(DirDefault) in s
    requires forall i :: 0 <= i < |s| && s[i].ops.matches(p, ft) ==>
        s[i] == RegOf(FileDefault) || s[i] == RegOf(DirDefault)
    requires forall i :: 0 <= i < |s| ==> s[i] != RegOf(Client)
    ensures StaticTypesRegistered(s + added, p, ft) && CloneFirst(s + added)
  {
    hide Regs, NameOf, Matches, RegOf, InstallerReg, TcpList;
    TcpListIs(added);
    var all := s + added;
    forall k ensures RegOf(k) in all {
      EveryKindIsRegistered(s, added, k);
    }
    forall i | 0 <= i < |all| && all[i].ops.matches(p, ft) ensures exists k :: all[i] == RegOf(k) {
      ClaimsAreStatic(s, added, p, ft, i);
    }
    forall j | 0 <= j < |all| && all[j] == RegOf(Client) ensures exists i :: 0 <= i < j && all[i] == RegOf(Clone) {
      CloneComesFirst(s, added, j);
    }
  }

  lemma InstallerClaimsNothing(p: string, ft: FileType)
    ensures !InstallerReg().ops.matches(p, ft)
  {
  }
}

/** Absolute path strings, their components, and the parent and file name of a path. */
module Paths {
  import opened Options
  import opened Strings

  type Path = seq<string>

  /** The components of an absolute path; None for the strings a lookup refuses (empty or relative). */
  function Comps(p: string): Option<Path> {
    if p == "" || p[0] != '/' then None
    else if p == "/" then Some([])
    else Some(Split(p[1..], '/'))
  }

  function Str(c: Path): string {
    "/" + Join(c, '/')
  }

  /** A name that can occur between slashes. */
  predicate IsName(n: string) {
    n != "" && Lacks(n, '/')
  }

  ghost predicate AllNames(c: Path) {
    forall i :: 0 <= i < |c| ==> IsName(c[i])
  }

  /** The paths the kernel hands over: absolute, below the root, no empty component. */
  ghost predicate Plain(p: string) {
    Comps(p).Some? && Comps(p).value != [] && AllNames(Comps(p).value)
  }

  /** The index just after the last slash, or 0. */
  function NameStart(p: string): (i: nat)
    ensures i <= |p|
    ensures i > 0 ==> p[i - 1] == '/'
    ensures forall j :: i <= j < |p| ==> p[j] != '/'
  {
    if p == "" then 0
    else if p[|p| - 1] == '/' then |p|
    else NameStart(p[..|p| - 1])
  }

  function StripSlashes(p: string): (q: string)
    ensures q <= p
    ensures q != "" ==> q[|q| - 1] != '/'
  {
    if p != "" && p[|p| - 1] == '/' then StripSlashes(p[..|p| - 1]) else p
  }

  /** The last component; a trailing slash names the directory itself. */
  function FileName(p: string): string {
    if p != "" && StripSlashes(p) == "" then "/"
    else if NameStart(p) == |p| && p != "" then "."
    else p[NameStart(p)..]
  }

  function ParentPath(p: string): string {
    var i := NameStart(p);
    var q := StripSlashes(p[..i]);
    if q != "" || i == 0 || StripSlashes(p) == "" then q else "/"
  }

  lemma PlainIsStr(p: string)
    requires Plain(p)
    ensures p == Str(Comps(p).value)
  {
    JoinOfSplit(p[1..], '/');
    assert p == ['/'] + p[1..];
  }

  /** Splitting a slash-join gives the names back. */
  lemma CompsOfStr(c: Path)
    requires c != [] && AllNames(c)
    ensures Comps(Str(c)) == Some(c)
    ensures Plain(Str(c))
  {
    SplitOfJoin(c, '/');
    var s := Str(c);
    assert s[1..] == Join(c, '/');
    JoinNonempty(c);
  }

  lemma JoinNonempty(c: Path)
    requires c != [] && AllNames(c)
    ensures Join(c, '/') != ""
    ensures Join(c, '/')[|Join(c, '/')| - 1] != '/'
  {
    if |c| > 1 {
      JoinNonempty(c[1..]);
    } else {
      assert IsName(c[0]);
    }
  }

  /** Appending "/name" to a path with a final name adds one component and names that path as its parent. */
  lemma ExtendPath(p: string, name: string)
    requires IsName(name)
    requires p == "" || p[|p| - 1] != '/'
    ensures FileName(p + "/" + name) == name
    ensures ParentPath(p + "/" + name) == if p == "" then "/" else p
  {
    var s := p + "/" + name;
    NameStartIs(s, |p| + 1);
    assert s[|p| + 1..] == name;
    StripKeeps(s);
    assert s[..|p| + 1] == p + "/";
    assert (p + "/")[..|p|] == p;
    StripKeeps(p);
  }

  lemma StripKeeps(p: string)
    requires p == "" || p[|p| - 1] != '/'
    ensures StripSlashes(p) == p
  {
  }

  lemma {:induction false} NameStartIs(p: string, i: nat)
    requires i <= |p|
    requires i > 0 ==> p[i - 1] == '/'
    requires forall j :: i <= j < |p| ==> p[j] != '/'
    ensures NameStart(p) == i
  {
  }

  /** The file name of a plain path is its last component, and its parent path names the others. */
  lemma PlainParts(p: string)
    requires Plain(p)
    ensures var c := Comps(p).value;
            && FileName(p) == c[|c| - 1]
            && ParentPath(p) == (if |c| == 1 then "/" else Str(c[..|c| - 1]))
            && Comps(ParentPath(p)) == Some(c[..|c| - 1])
  {
    hide FileName, ParentPath, Comps, Str;
    PlainIsStr(p);
    StrParts(Comps(p).value);
  }

  lemma StrParts(c: Path)
    requires c != [] && AllNames(c)
    ensures FileName(Str(c)) == c[|c| - 1]
    ensures ParentPath(Str(c)) == (if |c| == 1 then "/" else Str(c[..|c| - 1]))
    ensures Comps(ParentPath(Str(c))) == Some(c[..|c| - 1])
  {
    hide FileName, ParentPath, Comps;
    var front, last := c[..|c| - 1], c[|c| - 1];
    assert c == front + [last];
    assert IsName(last);
    JoinSnoc(front, last, '/');
    if |c| == 1 {
      assert Str(c) == "" + "/" + last;
      ExtendPath("", last);
      CompsOfRoot();
      assert front == [];
    } else {
      JoinNonempty(front);
      assert Str(c) == Str(front) + "/" + last;
      ExtendPath(Str(front), last);
      CompsOfStr(front);
    }
  }

  lemma CompsOfRoot()
    ensures Comps("/") == Some([])
  {
  }
}

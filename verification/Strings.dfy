/** Cutting strings at a separator character and gluing them back. */
module Strings {

  /** Character c does not occur in s. */
  predicate Lacks(s: string, c: char) {
    forall i :: 0 <= i < |s| ==> s[i] != c
  }

  /** The first index at or after `from` that holds c, or |s|. */
  function Find(s: string, c: char, from: nat): (i: nat)
    requires from <= |s|
    ensures from <= i <= |s|
    ensures i < |s| ==> s[i] == c
    ensures forall j :: from <= j < i ==> s[j] != c
    decreases |s| - from
  {
    if from == |s| || s[from] == c then from else Find(s, c, from + 1)
  }

  /** The pieces between separators; there is always at least one. */
  function Split(s: string, c: char): (parts: seq<string>)
    ensures parts != []
    decreases |s|
  {
    var i := Find(s, c, 0);
    if i == |s| then [s] else [s[..i]] + Split(s[i + 1..], c)
  }

  function Join(parts: seq<string>, c: char): string {
    if parts == [] then ""
    else if |parts| == 1 then parts[0]
    else parts[0] + [c] + Join(parts[1..], c)
  }

  lemma SplitUnfolds(s: string, c: char)
    ensures var i := Find(s, c, 0);
            Split(s, c) == if i == |s| then [s] else [s[..i]] + Split(s[i + 1..], c)
  {
    hide Find;
  }

  ghost predicate AllLack(parts: seq<string>, c: char) {
    forall i :: 0 <= i < |parts| ==> Lacks(parts[i], c)
  }

  /** Find is the only index with its properties. */
  lemma FindIs(s: string, c: char, from: nat, i: nat)
    requires from <= i <= |s|
    requires forall j :: from <= j < i ==> s[j] != c
    requires i < |s| ==> s[i] == c
    ensures Find(s, c, from) == i
  {
  }

  lemma FindInSuffix(s: string, c: char, pos: nat)
    requires pos <= |s|
    ensures Find(s[pos..], c, 0) == Find(s, c, pos) - pos
  {
    FindIs(s[pos..], c, 0, Find(s, c, pos) - pos);
  }

  /** Splitting peels off a first piece that lacks the separator. */
  lemma SplitCons(first: string, rest: string, c: char)
    requires Lacks(first, c)
    ensures Split(first, c) == [first]
    ensures Split(first + [c] + rest, c) == [first] + Split(rest, c)
  {
    FindIs(first, c, 0, |first|);
    var s := first + [c] + rest;
    FindIs(s, c, 0, |first|);
    assert s[..|first|] == first && s[|first| + 1..] == rest;
  }

  lemma {:induction false} SplitOfJoin(parts: seq<string>, c: char)
    requires parts != [] && AllLack(parts, c)
    ensures Split(Join(parts, c), c) == parts
  {
    if |parts| == 1 {
      SplitCons(parts[0], "", c);
    } else {
      SplitOfJoin(parts[1..], c);
      SplitCons(parts[0], Join(parts[1..], c), c);
    }
  }

  lemma {:induction false} JoinOfSplit(s: string, c: char)
    ensures Join(Split(s, c), c) == s && AllLack(Split(s, c), c)
    decreases |s|
  {
    var i := Find(s, c, 0);
    if i < |s| {
      JoinOfSplit(s[i + 1..], c);
      assert s == s[..i] + [c] + s[i + 1..];
    }
  }

  lemma {:induction false} JoinSnoc(parts: seq<string>, last: string, c: char)
    ensures Join(parts + [last], c) == if parts == [] then last else Join(parts, c) + [c] + last
  {
    if |parts| > 1 {
      assert (parts + [last])[1..] == parts[1..] + [last];
      JoinSnoc(parts[1..], last, c);
    } else if |parts| == 1 {
      assert (parts + [last])[1..] == [last];
    }
  }
}

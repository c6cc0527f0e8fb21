/**
 A backtracking matcher for the regular expressions the program compiles: literals,
 bounded and unbounded greedy repetition of a character class, concatenation, ordered
 choice and numbered marks. The matcher explores alternatives in the order a
 Perl-style engine does, so the captures it returns are those of the first success.
 */
module Regex {
  import opened Decimal
  import opened Options

  /** The character classes the program's expressions use. */
  datatype CharClass =
    | CommandChar   // letters, digits, underscore, full stop
    | Blank         // space, tab
    | Newline
    | NotNewline
    | DecDigit
    | WordChar      // letters, digits, underscore
    | SlashOrWord
    | AnyChar

  predicate IsLetter(c: char) {
    'a' <= c <= 'z' || 'A' <= c <= 'Z'
  }

  predicate IsWordChar(c: char) {
    IsLetter(c) || IsDigit(c) || c == '_'
  }

  predicate Member(c: char, cls: CharClass) {
    match cls
    case CommandChar => IsWordChar(c) || c == '.'
    case Blank => c == ' ' || c == '\t'
    case Newline => c == '\n'
    case NotNewline => c != '\n'
    case DecDigit => IsDigit(c)
    case WordChar => IsWordChar(c)
    case SlashOrWord => IsWordChar(c) || c == '/'
    case AnyChar => true
  }

  datatype Re =
    | Lit(text: string)
    | Rep(cls: CharClass, min: nat, max: Option<nat>)
    | Cat(left: Re, right: Re)
    | Alt(first: Re, second: Re)
    | Mark(id: nat, body: Re)
  {
    function Size(): nat {
      match this
      case Lit(_) => 1
      case Rep(_, _, _) => 1
      case Cat(a, b) => 1 + a.Size() + b.Size()
      case Alt(a, b) => 1 + a.Size() + b.Size()
      case Mark(_, r) => 2 + r.Size()
    }
  }

  /** What remains to be matched. */
  datatype Cont = Done | Then(re: Re, next: Cont) | Close(id: nat, start: nat, next: Cont) {
    function Size(): nat {
      match this
      case Done => 0
      case Then(r, k) => r.Size() + k.Size()
      case Close(_, _, k) => 1 + k.Size()
    }
  }

  type Captures = map<nat, string>

  /** The text a mark captured; an unset mark converts to the empty string. */
  function Group(caps: Captures, id: nat): string {
    if id in caps then caps[id] else ""
  }

  /** The length of the longest run of class members that starts at i. */
  function Run(cls: CharClass, s: string, i: nat): (n: nat)
    requires i <= |s|
    ensures i + n <= |s|
    decreases |s| - i
  {
    if i < |s| && Member(s[i], cls) then 1 + Run(cls, s, i + 1) else 0
  }

  lemma {:induction false} RunIsMaximal(cls: CharClass, s: string, i: nat)
    requires i <= |s|
    ensures var n := Run(cls, s, i);
            && (forall j :: i <= j < i + n ==> Member(s[j], cls))
            && (i + n < |s| ==> !Member(s[i + n], cls))
    decreases |s| - i
  {
    if i < |s| && Member(s[i], cls) {
      RunIsMaximal(cls, s, i + 1);
    }
  }

  lemma {:induction false} RunIs(cls: CharClass, s: string, i: nat, n: nat)
    requires i + n <= |s|
    requires forall j :: i <= j < i + n ==> Member(s[j], cls)
    requires i + n < |s| ==> !Member(s[i + n], cls)
    ensures Run(cls, s, i) == n
    decreases n
  {
    if n > 0 {
      RunIs(cls, s, i + 1, n - 1);
    }
  }

  function Cap(n: nat, max: Option<nat>): (r: nat)
    ensures r <= n
  {
    if max.Some? && max.value < n then max.value else n
  }

  /** Matches all of s[i..] against k, trying alternatives in priority order. */
  function Try(k: Cont, s: string, i: nat, caps: Captures): Option<Captures>
    requires i <= |s|
    decreases k.Size(), 0
  {
    match k
    case Done => if i == |s| then Some(caps) else None
    case Close(id, start, next) =>
      Try(next, s, i, if start <= i then caps[id := s[start..i]] else caps)
    case Then(r, next) =>
      match r
      case Lit(text) =>
        if i + |text| <= |s| && s[i..i + |text|] == text then Try(next, s, i + |text|, caps) else None
      case Rep(cls, min, max) =>
        TryCounts(min, Cap(Run(cls, s, i), max), next, s, i, caps)
      case Cat(a, b) =>
        assert Then(b, next).Size() == b.Size() + next.Size();
        Try(Then(a, Then(b, next)), s, i, caps)
      case Alt(a, b) =>
        var r := Try(Then(a, next), s, i, caps);
        if r.Some? then r else Try(Then(b, next), s, i, caps)
      case Mark(id, body) =>
        assert Close(id, i, next).Size() == 1 + next.Size();
        Try(Then(body, Close(id, i, next)), s, i, caps)
  }

  /** Greedy repetition: the longest count first, giving characters back one at a time. */
  function TryCounts(min: nat, n: nat, next: Cont, s: string, i: nat, caps: Captures): Option<Captures>
    requires i + n <= |s|
    decreases next.Size(), 1 + n
  {
    if n < min then None
    else
      var r := Try(next, s, i + n, caps);
      if r.Some? || n == 0 then r else TryCounts(min, n - 1, next, s, i, caps)
  }

  /** A match of the whole string. */
  function FullMatch(r: Re, s: string): Option<Captures> {
    Try(Then(r, Done), s, 0, map[])
  }

  /** When giving characters back cannot help, only the longest count matters. */
  lemma {:induction false} OnlyLongest(min: nat, n: nat, next: Cont, s: string, i: nat, caps: Captures)
    requires i + n <= |s| && min <= n
    requires forall e :: i + min <= e < i + n ==> Try(next, s, e, caps) == None
    ensures TryCounts(min, n, next, s, i, caps) == Try(next, s, i + n, caps)
  {
    if min < n {
      AllFail(min, n - 1, next, s, i, caps);
    }
  }

  lemma {:induction false} AllFail(min: nat, n: nat, next: Cont, s: string, i: nat, caps: Captures)
    requires i + n <= |s|
    requires forall e :: i + min <= e <= i + n ==> Try(next, s, e, caps) == None
    ensures TryCounts(min, n, next, s, i, caps) == None
  {
    if min <= n && n > 0 {
      assert Try(next, s, i + n, caps) == None;
      AllFail(min, n - 1, next, s, i, caps);
    }
  }

  /** A marked run of one or more class members takes the whole run, when giving characters back cannot help. */
  lemma MarkedRun(id: nat, cls: CharClass, next: Cont, s: string, i: nat, caps: Captures)
    requires i <= |s|
    requires forall e :: i < e < i + Run(cls, s, i) ==> Try(next, s, e, caps[id := s[i..e]]) == None
    ensures var n := Run(cls, s, i);
            Try(Then(Mark(id, Rep(cls, 1, None)), next), s, i, caps)
            == if n == 0 then None else Try(next, s, i + n, caps[id := s[i..i + n]])
  {
    var n := Run(cls, s, i);
    var close := Close(id, i, next);
    assert Try(Then(Mark(id, Rep(cls, 1, None)), next), s, i, caps)
        == Try(Then(Rep(cls, 1, None), close), s, i, caps);
    assert Try(Then(Rep(cls, 1, None), close), s, i, caps) == TryCounts(1, n, close, s, i, caps);
    if n > 0 {
      forall e | i + 1 <= e < i + n ensures Try(close, s, e, caps) == None {
        assert Try(close, s, e, caps) == Try(next, s, e, caps[id := s[i..e]]);
      }
      OnlyLongest(1, n, close, s, i, caps);
    }
  }

  lemma RepSteps(cls: CharClass, min: nat, next: Cont, s: string, i: nat, caps: Captures)
    requires i <= |s|
    ensures Try(Then(Rep(cls, min, None), next), s, i, caps) == TryCounts(min, Run(cls, s, i), next, s, i, caps)
  {
  }

  lemma CountStep(min: nat, n: nat, next: Cont, s: string, i: nat, caps: Captures)
    requires i + n <= |s|
    ensures n < min ==> TryCounts(min, n, next, s, i, caps) == None
    ensures n >= min ==>
              var r := Try(next, s, i + n, caps);
              TryCounts(min, n, next, s, i, caps)
              == if r.Some? || n == 0 then r else TryCounts(min, n - 1, next, s, i, caps)
  {
  }

  /** Concatenation runs its parts in order. */
  lemma CatSteps(a: Re, b: Re, next: Cont, s: string, i: nat, caps: Captures)
    requires i <= |s|
    ensures Try(Then(Cat(a, b), next), s, i, caps) == Try(Then(a, Then(b, next)), s, i, caps)
  {
  }

  /** Choice prefers its first part. */
  lemma AltSteps(a: Re, b: Re, next: Cont, s: string, i: nat, caps: Captures)
    requires i <= |s|
    ensures Try(Then(Alt(a, b), next), s, i, caps)
         == var r := Try(Then(a, next), s, i, caps);
            if r.Some? then r else Try(Then(b, next), s, i, caps)
  {
  }

  /**
   An unmarked run of one or more class members, when its two longest counts are the
   only ones that can succeed.
   */
  lemma TwoLongest(cls: CharClass, next: Cont, s: string, i: nat, caps: Captures)
    requires i <= |s|
    requires forall e :: i < e < i + Run(cls, s, i) - 1 && Try(next, s, e, caps).Some?
                         ==> Try(next, s, i + Run(cls, s, i) - 1, caps).Some?
    ensures var n := Run(cls, s, i);
            Try(Then(Rep(cls, 1, None), next), s, i, caps)
            == if n == 0 then None
               else if Try(next, s, i + n, caps).Some? || n == 1 then Try(next, s, i + n, caps)
               else Try(next, s, i + n - 1, caps)
  {
    hide Try, TryCounts, Run;
    var n := Run(cls, s, i);
    RepSteps(cls, 1, next, s, i, caps);
    CountStep(1, n, next, s, i, caps);
    if n > 0 {
      CountStep(1, n - 1, next, s, i, caps);
      if Try(next, s, i + n - 1, caps) == None {
        AllFail(1, n - 1, next, s, i, caps);
      }
    }
  }

  /** When the longest count succeeds, it is the answer. */
  lemma GreedySucceeds(cls: CharClass, min: nat, next: Cont, s: string, i: nat, caps: Captures)
    requires i <= |s| && min <= Run(cls, s, i)
    requires Try(next, s, i + Run(cls, s, i), caps).Some?
    ensures Try(Then(Rep(cls, min, None), next), s, i, caps) == Try(next, s, i + Run(cls, s, i), caps)
  {
    var n := Run(cls, s, i);
    assert Try(Then(Rep(cls, min, None), next), s, i, caps) == TryCounts(min, n, next, s, i, caps);
  }

  lemma MarkedGreedySucceeds(id: nat, cls: CharClass, next: Cont, s: string, i: nat, caps: Captures)
    requires i <= |s| && Run(cls, s, i) > 0
    requires Try(next, s, i + Run(cls, s, i), caps[id := s[i..i + Run(cls, s, i)]]).Some?
    ensures Try(Then(Mark(id, Rep(cls, 1, None)), next), s, i, caps)
         == Try(next, s, i + Run(cls, s, i), caps[id := s[i..i + Run(cls, s, i)]])
  {
    var n := Run(cls, s, i);
    var close := Close(id, i, next);
    assert Try(Then(Mark(id, Rep(cls, 1, None)), next), s, i, caps)
        == Try(Then(Rep(cls, 1, None), close), s, i, caps);
    assert Try(close, s, i + n, caps) == Try(next, s, i + n, caps[id := s[i..i + n]]);
    GreedySucceeds(cls, 1, close, s, i, caps);
  }
}

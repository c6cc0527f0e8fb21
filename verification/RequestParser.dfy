/**
 The request language of the control files: a command word, optionally followed by
 blanks and an argument string, optionally followed by newlines.
 */
module RequestParser {
  import opened Options
  import opened Regex
  import opened Strings

  // ----- The grammar -----

  const COMMAND := 1
  const ARGS := 2
  const Word: Re := Rep(CommandChar, 1, None)
  const Delim: Re := Rep(Blank, 1, None)
  const RestOfLine: Re := Rep(NotNewline, 1, None)
  const Newlines: Re := Rep(Newline, 0, None)
  const Request: Re :=
    Cat(Alt(Cat(Mark(COMMAND, Word), Cat(Delim, Mark(ARGS, RestOfLine))), Mark(COMMAND, Word)), Newlines)

  datatype Parsed = Parsed(command: string, args: string)

  /** What the backtracking engine makes of a request. */
  function ParseRequest(s: string): Option<Parsed> {
    match FullMatch(Request, s)
    case None => None
    case Some(caps) => Some(Parsed(Group(caps, COMMAND), Group(caps, ARGS)))
  }

  // ----- The one-pass scanner -----

  datatype Scanner =
    | Start
    | InWord(command: string)
    | InBlanks(command: string, count: nat, last: char)
    | InArgs(command: string, args: string)
    | InTail(command: string, args: string)
    | Reject

  function Scan(st: Scanner, c: char): Scanner {
    match st
    case Start => if Member(c, CommandChar) then InWord([c]) else Reject
    case InWord(w) =>
      if Member(c, CommandChar) then InWord(w + [c])
      else if Member(c, Blank) then InBlanks(w, 1, c)
      else if Member(c, Newline) then InTail(w, "")
      else Reject
    case InBlanks(w, n, b) =>
      if Member(c, Blank) then InBlanks(w, n + 1, c)
      else if Member(c, NotNewline) then InArgs(w, [c])
      else if n >= 2 then InTail(w, [b])
      else Reject
    case InArgs(w, a) => if Member(c, NotNewline) then InArgs(w, a + [c]) else InTail(w, a)
    case InTail(w, a) => if Member(c, Newline) then st else Reject
    case Reject => Reject
  }

  function Finish(st: Scanner): Option<Parsed> {
    match st
    case Start => None
    case InWord(w) => Some(Parsed(w, ""))
    case InBlanks(w, n, b) => if n >= 2 then Some(Parsed(w, [b])) else None
    case InArgs(w, a) => Some(Parsed(w, a))
    case InTail(w, a) => Some(Parsed(w, a))
    case Reject => None
  }

  function ScanFrom(st: Scanner, s: string, i: nat): Scanner
    requires i <= |s|
    decreases |s| - i
  {
    if i == |s| then st else ScanFrom(Scan(st, s[i]), s, i + 1)
  }

  function ScanRequest(s: string): Option<Parsed> {
    Finish(ScanFrom(Start, s, 0))
  }

  // ----- What each piece of the grammar does under backtracking -----

  const AfterArgs: Cont := Then(Newlines, Done)
  const ArgsPart: Cont := Then(Mark(ARGS, RestOfLine), AfterArgs)

  lemma NewlinesToEnd(s: string, i: nat, caps: Captures)
    requires i <= |s|
    ensures Try(AfterArgs, s, i, caps) == if i + Run(Newline, s, i) == |s| then Some(caps) else None
  {
    OnlyLongest(0, Run(Newline, s, i), Done, s, i, caps);
  }

  lemma ArgsThenNewlines(s: string, i: nat, caps: Captures)
    requires i <= |s|
    ensures var n := Run(NotNewline, s, i);
            Try(ArgsPart, s, i, caps)
            == if n == 0 then None else Try(AfterArgs, s, i + n, caps[ARGS := s[i..i + n]])
  {
    RunIsMaximal(NotNewline, s, i);
    forall e | i < e < i + Run(NotNewline, s, i)
      ensures Try(AfterArgs, s, e, caps[ARGS := s[i..e]]) == None
    {
      NewlinesToEnd(s, e, caps[ARGS := s[i..e]]);
    }
    MarkedRun(ARGS, NotNewline, AfterArgs, s, i, caps);
  }

  lemma {:induction false} RunReachesSameEnd(s: string, e: nat, i: nat)
    requires e <= i <= |s|
    requires forall j :: e <= j < i ==> Member(s[j], NotNewline)
    ensures e + Run(NotNewline, s, e) == i + Run(NotNewline, s, i)
    decreases i - e
  {
    if e < i {
      RunReachesSameEnd(s, e + 1, i);
    }
  }

  /** Whether the argument string fits does not depend on which blank it starts at. */
  lemma ArgsFitsAlike(s: string, e: nat, i: nat, caps: Captures)
    requires e < i <= |s|
    requires forall j :: e <= j < i ==> Member(s[j], NotNewline)
    ensures var stop := i + Run(NotNewline, s, i);
            Try(ArgsPart, s, e, caps)
            == if stop + Run(Newline, s, stop) == |s| then Some(caps[ARGS := s[e..stop]]) else None
  {
    RunReachesSameEnd(s, e, i);
    ArgsThenNewlines(s, e, caps);
    var stop := i + Run(NotNewline, s, i);
    NewlinesToEnd(s, stop, caps[ARGS := s[e..stop]]);
  }

  /** The argument string starts after the blanks, or at the last of several blanks when nothing follows them. */
  lemma BlanksThenArgs(s: string, i: nat, caps: Captures)
    requires i <= |s|
    ensures var b := Run(Blank, s, i);
            Try(Then(Delim, ArgsPart), s, i, caps)
            == if b == 0 then None
               else if Run(NotNewline, s, i + b) > 0 || b == 1 then Try(ArgsPart, s, i + b, caps)
               else Try(ArgsPart, s, i + b - 1, caps)
  {
    var b := Run(Blank, s, i);
    if b > 0 {
      BlanksAlike(s, i, caps);
      TwoLongest(Blank, ArgsPart, s, i, caps);
    }
  }

  lemma BlanksAlike(s: string, i: nat, caps: Captures)
    requires i <= |s| && Run(Blank, s, i) > 0
    ensures var b := Run(Blank, s, i);
      && (forall e :: i < e < i + b ==> Try(ArgsPart, s, e, caps).Some? == Try(ArgsPart, s, i + b - 1, caps).Some?)
      && (Run(NotNewline, s, i + b) == 0 ==> Try(ArgsPart, s, i + b, caps) == None)
      && (Run(NotNewline, s, i + b) > 0 && b >= 2 ==>
            Try(ArgsPart, s, i + b - 1, caps).Some? == Try(ArgsPart, s, i + b, caps).Some?)
  {
    hide Try, Run;
    var b := Run(Blank, s, i);
    var stop := i + b + Run(NotNewline, s, i + b);
    var fits := stop + Run(Newline, s, stop) == |s|;
    RunIsMaximal(Blank, s, i);
    forall e | i <= e < i + b ensures Try(ArgsPart, s, e, caps).Some? == fits {
      ArgsFitsAlike(s, e, i + b, caps);
    }
    ArgsThenNewlines(s, i + b, caps);
    NewlinesToEnd(s, stop, caps[ARGS := s[i + b..stop]]);
  }

  const AfterCommand: Cont := Then(Cat(Delim, Mark(ARGS, RestOfLine)), AfterArgs)

  /** Backing off inside the command word never helps: the next character is a word character. */
  lemma CommandIsWholeWord(s: string)
    ensures var w := Run(CommandChar, s, 0);
            Try(Then(Mark(COMMAND, Word), AfterCommand), s, 0, map[])
            == if w == 0 then None else Try(AfterCommand, s, w, map[COMMAND := s[..w]])
    ensures var w := Run(CommandChar, s, 0);
            Try(Then(Mark(COMMAND, Word), AfterArgs), s, 0, map[])
            == if w == 0 then None else Try(AfterArgs, s, w, map[COMMAND := s[..w]])
  {
    hide Try;
    var w := Run(CommandChar, s, 0);
    RunIsMaximal(CommandChar, s, 0);
    forall e | 0 < e < w ensures Try(AfterCommand, s, e, map[][COMMAND := s[0..e]]) == None {
      CatSteps(Delim, Mark(ARGS, RestOfLine), AfterArgs, s, e, map[][COMMAND := s[0..e]]);
      BlanksThenArgs(s, e, map[][COMMAND := s[0..e]]);
    }
    MarkedRun(COMMAND, CommandChar, AfterCommand, s, 0, map[]);
    forall e | 0 < e < w ensures Try(AfterArgs, s, e, map[][COMMAND := s[0..e]]) == None {
      NewlinesToEnd(s, e, map[][COMMAND := s[0..e]]);
    }
    MarkedRun(COMMAND, CommandChar, AfterArgs, s, 0, map[]);
    assert s[0..0 + w] == s[..w];
    assert map[][COMMAND := s[..w]] == map[COMMAND := s[..w]];
  }

  /** Where the pieces of a request lie, without any backtracking. */
  function Layout(s: string): Option<Parsed> {
    var w := Run(CommandChar, s, 0);
    var b := Run(Blank, s, w);
    var begin := if Run(NotNewline, s, w + b) == 0 && b >= 2 then w + b - 1 else w + b;
    var stop := begin + Run(NotNewline, s, begin);
    if w == 0 then None
    else if b == 0 then
      if w + Run(Newline, s, w) == |s| then Some(Parsed(s[..w], "")) else None
    else if stop > begin && stop + Run(Newline, s, stop) == |s| then Some(Parsed(s[..w], s[begin..stop]))
    else None
  }

  lemma BacktrackingFindsLayout(s: string)
    ensures ParseRequest(s) == Layout(s)
  {
    hide Run, Try;
    var w := Run(CommandChar, s, 0);
    RequestUnfolds(s);
    CommandIsWholeWord(s);
    if w > 0 {
      var caps: Captures := map[COMMAND := s[..w]];
      NewlinesToEnd(s, w, caps);
      if Run(Blank, s, w) == 0 {
        CommandAlone(s, caps);
      } else {
        CommandWithArgs(s, caps);
        RunIsMaximal(Blank, s, w);
        RunIs(Newline, s, w, 0);
      }
    }
  }

  lemma CommandAlone(s: string, caps: Captures)
    requires var w := Run(CommandChar, s, 0); w > 0 && Run(Blank, s, w) == 0
    ensures Try(AfterCommand, s, Run(CommandChar, s, 0), caps) == None
  {
    var w := Run(CommandChar, s, 0);
    CatSteps(Delim, Mark(ARGS, RestOfLine), AfterArgs, s, w, caps);
    BlanksThenArgs(s, w, caps);
  }

  lemma CommandWithArgs(s: string, caps: Captures)
    requires var w := Run(CommandChar, s, 0); w > 0 && Run(Blank, s, w) > 0
    ensures var w := Run(CommandChar, s, 0);
            var b := Run(Blank, s, w);
            var begin := if Run(NotNewline, s, w + b) == 0 && b >= 2 then w + b - 1 else w + b;
            var stop := begin + Run(NotNewline, s, begin);
            Try(AfterCommand, s, w, caps)
            == if stop > begin && stop + Run(Newline, s, stop) == |s| then Some(caps[ARGS := s[begin..stop]]) else None
  {
    hide Run, Try;
    var w := Run(CommandChar, s, 0);
    var b := Run(Blank, s, w);
    var begin := if Run(NotNewline, s, w + b) == 0 && b >= 2 then w + b - 1 else w + b;
    var stop := begin + Run(NotNewline, s, begin);
    CatSteps(Delim, Mark(ARGS, RestOfLine), AfterArgs, s, w, caps);
    BlanksThenArgs(s, w, caps);
    ArgsThenNewlines(s, begin, caps);
    NewlinesToEnd(s, stop, caps[ARGS := s[begin..stop]]);
  }

  lemma RequestUnfolds(s: string)
    ensures FullMatch(Request, s)
         == var r := Try(Then(Mark(COMMAND, Word), AfterCommand), s, 0, map[]);
            if r.Some? then r else Try(Then(Mark(COMMAND, Word), AfterArgs), s, 0, map[])
  {
    var both := Cat(Mark(COMMAND, Word), Cat(Delim, Mark(ARGS, RestOfLine)));
    CatSteps(Alt(both, Mark(COMMAND, Word)), Newlines, Done, s, 0, map[]);
    AltSteps(both, Mark(COMMAND, Word), AfterArgs, s, 0, map[]);
    CatSteps(Mark(COMMAND, Word), Cat(Delim, Mark(ARGS, RestOfLine)), AfterArgs, s, 0, map[]);
  }

  // ----- The scanner agrees -----

  lemma {:induction false} ScanWord(w: string, s: string, i: nat)
    requires i <= |s|
    ensures var n := Run(CommandChar, s, i);
            ScanFrom(InWord(w), s, i) == ScanFrom(InWord(w + s[i..i + n]), s, i + n)
    decreases |s| - i
  {
    var n := Run(CommandChar, s, i);
    if n == 0 {
      assert w + s[i..i] == w;
    } else {
      ScanWord(w + [s[i]], s, i + 1);
      assert w + s[i..i + n] == w + [s[i]] + s[i + 1..i + n];
    }
  }

  lemma {:induction false} ScanBlanks(w: string, count: nat, last: char, s: string, i: nat)
    requires i <= |s|
    ensures var n := Run(Blank, s, i);
            ScanFrom(InBlanks(w, count, last), s, i)
            == ScanFrom(InBlanks(w, count + n, if n == 0 then last else s[i + n - 1]), s, i + n)
    decreases |s| - i
  {
    if Run(Blank, s, i) > 0 {
      ScanBlanks(w, count + 1, s[i], s, i + 1);
    }
  }

  lemma {:induction false} ScanArgs(w: string, a: string, s: string, i: nat)
    requires i <= |s|
    ensures var n := Run(NotNewline, s, i);
            ScanFrom(InArgs(w, a), s, i) == ScanFrom(InArgs(w, a + s[i..i + n]), s, i + n)
    decreases |s| - i
  {
    var n := Run(NotNewline, s, i);
    if n == 0 {
      assert a + s[i..i] == a;
    } else {
      ScanArgs(w, a + [s[i]], s, i + 1);
      assert a + s[i..i + n] == a + [s[i]] + s[i + 1..i + n];
    }
  }

  lemma {:induction false} ScanReject(s: string, i: nat)
    requires i <= |s|
    ensures ScanFrom(Reject, s, i) == Reject
    decreases |s| - i
  {
    if i < |s| {
      ScanReject(s, i + 1);
    }
  }

  lemma {:induction false} ScanTail(w: string, a: string, s: string, i: nat)
    requires i <= |s|
    ensures Finish(ScanFrom(InTail(w, a), s, i))
         == if i + Run(Newline, s, i) == |s| then Some(Parsed(w, a)) else None
    decreases |s| - i
  {
    if i < |s| {
      if Member(s[i], Newline) {
        ScanTail(w, a, s, i + 1);
      } else {
        ScanReject(s, i + 1);
      }
    }
  }

  /** From the first character after the arguments on, only newlines may follow. */
  lemma ScanArgsToEnd(w: string, a: string, s: string, i: nat)
    requires i <= |s|
    ensures var stop := i + Run(NotNewline, s, i);
            Finish(ScanFrom(InArgs(w, a), s, i))
            == if stop + Run(Newline, s, stop) == |s| then Some(Parsed(w, a + s[i..stop])) else None
  {
    ScanArgs(w, a, s, i);
    var stop := i + Run(NotNewline, s, i);
    RunIsMaximal(NotNewline, s, i);
    if stop < |s| {
      ScanTail(w, a + s[i..stop], s, stop + 1);
    }
  }

  /** The scanner after b blanks, the last of them at j - 1, with no blank at j. */
  lemma ScanAfterBlanks(w: string, b: nat, s: string, j: nat)
    requires 0 < j <= |s| && b > 0 && Member(s[j - 1], Blank)
    requires j < |s| ==> !Member(s[j], Blank)
    ensures var begin := if Run(NotNewline, s, j) == 0 && b >= 2 then j - 1 else j;
            var stop := begin + Run(NotNewline, s, begin);
            Finish(ScanFrom(InBlanks(w, b, s[j - 1]), s, j))
            == if stop > begin && stop + Run(Newline, s, stop) == |s| then Some(Parsed(w, s[begin..stop])) else None
  {
    if j < |s| && Member(s[j], NotNewline) {
      ScanArgsToEnd(w, [s[j]], s, j + 1);
      var stop := j + Run(NotNewline, s, j);
      assert [s[j]] + s[j + 1..stop] == s[j..stop];
    } else {
      RunIs(NotNewline, s, j - 1, 1);
      assert s[j - 1..j] == [s[j - 1]];
      if j < |s| {
        ScanTail(w, [s[j - 1]], s, j + 1);
        ScanReject(s, j + 1);
      }
    }
  }

  lemma ScanBlanksToEnd(w: string, s: string, i: nat)
    requires i < |s| && Member(s[i], Blank)
    ensures var b := Run(Blank, s, i);
            b > 0 && i + b <= |s| && Member(s[i + b - 1], Blank) && (i + b < |s| ==> !Member(s[i + b], Blank)) &&
            ScanFrom(InWord(w), s, i) == ScanFrom(InBlanks(w, b, s[i + b - 1]), s, i + b)
  {
    RunIsMaximal(Blank, s, i);
    ScanBlanks(w, 1, s[i], s, i + 1);
  }

  lemma ScanFirstWord(s: string)
    requires Run(CommandChar, s, 0) > 0
    ensures var w := Run(CommandChar, s, 0);
            ScanRequest(s) == Finish(ScanFrom(InWord(s[..w]), s, w))
  {
    var w := Run(CommandChar, s, 0);
    ScanWord([s[0]], s, 1);
    assert [s[0]] + s[1..w] == s[..w];
  }

  /** What the scanner does from the end of the command word on. */
  lemma ScanAfterWord(w: string, s: string, i: nat)
    requires i < |s| && !Member(s[i], CommandChar)
    ensures Finish(ScanFrom(InWord(w), s, i))
         == if Member(s[i], Blank) then Finish(ScanFrom(InBlanks(w, 1, s[i]), s, i + 1))
            else if i + Run(Newline, s, i) == |s| then Some(Parsed(w, ""))
            else None
  {
    if Member(s[i], Newline) {
      ScanTail(w, "", s, i + 1);
    } else if !Member(s[i], Blank) {
      ScanReject(s, i + 1);
    }
  }

  lemma ScanNoWord(s: string)
    requires Run(CommandChar, s, 0) == 0
    ensures ScanRequest(s) == None
  {
    if s != "" {
      ScanReject(s, 1);
    }
  }

  lemma ScannerFindsLayout(s: string)
    ensures ScanRequest(s) == Layout(s)
  {
    hide Run, ScanFrom;
    var w := Run(CommandChar, s, 0);
    RunIsMaximal(CommandChar, s, 0);
    if w == 0 {
      ScanNoWord(s);
    } else {
      ScanFirstWord(s);
      if w == |s| {
        ScanAtEnd(s[..w], s);
      } else if Member(s[w], Blank) {
        ScanBlanksToEnd(s[..w], s, w);
        ScanAfterBlanks(s[..w], Run(Blank, s, w), s, w + Run(Blank, s, w));
      } else {
        ScanAfterWord(s[..w], s, w);
        RunIs(Blank, s, w, 0);
      }
    }
  }

  lemma ScanAtEnd(w: string, s: string)
    ensures Finish(ScanFrom(InWord(w), s, |s|)) == Some(Parsed(w, ""))
    ensures Run(Blank, s, |s|) == 0 && Run(Newline, s, |s|) == 0
  {
  }

  /** The backtracking grammar and the one-pass scanner accept the same requests with the same parts. */
  lemma GrammarAgreesWithScanner(s: string)
    ensures ParseRequest(s) == ScanRequest(s)
  {
    BacktrackingFindsLayout(s);
    ScannerFindsLayout(s);
  }

  // ----- Arguments -----

  /** The pieces a token iterator yields: like splitting, except that a last empty piece is not produced. */
  function TokensAt(s: string, delim: char, pos: nat): seq<string>
    requires pos <= |s|
    decreases |s| - pos
  {
    if pos == |s| then []
    else
      var i := Find(s, delim, pos);
      [s[pos..i]] + (if i == |s| then [] else TokensAt(s, delim, i + 1))
  }

  function Tokens(s: string, delim: char): seq<string> {
    TokensAt(s, delim, 0)
  }

  datatype Arg = Arg(text: string, groups: Captures)

  /** What one token contributes: nothing unless all of it matches the filter. */
  function MatchToken(token: string, filter: Re): seq<Arg> {
    match FullMatch(filter, token)
    case None => []
    case Some(caps) => [Arg(token, caps)]
  }

  /** The tokens that match the filter, in order, with what they captured. */
  function Matching(tokens: seq<string>, filter: Re): seq<Arg> {
    if tokens == [] then [] else MatchToken(tokens[0], filter) + Matching(tokens[1..], filter)
  }

  lemma {:induction false} TokensOfSplit(s: string, delim: char, pos: nat)
    requires pos <= |s|
    ensures var parts := Split(s[pos..], delim);
            TokensAt(s, delim, pos) == if parts[|parts| - 1] == "" then parts[..|parts| - 1] else parts
    decreases |s| - pos
  {
    hide Find, Split, TokensAt;
    var i := Find(s, delim, pos);
    SplitStep(s, delim, pos);
    TokensStep(s, delim, pos);
    if i == |s| {
      TokensStep(s, delim, |s|);
      assert [s[pos..i]] + [] == [s[pos..i]];
    } else {
      TokensOfSplit(s, delim, i + 1);
      var first, rest := [s[pos..i]], Split(s[i + 1..], delim);
      assert (first + rest)[..|rest|] == first + rest[..|rest| - 1];
    }
  }

  lemma SplitStep(s: string, delim: char, pos: nat)
    requires pos <= |s|
    ensures var i := Find(s, delim, pos);
            Split(s[pos..], delim) == [s[pos..i]] + if i == |s| then [] else Split(s[i + 1..], delim)
  {
    hide Find, Split;
    var t := s[pos..];
    var i := Find(s, delim, pos);
    FindInSuffix(s, delim, pos);
    SplitUnfolds(t, delim);
    assert t == s[pos..|s|];
    assert t[..i - pos] == s[pos..i];
    assert i < |s| ==> t[i - pos + 1..] == s[i + 1..];
    assert [t] == [t] + [];
  }

  lemma TokensStep(s: string, delim: char, pos: nat)
    requires pos <= |s|
    ensures var i := Find(s, delim, pos);
            TokensAt(s, delim, pos)
            == if pos == |s| then [] else [s[pos..i]] + TokensAt(s, delim, if i == |s| then |s| else i + 1)
  {
  }

  lemma NothingMatches(filter: Re)
    ensures Matching([], filter) == []
  {
  }

  lemma {:induction false} MatchingSnoc(tokens: seq<string>, token: string, filter: Re)
    ensures Matching(tokens + [token], filter) == Matching(tokens, filter) + MatchToken(token, filter)
  {
    if tokens == [] {
      assert [token][1..] == [];
    } else {
      assert (tokens + [token])[1..] == tokens[1..] + [token];
      MatchingSnoc(tokens[1..], token, filter);
    }
  }

  /** Positions of tokens, from first to last. */
  ghost predicate Increasing(at: seq<nat>, bound: nat) {
    && (forall k :: 0 <= k < |at| ==> at[k] < bound)
    && (forall k, l :: 0 <= k < l < |at| ==> at[k] < at[l])
  }

  /** The arguments are the tokens at these positions, all of each matched by the filter, with its captures. */
  ghost predicate TakenFrom(args: seq<Arg>, tokens: seq<string>, filter: Re, at: seq<nat>) {
    && |at| == |args| && Increasing(at, |tokens|)
    && (forall k :: 0 <= k < |args| ==>
          args[k].text == tokens[at[k]] && FullMatch(filter, args[k].text) == Some(args[k].groups))
    && (forall i :: 0 <= i < |tokens| && FullMatch(filter, tokens[i]).Some? ==> i in at)
  }

  /** The arguments are exactly the tokens that match, in their order, as often as they occur. */
  ghost predicate Selects(args: seq<Arg>, tokens: seq<string>, filter: Re) {
    exists at :: TakenFrom(args, tokens, filter, at)
  }

  lemma {:induction false} MatchingSelects(tokens: seq<string>, filter: Re)
    ensures Selects(Matching(tokens, filter), tokens, filter)
  {
    hide FullMatch;
    if tokens == [] {
      assert TakenFrom([], tokens, filter, []);
    } else {
      var front, last := tokens[..|tokens| - 1], tokens[|tokens| - 1];
      assert tokens == front + [last];
      MatchingSelects(front, filter);
      MatchingSnoc(front, last, filter);
      var at :| TakenFrom(Matching(front, filter), front, filter, at);
      TakeOneMore(Matching(front, filter), front, filter, at, last);
    }
  }

  lemma TakeOneMore(args: seq<Arg>, front: seq<string>, filter: Re, at: seq<nat>, last: string)
    requires TakenFrom(args, front, filter, at)
    ensures Selects(args + MatchToken(last, filter), front + [last], filter)
  {
    hide FullMatch;
    var tokens := front + [last];
    if FullMatch(filter, last).Some? {
      var at' := at + [|front|];
      assert forall i :: i in at ==> i in at';
      assert at'[|at|] == |front|;
      assert TakenFrom(args + MatchToken(last, filter), tokens, filter, at');
    } else {
      assert args + [] == args;
      assert TakenFrom(args, tokens, filter, at);
    }
  }

  /** There is an argument exactly when some token matches. */
  lemma SomeArgument(args: seq<Arg>, tokens: seq<string>, filter: Re)
    requires Selects(args, tokens, filter)
    ensures args != [] <==> exists t :: t in tokens && FullMatch(filter, t).Some?
  {
    hide FullMatch;
    var at :| TakenFrom(args, tokens, filter, at);
    if args != [] {
      assert tokens[at[0]] in tokens && FullMatch(filter, tokens[at[0]]).Some?;
    }
    if t :| t in tokens && FullMatch(filter, t).Some? {
      var i :| 0 <= i < |tokens| && tokens[i] == t;
      assert i in at;
    }
  }

  predicate IsCommandWord(w: string) {
    w != "" && forall i :: 0 <= i < |w| ==> Member(w[i], CommandChar)
  }

  lemma CommandIsLongest(s: string)
    requires ScanRequest(s).Some?
    ensures var w := ScanRequest(s).value.command;
            IsCommandWord(w) && w <= s && (|w| < |s| ==> !Member(s[|w|], CommandChar))
  {
    hide ScanRequest, Run;
    ScannerFindsLayout(s);
    RunIsMaximal(CommandChar, s, 0);
  }

  /** The parser object: it remembers the last request that parsed. */
  class Parser {
    var result: Option<Parsed>
    ghost var request: Option<string>   // the last request that parsed

    /** What is remembered are the parts of the last request that parsed. */
    ghost predicate Valid()
      reads this
    {
      match request
      case None => result == None
      case Some(s) => result.Some? && result == ScanRequest(s)
    }

    constructor ()
      ensures Valid() && request == None
    {
      result, request := None, None;
    }

    /** A request that does not parse leaves the earlier result in place. */
    method Parse(s: string) returns (ok: bool)
      requires Valid()
      modifies this
      ensures Valid() && (ok <==> ScanRequest(s).Some?)
      ensures request == if ok then Some(s) else old(request)
      ensures result == if ok then ScanRequest(s) else old(result)
    {
      GrammarAgreesWithScanner(s);
      var what := FullMatch(Request, s);
      if what.None? {
        return false;
      }
      result := Some(Parsed(Group(what.value, COMMAND), Group(what.value, ARGS)));
      request := Some(s);
      return true;
    }

    /**
     The longest run of command characters that the last parsed request starts with, never empty. None stands
     for the exception thrown before any successful parse.
     */
    method GetCommand() returns (r: Option<string>)
      requires Valid()
      ensures r.None? <==> request.None?
      ensures r.Some? ==> IsCommandWord(r.value) && r.value <= request.value
      ensures r.Some? && |r.value| < |request.value| ==> !Member(request.value[|r.value|], CommandChar)
      ensures r.Some? ==> result.Some? && r.value == result.value.command
    {
      if request.Some? {
        CommandIsLongest(request.value);
      }
      r := if result.None? then None else Some(result.value.command);
    }

    method GetArgs(delim: char, filter: Re) returns (r: Option<seq<Arg>>)
      requires Valid()
      ensures r.None? <==> request.None?
      ensures r == if result.None? then None else Some(Matching(Tokens(result.value.args, delim), filter))
      ensures r.Some? ==> result.Some? && Selects(r.value, Tokens(result.value.args, delim), filter)
    {
      if result.None? {
        return None;
      }
      var store := CollectArgs(result.value.args, delim, filter);
      return Some(store);
    }
  }

  /** The loop over the token iterator. */
  method CollectArgs(s: string, delim: char, filter: Re) returns (store: seq<Arg>)
    ensures store == Matching(Tokens(s, delim), filter)
    ensures Selects(store, Tokens(s, delim), filter)
  {
    hide Matching, MatchToken, TokensAt, Find, Selects;
    store := [];
    ghost var done: seq<string> := [];
    var pos := 0;
    NothingMatches(filter);
    assert done + TokensAt(s, delim, 0) == TokensAt(s, delim, 0);
    while pos < |s|
      invariant 0 <= pos <= |s|
      invariant Tokens(s, delim) == done + TokensAt(s, delim, pos)
      invariant store == Matching(done, filter)
    {
      var i := Find(s, delim, pos);
      MatchingSnoc(done, s[pos..i], filter);
      TokensStep(s, delim, pos);
      ghost var next := if i == |s| then |s| else i + 1;
      assert done + ([s[pos..i]] + TokensAt(s, delim, next)) == done + [s[pos..i]] + TokensAt(s, delim, next);
      done := done + [s[pos..i]];
      store := store + MatchToken(s[pos..i], filter);
      pos := if i == |s| then |s| else i + 1;
    }
    TokensStep(s, delim, pos);
    assert done + [] == done;
    MatchingSelects(done, filter);
  }

  // ----- Printing and reading back -----

  /** How a client writes a request line. */
  function Print(command: string, args: seq<string>): string {
    if args == [] then command else command + " " + Join(args, ',')
  }

  function ReadBack(s: string): Option<(string, seq<string>)> {
    match ScanRequest(s)
    case None => None
    case Some(p) => Some((p.command, Tokens(p.args, ',')))
  }

  ghost predicate PrintableArg(a: string) {
    Lacks(a, ',') && Lacks(a, '\n')
  }

  lemma ReadsCommandAlone(w: string)
    requires IsCommandWord(w)
    ensures ScanRequest(w) == Some(Parsed(w, ""))
  {
    ScannerFindsLayout(w);
    RunIs(CommandChar, w, 0, |w|);
    assert w[..|w|] == w;
  }

  /** How a command, one space and a one-line string are laid out. */
  ghost predicate IsLine(s: string, w: string, a: string) {
    && |s| == |w| + 1 + |a|
    && (forall j :: 0 <= j < |w| ==> s[j] == w[j])
    && s[|w|] == ' '
    && (forall j :: |w| < j < |s| ==> s[j] == a[j - |w| - 1])
  }

  lemma LineCommand(s: string, w: string, a: string)
    requires IsCommandWord(w) && IsLine(s, w, a)
    ensures Run(CommandChar, s, 0) == |w| && s[..|w|] == w
  {
    RunIs(CommandChar, s, 0, |w|);
  }

  lemma LineBlanks(s: string, w: string, a: string)
    requires IsLine(s, w, a)
    ensures Run(Blank, s, |w|) == 1 + Run(Blank, a, 0)
  {
    var b := Run(Blank, a, 0);
    RunIsMaximal(Blank, a, 0);
    RunIs(Blank, s, |w|, 1 + b);
  }

  lemma LineRest(s: string, w: string, a: string)
    requires IsLine(s, w, a) && Lacks(a, '\n')
    ensures forall i :: |w| <= i <= |s| ==> i + Run(NotNewline, s, i) == |s|
  {
    forall i | |w| <= i <= |s| ensures i + Run(NotNewline, s, i) == |s| {
      RunIs(NotNewline, s, i, |s| - i);
    }
  }

  /** What a command, one space and a one-line argument string read as. */
  lemma ReadsLine(w: string, a: string)
    requires IsCommandWord(w) && Lacks(a, '\n')
    ensures ScanRequest(w + " " + a)
         == if a == "" then None
            else
              var b := Run(Blank, a, 0);
              Some(Parsed(w, if b == |a| then a[|a| - 1..] else a[b..]))
  {
    LineIsLine(w, a);
    ReadsLaidOutLine(w + " " + a, w, a);
  }

  lemma LineIsLine(w: string, a: string)
    ensures IsLine(w + " " + a, w, a)
  {
  }

  lemma ReadsLaidOutLine(s: string, w: string, a: string)
    requires IsCommandWord(w) && Lacks(a, '\n') && IsLine(s, w, a)
    ensures ScanRequest(s)
         == if a == "" then None
            else
              var b := Run(Blank, a, 0);
              Some(Parsed(w, if b == |a| then a[|a| - 1..] else a[b..]))
  {
    hide Run, ScanRequest, Lacks;
    ScannerFindsLayout(s);
    LineCommand(s, w, a);
    LineBlanks(s, w, a);
    LineRest(s, w, a);
    LineLength(s, w, a);
    hide IsLine, IsCommandWord;
    var b := Run(Blank, a, 0);
    assert |w| + 1 + b + Run(NotNewline, s, |w| + 1 + b) == |s|;
    LineSlice(s, w, a, b);
    if a != "" && b == |a| {
      LineSlice(s, w, a, |a| - 1);
    }
  }

  lemma LineLength(s: string, w: string, a: string)
    requires IsCommandWord(w) && IsLine(s, w, a)
    ensures |s| == |w| + 1 + |a| && w != ""
  {
  }

  lemma LineSlice(s: string, w: string, a: string, i: nat)
    requires IsLine(s, w, a) && i <= |a|
    ensures s[|w| + 1 + i..|s|] == a[i..]
  {
  }

  lemma {:induction false} JoinFacts(args: seq<string>)
    requires args != [] && forall i :: 0 <= i < |args| ==> PrintableArg(args[i])
    ensures Lacks(Join(args, ','), '\n')
    ensures args[0] <= Join(args, ',') && (|args| == 1 ==> args[0] == Join(args, ','))
    ensures |args| > 1 ==> |Join(args, ',')| > |args[0]| && Join(args, ',')[|args[0]|] == ','
    ensures Tokens(Join(args, ','), ',') == if args[|args| - 1] == "" then args[..|args| - 1] else args
  {
    hide Find, Split, TokensAt;
    SplitOfJoin(args, ',');
    TokensOfSplit(Join(args, ','), ',', 0);
    assert Join(args, ',')[0..] == Join(args, ',');
    if |args| > 1 {
      JoinFacts(args[1..]);
    }
  }

  /** The condition under which a printed request reads back: decidable by the writer from the arguments alone. */
  predicate ReadsBackCleanly(args: seq<string>) {
    args == [] ||
    ( args[|args| - 1] != "" &&
      ((args[0] != "" ==> !Member(args[0][0], Blank)) || (|args| == 1 && |args[0]| == 1)) )
  }

  /** Tokens determine the string up to one final separator, and never end with an empty one. */
  lemma TokensDetermine(s: string)
    requires s != ""
    ensures var t := Tokens(s, ',');
            t != [] && (s == Join(t, ',') || s == Join(t, ',') + ",")
  {
    hide Find, Split, TokensAt, Join, Lacks;
    var parts := Split(s, ',');
    TokensOfSplit(s, ',', 0);
    assert s[0..] == s;
    JoinOfSplit(s, ',');
    if parts[|parts| - 1] == "" {
      assert parts == parts[..|parts| - 1] + [""];
      JoinSnoc(parts[..|parts| - 1], "", ',');
    }
  }

  /** Characters dropped from the front of the argument string cannot come back. */
  lemma ShorterStringDiffers(args: seq<string>, p: string)
    requires p != "" && |p| < |Join(args, ',')|
    ensures Tokens(p, ',') != args
  {
    TokensDetermine(p);
  }

  lemma CleanWhenNoLeadingBlank(args: seq<string>)
    requires args != [] && forall i :: 0 <= i < |args| ==> PrintableArg(args[i])
    requires Join(args, ',') != ""
    ensures Run(Blank, Join(args, ','), 0) == 0 <==> (args[0] != "" ==> !Member(args[0][0], Blank))
    ensures |Join(args, ',')| == 1 && Run(Blank, Join(args, ','), 0) == 1 ==> |args| == 1 && |args[0]| == 1
  {
    JoinFacts(args);
  }

  /** Printing and reading back returns the command and its arguments exactly when the arguments are clean. */
  lemma PrintReadBack(command: string, args: seq<string>)
    requires IsCommandWord(command)
    requires forall i :: 0 <= i < |args| ==> PrintableArg(args[i])
    ensures ReadBack(Print(command, args)) == Some((command, args)) <==> ReadsBackCleanly(args)
  {
    hide Run, Join, TokensAt, ScanRequest, IsCommandWord, PrintableArg;
    if args == [] {
      ReadsCommandAlone(command);
      TokensStep("", ',', 0);
    } else {
      var a := Join(args, ',');
      JoinFacts(args);
      ReadsLine(command, a);
      if a != "" {
        CleanWhenNoLeadingBlank(args);
        var b := Run(Blank, a, 0);
        var p := if b == |a| then a[|a| - 1..] else a[b..];
        if b > 0 && |a| > 1 {
          ShorterStringDiffers(args, p);
        } else {
          assert p == a;
        }
      }
    }
  }
}

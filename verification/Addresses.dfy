/** Which arguments a connect and an announcement take for addresses, on every string. */
module Addresses {
  import opened Options
  import opened Decimal
  import opened Regex
  import opened RequestParser
  import opened Requests

  predicate ShortDigits(s: string, max: nat) {
    1 <= |s| <= max && AllDigits(s)
  }

  /** "!", a port of one to six digits, and any number of newlines. */
  predicate PortTail(tail: string, port: string) {
    && ShortDigits(port, 6) && "!" + port <= tail
    && forall i :: 1 + |port| <= i < |tail| ==> tail[i] == '\n'
  }

  function Host(a: string, b: string, c: string, d: string): string {
    a + "." + b + "." + c + "." + d
  }

  predicate FourOctets(a: string, b: string, c: string, d: string) {
    ShortDigits(a, 3) && ShortDigits(b, 3) && ShortDigits(c, 3) && ShortDigits(d, 3)
  }

  /** Four groups of one to three digits with dots between them; their values are not looked at. */
  ghost predicate IsHost(host: string) {
    exists a, b, c, d :: FourOctets(a, b, c, d) && host == Host(a, b, c, d)
  }

  ghost predicate IsEndpoint(t: string, host: string, port: string) {
    host <= t && PortTail(t[|host|..], port)
  }

  // ----- The pieces under backtracking -----

  lemma MarkSteps(id: nat, body: Re, next: Cont, s: string, i: nat, caps: Captures)
    requires i <= |s|
    ensures Try(Then(Mark(id, body), next), s, i, caps) == Try(Then(body, Close(id, i, next)), s, i, caps)
  {
  }

  lemma CloseSteps(id: nat, start: nat, next: Cont, s: string, i: nat, caps: Captures)
    requires start <= i <= |s|
    ensures Try(Close(id, start, next), s, i, caps) == Try(next, s, i, caps[id := s[start..i]])
  {
  }

  lemma LitSteps(c: char, next: Cont, s: string, i: nat, caps: Captures)
    requires i <= |s|
    ensures Try(Then(Lit([c]), next), s, i, caps)
         == if i < |s| && s[i] == c then Try(next, s, i + 1, caps) else None
  {
    assert i < |s| ==> s[i..i + 1] == [s[i]];
  }

  /** A bounded run of digits takes the whole run or fails, when nothing that follows starts inside it. */
  lemma DigitsStep(max: nat, next: Cont, s: string, i: nat, caps: Captures)
    requires i <= |s|
    requires forall e :: i < e < i + Run(DecDigit, s, i) ==> Try(next, s, e, caps) == None
    ensures var n := Run(DecDigit, s, i);
            Try(Then(Rep(DecDigit, 1, Some(max)), next), s, i, caps)
            == if 1 <= n <= max then Try(next, s, i + n, caps) else None
  {
    hide Run;
    var n := Run(DecDigit, s, i);
    var m := Cap(n, Some(max));
    assert Try(Then(Rep(DecDigit, 1, Some(max)), next), s, i, caps) == TryCounts(1, m, next, s, i, caps);
    if 1 <= n <= max {
      OnlyLongest(1, n, next, s, i, caps);
    } else {
      AllFail(1, m, next, s, i, caps);
    }
  }

  lemma DigitInside(s: string, i: nat, e: nat)
    requires i <= |s| && i <= e < i + Run(DecDigit, s, i)
    ensures e < |s| && IsDigit(s[e])
  {
    hide Run;
    RunIsMaximal(DecDigit, s, i);
  }

  lemma DottedStep(next: Cont, s: string, i: nat, caps: Captures)
    requires i <= |s|
    ensures var n := Run(DecDigit, s, i);
            Try(Then(Dotted, next), s, i, caps)
            == if 1 <= n <= 3 && i + n < |s| && s[i + n] == '.' then Try(next, s, i + n + 1, caps) else None
  {
    hide Try, Run;
    var n := Run(DecDigit, s, i);
    CatSteps(Octet, Lit("."), next, s, i, caps);
    forall e | i < e < i + n ensures Try(Then(Lit("."), next), s, e, caps) == None {
      DigitInside(s, i, e);
      LitSteps('.', next, s, e, caps);
    }
    DigitsStep(3, Then(Lit("."), next), s, i, caps);
    LitSteps('.', next, s, i + n, caps);
  }

  const Ending: Cont := Then(Rep(Newline, 0, None), Done)

  lemma EndingFailsInside(s: string, i: nat, e: nat, caps: Captures)
    requires i <= |s| && i <= e < i + Run(DecDigit, s, i)
    ensures Try(Ending, s, e, caps) == None
  {
    hide Try;
    DigitInside(s, i, e);
    NewlinesToEnd(s, e, caps);
  }

  lemma PortStep(s: string, i: nat, caps: Captures)
    requires i <= |s|
    ensures Try(Then(Port, Done), s, i, caps)
         == if i == |s| || s[i] != '!' then None
            else
              var j := i + 1 + Run(DecDigit, s, i + 1);
              if i + 1 < j <= i + 7 && j + Run(Newline, s, j) == |s| then Some(caps[2 := s[i + 1..j]]) else None
  {
    hide Try, Run;
    var number := Mark(2, Rep(DecDigit, 1, Some(6)));
    var rest := Rep(Newline, 0, None);
    CatSteps(Lit("!"), Cat(number, rest), Done, s, i, caps);
    LitSteps('!', Then(Cat(number, rest), Done), s, i, caps);
    if i < |s| {
      CatSteps(number, rest, Done, s, i + 1, caps);
      MarkSteps(2, Rep(DecDigit, 1, Some(6)), Ending, s, i + 1, caps);
      var close := Close(2, i + 1, Ending);
      var n := Run(DecDigit, s, i + 1);
      forall e | i + 1 < e < i + 1 + n ensures Try(close, s, e, caps) == None {
        CloseSteps(2, i + 1, Ending, s, e, caps);
        EndingFailsInside(s, i + 1, e, caps[2 := s[i + 1..e]]);
      }
      DigitsStep(6, close, s, i + 1, caps);
      CloseSteps(2, i + 1, Ending, s, i + 1 + n, caps);
      NewlinesToEnd(s, i + 1 + n, caps[2 := s[i + 1..i + 1 + n]]);
    }
  }

  lemma SliceDigits(s: string, i: nat)
    requires i <= |s|
    ensures AllDigits(s[i..i + Run(DecDigit, s, i)])
  {
    hide Run;
    RunIsMaximal(DecDigit, s, i);
  }

  lemma RunOfDigits(s: string, i: nat, d: string)
    requires i <= |s| && d <= s[i..] && AllDigits(d) && (i + |d| < |s| ==> !IsDigit(s[i + |d|]))
    ensures Run(DecDigit, s, i) == |d|
  {
    hide Run;
    assert forall j :: i <= j < i + |d| ==> s[j] == d[j - i];
    RunIs(DecDigit, s, i, |d|);
  }

  /** What follows the host matches exactly when it has the form, and captures the port. */
  lemma PortIff(s: string, i: nat, caps: Captures)
    requires i <= |s|
    ensures forall port :: PortTail(s[i..], port) ==> Try(Then(Port, Done), s, i, caps) == Some(caps[2 := port])
    ensures Try(Then(Port, Done), s, i, caps).Some? ==>
              exists port :: PortTail(s[i..], port) && Try(Then(Port, Done), s, i, caps) == Some(caps[2 := port])
  {
    hide Try, Run;
    PortStep(s, i, caps);
    forall port | PortTail(s[i..], port) ensures Try(Then(Port, Done), s, i, caps) == Some(caps[2 := port]) {
      PortSlices(s, i, port);
      PortRuns(s, i + 1, port);
    }
    if Try(Then(Port, Done), s, i, caps).Some? {
      var j := i + 1 + Run(DecDigit, s, i + 1);
      SliceDigits(s, i + 1);
      RunIsMaximal(Newline, s, j);
      assert PortTail(s[i..], s[i + 1..j]);
    }
  }

  lemma PortRuns(s: string, i: nat, port: string)
    requires i + |port| <= |s| && port <= s[i..] && AllDigits(port)
    requires forall k :: i + |port| <= k < |s| ==> s[k] == '\n'
    ensures Run(DecDigit, s, i) == |port| && i + |port| + Run(Newline, s, i + |port|) == |s|
  {
    hide Run;
    RunOfDigits(s, i, port);
    RunIs(Newline, s, i + |port|, |s| - i - |port|);
  }

  lemma PortSlices(s: string, i: nat, port: string)
    requires i <= |s| && PortTail(s[i..], port)
    ensures var j := i + 1 + |port|;
            && j <= |s| && s[i] == '!' && s[i + 1..j] == port && port <= s[i + 1..] && AllDigits(port)
            && (forall k :: j <= k < |s| ==> s[k] == '\n')
  {
    var tail := s[i..];
    var j := i + 1 + |port|;
    assert tail[..1 + |port|] == "!" + port;
    assert tail[0] == s[i];
    assert s[i + 1..j] == tail[1..1 + |port|];
    assert s[i + 1..][..|port|] == s[i + 1..j];
    forall k | j <= k < |s| ensures s[k] == '\n' {
      assert s[k] == tail[k - i];
    }
  }

  // ----- The two expressions -----

  /** An announcement is for "*", and takes the port after it. */
  lemma AnyPortIff(t: string)
    ensures forall port :: IsEndpoint(t, "*", port) ==> FullMatch(AnyPort, t) == Some(map[1 := "*", 2 := port])
    ensures FullMatch(AnyPort, t).Some? ==> exists port :: IsEndpoint(t, "*", port)
  {
    hide Try;
    CatSteps(Mark(1, Lit("*")), Port, Done, t, 0, map[]);
    MarkSteps(1, Lit("*"), Then(Port, Done), t, 0, map[]);
    LitSteps('*', Close(1, 0, Then(Port, Done)), t, 0, map[]);
    if t != "" && t[0] == '*' {
      assert t[0..1] == "*";
      CloseSteps(1, 0, Then(Port, Done), t, 1, map[]);
      PortIff(t, 1, map[1 := "*"]);
      if FullMatch(AnyPort, t).Some? {
        var port :| PortTail(t[1..], port);
        assert IsEndpoint(t, "*", port);
      }
    }
  }

  const Rest: Cont := Then(Port, Done)

  lemma LastOctetStep(s: string, i: nat, caps: Captures)
    requires i <= |s|
    ensures var n := Run(DecDigit, s, i);
            Try(Then(Octet, Close(1, 0, Rest)), s, i, caps)
            == if 1 <= n <= 3 then Try(Rest, s, i + n, caps[1 := s[0..i + n]]) else None
  {
    hide Try, Run;
    var n := Run(DecDigit, s, i);
    forall e | i < e < i + n ensures Try(Close(1, 0, Rest), s, e, caps) == None {
      CloseSteps(1, 0, Rest, s, e, caps);
      DigitInside(s, i, e);
      PortStep(s, e, caps[1 := s[0..e]]);
    }
    DigitsStep(3, Close(1, 0, Rest), s, i, caps);
    CloseSteps(1, 0, Rest, s, i + n, caps);
  }

  /** Where an octet and its dot end, or None. */
  function AfterDot(s: string, i: nat): (j: Option<nat>)
    requires i <= |s|
    ensures j.Some? ==> i < j.value <= |s|
  {
    var n := Run(DecDigit, s, i);
    if 1 <= n <= 3 && i + n < |s| && s[i + n] == '.' then Some(i + n + 1) else None
  }

  /** Where the host ends, or None. */
  function HostEnd(s: string): (j: Option<nat>)
    ensures j.Some? ==> j.value <= |s|
  {
    match AfterDot(s, 0)
    case None => None
    case Some(i) =>
      match AfterDot(s, i)
      case None => None
      case Some(j) =>
        match AfterDot(s, j)
        case None => None
        case Some(k) =>
          var n := Run(DecDigit, s, k);
          if 1 <= n <= 3 then Some(k + n) else None
  }

  lemma Ipv4PortSteps(s: string)
    ensures FullMatch(Ipv4Port, s)
         == match HostEnd(s) case None => None case Some(j) => Try(Rest, s, j, map[1 := s[..j]])
  {
    hide Try, Run;
    var two := Cat(Dotted, Octet);
    var three := Cat(Dotted, two);
    var close := Close(1, 0, Rest);
    CatSteps(Mark(1, Cat(Dotted, three)), Port, Done, s, 0, map[]);
    MarkSteps(1, Cat(Dotted, three), Rest, s, 0, map[]);
    CatSteps(Dotted, three, close, s, 0, map[]);
    DottedStep(Then(three, close), s, 0, map[]);
    if AfterDot(s, 0).Some? {
      var i := AfterDot(s, 0).value;
      CatSteps(Dotted, two, close, s, i, map[]);
      DottedStep(Then(two, close), s, i, map[]);
      if AfterDot(s, i).Some? {
        var j := AfterDot(s, i).value;
        CatSteps(Dotted, Octet, close, s, j, map[]);
        DottedStep(Then(Octet, close), s, j, map[]);
        if AfterDot(s, j).Some? {
          var k := AfterDot(s, j).value;
          LastOctetStep(s, k, map[]);
          assert s[0..k + Run(DecDigit, s, k)] == s[..k + Run(DecDigit, s, k)];
        }
      }
    }
  }

  lemma HostEndIsHost(s: string)
    requires HostEnd(s).Some?
    ensures IsHost(s[..HostEnd(s).value])
  {
    hide Run, Host;
    var i := AfterDot(s, 0).value;
    var j := AfterDot(s, i).value;
    var k := AfterDot(s, j).value;
    var end := HostEnd(s).value;
    SliceDigits(s, 0);
    SliceDigits(s, i);
    SliceDigits(s, j);
    SliceDigits(s, k);
    assert FourOctets(s[0..i - 1], s[i..j - 1], s[j..k - 1], s[k..end]);
    HostOfSlices(s, i, j, k, end);
  }

  lemma HostOfSlices(s: string, i: nat, j: nat, k: nat, end: nat)
    requires 0 < i < j < k <= end <= |s| && s[i - 1] == s[j - 1] == s[k - 1] == '.'
    ensures s[..end] == Host(s[0..i - 1], s[i..j - 1], s[j..k - 1], s[k..end])
  {
  }

  lemma OctetAt(s: string, i: nat, a: string)
    requires ShortDigits(a, 3) && i + |a| < |s| && s[i..i + |a|] == a && s[i + |a|] == '.'
    ensures AfterDot(s, i) == Some(i + |a| + 1)
  {
    hide Run;
    RunOfDigits(s, i, a);
  }

  lemma HostIsHostEnd(s: string, a: string, b: string, c: string, d: string)
    requires FourOctets(a, b, c, d) && Host(a, b, c, d) <= s
    requires |Host(a, b, c, d)| < |s| ==> !IsDigit(s[|Host(a, b, c, d)|])
    ensures HostEnd(s) == Some(|Host(a, b, c, d)|)
  {
    hide Run, AfterDot;
    var h := Host(a, b, c, d);
    var i := |a| + 1;
    var j := i + |b| + 1;
    var k := j + |c| + 1;
    assert |h| == k + |d|;
    assert s[..|h|] == h;
    assert s[0..|a|] == h[0..|a|] == a && s[|a|] == h[|a|] == '.';
    assert s[i..i + |b|] == h[i..i + |b|] == b && s[i + |b|] == h[i + |b|] == '.';
    assert s[j..j + |c|] == h[j..j + |c|] == c && s[j + |c|] == h[j + |c|] == '.';
    assert s[k..|h|] == h[k..] == d;
    OctetAt(s, 0, a);
    OctetAt(s, i, b);
    OctetAt(s, j, c);
    RunOfDigits(s, k, d);
  }

  /** A connection is to four groups of digits, and takes them and the port after them. */
  lemma Ipv4PortIff(t: string)
    ensures forall host, port :: IsHost(host) && IsEndpoint(t, host, port) ==>
              FullMatch(Ipv4Port, t) == Some(map[1 := host, 2 := port])
    ensures FullMatch(Ipv4Port, t).Some? ==> exists host, port :: IsHost(host) && IsEndpoint(t, host, port)
  {
    hide Try, FullMatch, HostEnd, IsHost, PortTail;
    Ipv4PortSteps(t);
    forall host, port | IsHost(host) && IsEndpoint(t, host, port)
      ensures FullMatch(Ipv4Port, t) == Some(map[1 := host, 2 := port])
    {
      EndpointMatches(t, host, port);
    }
    if FullMatch(Ipv4Port, t).Some? {
      var j := HostEnd(t).value;
      HostEndIsHost(t);
      PortIff(t, j, map[1 := t[..j]]);
      var port :| PortTail(t[j..], port);
      assert IsEndpoint(t, t[..j], port);
    }
  }

  lemma EndpointMatches(t: string, host: string, port: string)
    requires IsHost(host) && IsEndpoint(t, host, port)
    ensures FullMatch(Ipv4Port, t) == Some(map[1 := host, 2 := port])
  {
    hide Try, FullMatch, HostEnd, Host;
    var a, b, c, d :| FourOctets(a, b, c, d) && host == Host(a, b, c, d);
    Ipv4PortSteps(t);
    PortIff(t, |host|, map[1 := host]);
    assert t[..|host|] == host;
    assert t[|host|..][0] == ("!" + port)[0];
    HostIsHostEnd(t, a, b, c, d);
  }

  // ----- The arguments of a request -----

  /** Some argument of an announcement is an address. */
  ghost predicate NamesPort(args: string) {
    exists t, port :: t in Tokens(args, ',') && IsEndpoint(t, "*", port)
  }

  /** Some argument of a connect is an address. */
  ghost predicate NamesHost(args: string) {
    exists t, host, port :: t in Tokens(args, ',') && IsHost(host) && IsEndpoint(t, host, port)
  }

  /** There is a target exactly when an argument has the form. */
  lemma TargetsIff(args: string)
    ensures Targets(args, AnyPort) != [] <==> NamesPort(args)
    ensures Targets(args, Ipv4Port) != [] <==> NamesHost(args)
  {
    hide Tokens, Matching, FullMatch, IsHost, IsEndpoint, Selects;
    var tokens := Tokens(args, ',');
    MatchingSelects(tokens, AnyPort);
    MatchingSelects(tokens, Ipv4Port);
    SomeArgument(Targets(args, AnyPort), tokens, AnyPort);
    SomeArgument(Targets(args, Ipv4Port), tokens, Ipv4Port);
    forall t ensures FullMatch(AnyPort, t).Some? <==> exists port :: IsEndpoint(t, "*", port) {
      AnyPortIff(t);
    }
    forall t ensures FullMatch(Ipv4Port, t).Some? <==> exists host, port :: IsHost(host) && IsEndpoint(t, host, port) {
      Ipv4PortIff(t);
    }
  }
}

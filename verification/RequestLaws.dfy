/** What each control request does to the session's socket and what it answers, over the table and the open sockets. */
module RequestLaws {
  import opened Options
  import opened Decimal
  import opened RequestParser
  import opened FdTable
  import opened Requests
  import opened Addresses

  ghost predicate Asks(request: string, command: string) {
    ScanRequest(request).Some? && ScanRequest(request).value.command == command
  }

  /** The session's socket is open, in that state. */
  ghost predicate Holds(n: Net, num: nat, st: SockState) {
    Dec(num) in n.table && n.table[Dec(num)] in n.sockets && n.sockets[n.table[Dec(num)]] == st
  }

  /** Nothing is in the way of asking for the state of the session's socket. */
  ghost predicate Readable(n: Net, num: nat, want: SockState, ans: Answers) {
    Dec(num) in n.table ==>
      && n.table[Dec(num)] in n.sockets
      && n.table[Dec(num)] !in (if want == Established then ans.connectedFails else ans.announcedFails)
  }

  /** A new socket took the session's place, and the old one is closed; or there is none, and table and sockets stay. */
  ghost predicate Replaced(n: Net, num: nat, r: Reply, st: SockState, ans: Answers) {
    if ans.fd.Some? then !r.threw && r.ret == 0 && Gains(n, r.net, Dec(num), ans.fd.value, st)
    else r.threw && Spared(n, r.net)
  }

  /** Asking changes nothing; it throws exactly when the state cannot be read, and says yes exactly in that state. */
  lemma AskMeans(n: Net, num: nat, request: string, want: SockState, ans: Answers)
    requires FreshAnswer(n, ans) && want != Other
    requires Asks(request, if want == Established then "is_connected" else "is_announced")
    ensures var r := Interpret(n, num, request, ans);
            && r.net == n && (r.threw <==> !Readable(n, num, want, ans))
            && (!r.threw ==> r.ret == if Holds(n, num, want) then 0 else -ENOTCONN)
  {
    hide Dec, ScanRequest, Targets, SetUp, FreshAnswer;
  }

  /** A hangup closes the session's socket and forgets it; whatever is asked next finds no socket. */
  lemma HangupMeans(n: Net, num: nat, request: string, ans: Answers)
    requires FreshAnswer(n, ans) && Owned(n) && Asks(request, "hangup")
    ensures var r := Interpret(n, num, request, ans);
            && !r.threw && r.ret == 0 && GivesUp(n, r.net, Dec(num))
            && forall want, next :: Probe(r.net, num, want, next) == Some(false)
  {
    hide Dec, ScanRequest, Targets, SetUp, FreshAnswer;
  }

  /**
   A connect throws when the state cannot be read, is refused exactly when the session is connected, and as not
   supported exactly when no argument is an address; otherwise it replaces the session's socket by a connected one.
   */
  lemma ConnectMeans(n: Net, num: nat, request: string, ans: Answers)
    requires FreshAnswer(n, ans) && Owned(n) && Asks(request, "connect")
    ensures var r := Interpret(n, num, request, ans);
            if !Readable(n, num, Established, ans) then r.threw && r.net == n
            else if Holds(n, num, Established) then !r.threw && r.ret == -EISCONN && r.net == n
            else if !NamesHost(ScanRequest(request).value.args) then !r.threw && r.ret == -ENOTSUP && r.net == n
            else Replaced(n, num, r, Established, ans)
  {
    hide Dec, ScanRequest, Targets, SetUp, FreshAnswer, Owned, NamesHost, NamesPort, Gains, Spared;
    TargetsIff(ScanRequest(request).value.args);
    SetUpGains(n, Dec(num), Established, ans);
  }

  /** An announcement replaces the session's socket by a listening one, unless no argument is an address. */
  lemma AnnounceMeans(n: Net, num: nat, request: string, ans: Answers)
    requires FreshAnswer(n, ans) && Owned(n) && Asks(request, "announce")
    ensures var r := Interpret(n, num, request, ans);
            if !NamesPort(ScanRequest(request).value.args) then !r.threw && r.ret == -ENOTSUP && r.net == n
            else Replaced(n, num, r, Listening, ans)
  {
    hide Dec, ScanRequest, Targets, SetUp, FreshAnswer, Owned, NamesHost, NamesPort, Gains, Spared;
    TargetsIff(ScanRequest(request).value.args);
    SetUpGains(n, Dec(num), Listening, ans);
  }

  /** Keepalive needs a socket, and throws when its options cannot be set. */
  lemma KeepaliveMeans(n: Net, num: nat, request: string, ans: Answers)
    requires FreshAnswer(n, ans) && Asks(request, "keepalive")
    ensures var r := Interpret(n, num, request, ans);
            && r.net == n && (r.threw <==> Dec(num) in n.table && ans.optFails)
            && (!r.threw ==> r.ret == if Dec(num) in n.table then 0 else -ENOTCONN)
  {
    hide Dec, ScanRequest, Targets, SetUp, FreshAnswer;
  }

  const COMMANDS: seq<string> := ["is_connected", "is_announced", "connect", "announce", "hangup", "keepalive"]

  /** Any other line, and one that does not parse, is answered as not supported. */
  lemma OthersAreRefused(n: Net, num: nat, request: string, ans: Answers)
    requires FreshAnswer(n, ans) && forall c :: c in COMMANDS ==> !Asks(request, c)
    ensures Interpret(n, num, request, ans) == Reply(n, false, -ENOTSUP)
  {
    hide Dec, ScanRequest, Targets, SetUp, FreshAnswer;
    var c := COMMANDS;
    assert c[0] in c && c[1] in c && c[2] in c && c[3] in c && c[4] in c && c[5] in c;
  }

  // ----- One request after another -----

  /** After a successful connect the session says it is connected, and refuses another one until it hangs up. */
  lemma ConnectedUntilHangup(n: Net, num: nat, connect: string, ans: Answers, line: string, next: Answers)
    requires FreshAnswer(n, ans) && Owned(n) && Asks(connect, "connect")
    requires var r := Interpret(n, num, connect, ans);
             !r.threw && r.ret == 0 && FreshAnswer(r.net, next) && Readable(r.net, num, Established, next)
    ensures var m := Interpret(n, num, connect, ans).net;
            && (Asks(line, "is_connected") ==> Interpret(m, num, line, next) == Reply(m, false, 0))
            && (Asks(line, "connect") ==> Interpret(m, num, line, next) == Reply(m, false, -EISCONN))
            && (Asks(line, "hangup") ==> !Holds(Interpret(m, num, line, next).net, num, Established))
  {
    hide Interpret, ScanRequest, NamesHost, Readable, FreshAnswer;
    ConnectMeans(n, num, connect, ans);
    var m := Interpret(n, num, connect, ans).net;
    RequestKeepsOwned(n, num, connect, ans);
    if Asks(line, "is_connected") {
      AskMeans(m, num, line, Established, next);
    }
    if Asks(line, "connect") {
      ConnectMeans(m, num, line, next);
    }
    if Asks(line, "hangup") {
      HangupMeans(m, num, line, next);
    }
  }

  lemma RequestKeepsOwned(n: Net, num: nat, request: string, ans: Answers)
    requires FreshAnswer(n, ans) && Owned(n)
    ensures Owned(Interpret(n, num, request, ans).net)
  {
    hide Interpret;
    RequestIsIsolated(n, num, request, ans);
  }
}

/**
 The control requests of a session, as a state machine over the descriptor table.
 */
module Requests {
  import opened Options
  import opened Decimal
  import opened Regex
  import opened RequestParser
  import opened FdTable

  const ENOTSUP: int := 95
  const ENOTCONN: int := 107
  const EISCONN: int := 106

  /**
   What the world outside answers during one call: the descriptors whose TCP state cannot be read when a
   request asks whether they are connected, and when one asks whether they are announced; the descriptor that a
   connect, listen or accept yields (None: it fails), and the sockets that were opened on the way to it and not
   closed; whether socket options fail; and at which of its five creations a session hook runs out of luck (None:
   at none). No call asks either question twice.
   */
  datatype Answers = Answers(connectedFails: set<int>, announcedFails: set<int>, fd: Option<int>, left: seq<Stray>,
                             optFails: bool, hookFault: Option<nat>)

  /** The descriptors whose state cannot be read when the question is about `want`. */
  function Unreadable(ans: Answers, want: SockState): set<int> {
    if want == Established then ans.connectedFails else ans.announcedFails
  }

  /** Descriptors the kernel hands out are not open. */
  predicate FreshAnswer(n: Net, ans: Answers) {
    && FreshStrays(n, ans.left)
    && (ans.fd.Some? ==> ans.fd.value !in n.sockets && ans.fd.value !in Fds(ans.left))
  }

  /**
   The sockets a setup leaves open. A connect goes through the addresses of the host and keeps the last one's
   socket only; a listen opens one socket, and forgets it when it cannot be bound.
   */
  function Strays(st: SockState, ans: Answers): seq<Stray> {
    if st == Established then ans.left
    else if ans.fd.Some? || ans.left == [] then []
    else [Stray(ans.left[0].fd, false)]
  }

  lemma StraysAreFresh(n: Net, st: SockState, ans: Answers)
    requires FreshAnswer(n, ans)
    ensures FreshStrays(n, Strays(st, ans)) && Fds(Strays(st, ans)) <= Fds(ans.left)
    ensures ans.fd.Some? ==> ans.fd.value !in LeaveOpen(n, Strays(st, ans)).sockets
  {
    if Strays(st, ans) != [] && st != Established {
      assert ans.left[0] in ans.left;
    }
  }

  /** A connect or a listen for a key: the strays stay open, and the new descriptor, if any, takes the key's place. */
  function SetUp(n: Net, key: string, st: SockState, ans: Answers): Net
    requires FreshAnswer(n, ans)
  {
    StraysAreFresh(n, st, ans);
    var m := LeaveOpen(n, Strays(st, ans));
    match ans.fd
    case None => m
    case Some(fd) => Insert(OpenSocket(m, fd, st), key, fd)
  }

  /** The state of a session's socket: None when reading it throws. A session without a socket has no state to read. */
  function Probe(n: Net, num: nat, want: SockState, ans: Answers): Option<bool> {
    if Dec(num) !in n.table then Some(false)
    else
      var fd := n.table[Dec(num)];
      if fd in Unreadable(ans, want) || fd !in n.sockets then None else Some(n.sockets[fd] == want)
  }

  const Octet: Re := Rep(DecDigit, 1, Some(3))
  const Dotted: Re := Cat(Octet, Lit("."))
  const Port: Re := Cat(Lit("!"), Cat(Mark(2, Rep(DecDigit, 1, Some(6))), Rep(Newline, 0, None)))
  const Ipv4Port: Re := Cat(Mark(1, Cat(Dotted, Cat(Dotted, Cat(Dotted, Octet)))), Port)
  const AnyPort: Re := Cat(Mark(1, Lit("*")), Port)

  function Targets(args: string, filter: Re): seq<Arg> {
    Matching(Tokens(args, ','), filter)
  }

  datatype Reply = Reply(net: Net, threw: bool, ret: int)

  /** ctl_op::interpret_request for session `num`. */
  function Interpret(n: Net, num: nat, request: string, ans: Answers): Reply
    requires FreshAnswer(n, ans)
  {
    match ScanRequest(request)
    case None => Reply(n, false, -ENOTSUP)
    case Some(p) =>
      if p.command == "is_connected" then ProbeReply(n, Probe(n, num, Established, ans))
      else if p.command == "is_announced" then ProbeReply(n, Probe(n, num, Listening, ans))
      else if p.command == "connect" then
        match Probe(n, num, Established, ans)
        case None => Reply(n, true, 0)
        case Some(connected) =>
          if connected then Reply(n, false, -EISCONN)
          else if Targets(p.args, Ipv4Port) == [] then Reply(n, false, -ENOTSUP)
          else Install(n, num, Established, ans)
      else if p.command == "announce" then
        if Targets(p.args, AnyPort) == [] then Reply(n, false, -ENOTSUP)
        else Install(n, num, Listening, ans)
      else if p.command == "hangup" then Reply(Erase(n, Dec(num)), false, 0)
      else if p.command == "keepalive" then
        if Dec(num) !in n.table then Reply(n, false, -ENOTCONN)
        else Reply(n, ans.optFails, 0)
      else Reply(n, false, -ENOTSUP)
  }

  function ProbeReply(n: Net, p: Option<bool>): Reply {
    match p
    case None => Reply(n, true, 0)
    case Some(yes) => Reply(n, false, if yes then 0 else -ENOTCONN)
  }

  /** Connect or listen, then put the new descriptor in the session's place. */
  function Install(n: Net, num: nat, st: SockState, ans: Answers): Reply
    requires FreshAnswer(n, ans)
  {
    Reply(SetUp(n, Dec(num), st, ans), ans.fd.None?, 0)
  }

  /** The setup that a request comes to, if it comes to one. */
  function SetupOf(n: Net, num: nat, request: string, ans: Answers): Option<SockState> {
    match ScanRequest(request)
    case None => None
    case Some(p) =>
      if p.command == "connect" && Probe(n, num, Established, ans) == Some(false) && Targets(p.args, Ipv4Port) != []
      then
        Some(Established)
      else if p.command == "announce" && Targets(p.args, AnyPort) != [] then Some(Listening)
      else None
  }

  /** A request sets up a socket, or erases its own entry, or changes nothing. */
  lemma InterpretBySetup(n: Net, num: nat, request: string, ans: Answers)
    requires FreshAnswer(n, ans)
    ensures var m := Interpret(n, num, request, ans).net;
            match SetupOf(n, num, request, ans)
            case Some(st) => m == SetUp(n, Dec(num), st, ans)
            case None => m == n || m == Erase(n, Dec(num))
  {
    hide Dec, ScanRequest, Targets, Insert, Erase, OpenSocket, Probe, SetUp;
  }

  /** An open socket that the table does not hold. */
  ghost predicate Unheld(n: Net, fd: int) {
    fd in n.sockets && forall k :: k in n.table ==> n.table[k] != fd
  }

  /** What a new net differs from the old one in: one table entry, and the socket that entry held. */
  ghost predicate OnlyKeyChanged(n: Net, m: Net, key: string) {
    && (forall k :: k != key ==> Find(m, k) == Find(n, k))
    && (m.deaths == n.deaths ||
        (key in n.table && n.table[key] in n.sockets &&
         m.deaths == n.deaths + [(n.table[key], n.sockets[n.table[key]])]))
    && (Owned(n) ==> Owned(m))
    && (forall fd :: Unheld(n, fd) ==> Unheld(m, fd))
  }

  lemma EraseIsIsolated(n: Net, key: string)
    ensures OnlyKeyChanged(n, Erase(n, key), key)
  {
  }

  lemma InstallIsIsolated(n: Net, key: string, fd: int, st: SockState)
    requires Owned(n) && fd !in n.sockets
    ensures OnlyKeyChanged(n, Insert(OpenSocket(n, fd, st), key, fd), key)
  {
    InsertKeepsOwned(OpenSocket(n, fd, st), key, fd);
  }

  /**
   Isolation: a request touches at most its own session's entry; what it closes is what that entry held; table
   values stay open and distinct. When it answers with an error it changes nothing; when it throws, the table and the
   sockets that were open are as before, and what else is open are the strays of its setup.
   */
  lemma RequestIsIsolated(n: Net, num: nat, request: string, ans: Answers)
    requires FreshAnswer(n, ans) && Owned(n)
    ensures var r := Interpret(n, num, request, ans);
            && OnlyKeyChanged(n, r.net, Dec(num))
            && (r.ret < 0 ==> r.net == n && !r.threw)
            && (r.threw ==>
                  && r.net.table == n.table && r.net.deaths == n.deaths
                  && (forall x :: x in n.sockets ==> x in r.net.sockets && r.net.sockets[x] == n.sockets[x])
                  && (forall x :: x in r.net.sockets && x !in n.sockets ==> x in Fds(ans.left)))
  {
    hide Dec, ScanRequest, Targets, Insert, Erase, OpenSocket, Probe, OnlyKeyChanged, SetUp, FreshAnswer;
    UnchangedIsIsolated(n, Dec(num));
    EraseIsIsolated(n, Dec(num));
    SetUpIsIsolated(n, Dec(num), Established, ans);
    SetUpIsIsolated(n, Dec(num), Listening, ans);
  }

  lemma SetUpIsIsolated(n: Net, key: string, st: SockState, ans: Answers)
    requires FreshAnswer(n, ans) && Owned(n)
    ensures var m := SetUp(n, key, st, ans);
            && OnlyKeyChanged(n, m, key)
            && (ans.fd.None? ==>
                  && m.table == n.table && m.deaths == n.deaths
                  && (forall x :: x in n.sockets ==> x in m.sockets && m.sockets[x] == n.sockets[x])
                  && (forall x :: x in m.sockets && x !in n.sockets ==> x in Fds(ans.left)))
  {
    hide Insert, OnlyKeyChanged, Strays, FreshStrays, LeaveOpen;
    StraysAreFresh(n, st, ans);
    var m := LeaveOpen(n, Strays(st, ans));
    StraysAreIsolated(n, Strays(st, ans), key);
    if ans.fd.Some? {
      InstallIsIsolated(m, key, ans.fd.value, st);
      IsolatedAfter(n, m, Insert(OpenSocket(m, ans.fd.value, st), key, ans.fd.value), key);
    }
  }

  lemma StraysAreIsolated(n: Net, left: seq<Stray>, key: string)
    requires FreshStrays(n, left)
    ensures OnlyKeyChanged(n, LeaveOpen(n, left), key) && (Owned(n) ==> Owned(LeaveOpen(n, left)))
  {
    hide FreshStrays;
  }

  /** Opening strays first makes no difference to what is isolated. */
  lemma IsolatedAfter(n: Net, m: Net, r: Net, key: string)
    requires Owned(n) && OnlyKeyChanged(n, m, key) && OnlyKeyChanged(m, r, key)
    requires m.table == n.table && m.deaths == n.deaths
    requires forall x :: x in n.sockets ==> x in m.sockets && m.sockets[x] == n.sockets[x]
    ensures OnlyKeyChanged(n, r, key)
  {
  }

  lemma UnchangedIsIsolated(n: Net, key: string)
    ensures OnlyKeyChanged(n, n, key)
  {
  }

  // ----- What becomes of a key and its socket -----

  /** The sockets that were open and are not the key's are open, in the same states. */
  ghost predicate OthersStay(n: Net, m: Net, key: string) {
    forall x :: x in n.sockets && Find(n, key) != Some(x) ==> x in m.sockets && m.sockets[x] == n.sockets[x]
  }

  /** The socket under the key, if any, is closed, and the key is gone; all other sockets and keys stay. */
  ghost predicate GivesUp(n: Net, m: Net, key: string) {
    m.table == n.table - {key} && (key in n.table ==> n.table[key] !in m.sockets) && OthersStay(n, m, key)
  }

  /** An open socket in that state is under the key, and the one that was is closed; all others stay. */
  ghost predicate Gains(n: Net, m: Net, key: string, fd: int, st: SockState) {
    && m.table == n.table[key := fd] && fd in m.sockets && m.sockets[fd] == st
    && (key in n.table ==> n.table[key] !in m.sockets) && OthersStay(n, m, key)
  }

  /** The table and what was open are as before. */
  ghost predicate Spared(n: Net, m: Net) {
    m.table == n.table && forall x :: x in n.sockets ==> x in m.sockets && m.sockets[x] == n.sockets[x]
  }

  lemma EraseGivesUp(n: Net, key: string)
    ensures GivesUp(n, Erase(n, key), key)
  {
  }

  /** A setup that yields a socket puts it under the key; one that fails leaves table and sockets alone. */
  lemma SetUpGains(n: Net, key: string, st: SockState, ans: Answers)
    requires FreshAnswer(n, ans) && Owned(n)
    ensures var m := SetUp(n, key, st, ans);
            if ans.fd.Some? then Gains(n, m, key, ans.fd.value, st) else Spared(n, m)
  {
    hide FreshStrays, Strays, LeaveOpen, Owned;
    StraysAreFresh(n, st, ans);
    if ans.fd.Some? {
      HeldIsOpen(n, key, ans.fd.value, ans);
      InsertReplaces(OpenSocket(LeaveOpen(n, Strays(st, ans)), ans.fd.value, st), key, ans.fd.value);
    }
  }

  lemma HeldIsOpen(n: Net, key: string, fd: int, ans: Answers)
    requires FreshAnswer(n, ans) && Owned(n) && ans.fd == Some(fd)
    ensures key in n.table ==> n.table[key] in n.sockets && n.table[key] != fd
  {
  }

  lemma InsertReplaces(m: Net, key: string, fd: int)
    requires fd in m.sockets && (key in m.table ==> m.table[key] != fd)
    ensures var r := Insert(m, key, fd);
            && r.table == m.table[key := fd]
            && (forall x :: x in r.sockets <==> x in m.sockets && !(key in m.table && m.table[key] == x))
            && (forall x :: x in r.sockets ==> r.sockets[x] == m.sockets[x])
  {
    assert (m.table - {key})[key := fd] == m.table[key := fd];
  }
}

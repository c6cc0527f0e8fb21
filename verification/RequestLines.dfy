/** Three request lines of a client, and how they are read. */
module RequestLines {
  import opened Options
  import opened Strings
  import opened Regex
  import opened RequestParser
  import opened Requests
  import opened Addresses

  const PORT_80: string := "*!80"
  const LOCALHOST: string := "127.0.0.1!7"
  const ANNOUNCE: string := "announce" + " " + PORT_80
  const CONNECT: string := "connect" + " " + LOCALHOST

  lemma OneToken(a: string)
    requires a != "" && Lacks(a, ',')
    ensures Tokens(a, ',') == [a]
  {
    FindIs(a, ',', 0, |a|);
    TokensStep(a, ',', 0);
    TokensStep(a, ',', |a|);
    assert a[0..|a|] == a;
  }

  lemma Scans(command: string, a: string)
    requires IsCommandWord(command) && a != "" && Lacks(a, '\n') && !Member(a[0], Blank)
    ensures ScanRequest(command + " " + a) == Some(Parsed(command, a))
  {
    hide ScanRequest;
    ReadsLine(command, a);
    assert Run(Blank, a, 0) == 0;
    assert a[0..] == a;
  }

  lemma AnnounceReads()
    ensures ScanRequest(ANNOUNCE) == Some(Parsed("announce", PORT_80)) && Targets(PORT_80, AnyPort) != []
  {
    hide ScanRequest, Tokens, Targets;
    Scans("announce", PORT_80);
    OneToken(PORT_80);
    assert PORT_80[1..] == "!80" && "!80"[1..] == "80" && "!" + "80" == "!80";
    assert IsEndpoint(PORT_80, "*", "80");
    assert PORT_80 in Tokens(PORT_80, ',');
    TargetsIff(PORT_80);
  }

  lemma ConnectReads()
    ensures ScanRequest(CONNECT) == Some(Parsed("connect", LOCALHOST)) && Targets(LOCALHOST, Ipv4Port) != []
  {
    hide ScanRequest, Tokens, Targets;
    Scans("connect", LOCALHOST);
    OneToken(LOCALHOST);
    assert FourOctets("127", "0", "0", "1") && Host("127", "0", "0", "1") == "127.0.0.1";
    assert LOCALHOST[9..] == "!7" && "!" + "7" == "!7";
    assert IsHost("127.0.0.1") && IsEndpoint(LOCALHOST, "127.0.0.1", "7");
    assert LOCALHOST in Tokens(LOCALHOST, ',');
    TargetsIff(LOCALHOST);
  }

  /** An argument without the form of an address is no target. */
  lemma FooIsNoTarget()
    ensures Targets("foo", AnyPort) == [] && Targets("foo", Ipv4Port) == []
  {
    hide Tokens, Targets, IsHost;
    OneToken("foo");
    TargetsIff("foo");
    assert forall t :: t in Tokens("foo", ',') ==> t == "foo";
    assert "foo"[0] != "*"[0];
    assert !("*" <= "foo");
    forall host, port | IsHost(host) ensures !IsEndpoint("foo", host, port) {
      HostIsNotFoo(host);
    }
  }

  lemma HostIsNotFoo(host: string)
    requires IsHost(host)
    ensures !(host <= "foo")
  {
    var a, b, c, d :| FourOctets(a, b, c, d) && host == Host(a, b, c, d);
    assert |host| > 3;
  }
}

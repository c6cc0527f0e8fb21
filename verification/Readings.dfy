/**
 What a handle tells over a run: a control handle tells its session's number once, also through the clone that owns it,
 and a listen handle accepts once.
 */
module Readings {
  import opened Decimal
  import opened Paths
  import opened Routes
  import opened Sessions
  import opened FdTable
  import opened Requests
  import opened Protocol
  import opened ProtocolInvariant
  import opened ProtocolSteps

  /** A read of g is a read through h: g is h, or the clone that owns it. */
  ghost predicate Speaks(w: World, g: int, h: int) {
    g == h || (g in w.handles && w.handles[g] == CloneOp(h))
  }

  ghost predicate ReadsThrough(w: World, a: Action, h: int) {
    a.Read? && Speaks(w, a.h, h)
  }

  /** The call closes h. */
  ghost predicate Ends(w: World, a: Action, h: int) {
    a.Close? && Speaks(w, a.h, h)
  }

  // ----- One call -----

  /** A read of a control handle gives its number and a newline, once; a buffer too small for them is an error. */
  lemma ReadOfCtl(w: World, g: int, h: int, size: nat, ans: Answers)
    requires FreshAnswer(w.net, ans) && h in w.handles && w.handles[h].CtlOp? && g in w.handles && Speaks(w, g, h)
    ensures var r := ReadSpec(w, g, size, ans);
            var line := Dec(w.handles[h].n) + "\n";
            if w.handles[h].told then r.r == Text("") && r.w == w
            else if size < |line| then r.r == Result.Code(-ENOBUFS) && r.w == w
            else r.r == Text(line) && r.w == w.(handles := w.handles[h := CtlOp(w.handles[h].n, true)])
  {
    hide Dec, DirNumber, AcceptSpec;
  }

  /** Reading a second time, through the handle or through its clone, is at the end of the file. */
  lemma SecondReadIsEmpty(w: World, g: int, h: int, size: nat, ans: Answers, g2: int, size2: nat, ans2: Answers)
    requires FreshAnswer(w.net, ans) && h in w.handles && w.handles[h].CtlOp? && g in w.handles && Speaks(w, g, h)
    requires var r := ReadSpec(w, g, size, ans);
             r.r.Text? && FreshAnswer(r.w.net, ans2) && g2 in r.w.handles && Speaks(r.w, g2, h)
    ensures ReadSpec(ReadSpec(w, g, size, ans).w, g2, size2, ans2).r == Text("")
  {
    hide ReadSpec, FreshAnswer;
    ReadOfCtl(w, g, h, size, ans);
    ReadOfCtl(ReadSpec(w, g, size, ans).w, g2, h, size2, ans2);
  }

  /**
   A read of a session's listen file: refused without a socket, at the end of the file when this handle has accepted,
   and failing without a connection. Of the other ways out, only text uses the handle up.
   */
  lemma ReadOfListen(w: World, h: int, d: string, once: bool, size: nat, ans: Answers)
    requires Inv(w) && FreshAnswer(w.net, ans) && IsNumeral(d)
    requires h in w.handles && w.handles[h] == ListenOp(SessionFilePath(d, Listen), once)
    ensures var r := ReadSpec(w, h, size, ans);
            if d !in w.net.table then r.r == Result.Code(-ENOTCONN) && r.w == w
            else if once then r.r == Text("") && r.w == w
            else if ans.fd.None? then r.r == Threw && r.w == w
            else
              var line := Dec(r.w.current) + "\n";
              match r.r
              case Text(s) =>
                && s == line && |line| <= size && |line| <= CLONE_BUFFER
                && r.w.handles == w.handles[h := ListenOp(SessionFilePath(d, Listen), true)]
              case Code(x) => x == -ENAMETOOLONG && size < |line| <= CLONE_BUFFER && r.w.handles == w.handles
              case Threw => r.w.handles == w.handles
              case Elsewhere => false
  {
    hide Inv, Dec, DirNumber, SessionFilePath, AcceptedSpec, FreshAnswer, IsNumeral;
    KeysAgreeIff(d, Listen);
    if ans.fd.Some? {
      FdIsNew(w, ans);
      var u := w.(net := OpenSocket(w.net, ans.fd.value, Established));
      AcceptedTells(u, h, SessionFilePath(d, Listen), ans.fd.value, size, ans);
    }
  }

  lemma FdIsNew(w: World, ans: Answers)
    requires Inv(w) && FreshAnswer(w.net, ans)
    ensures ans.fd.Some? ==>
              ans.fd.value !in w.net.sockets && Inv(w.(net := OpenSocket(w.net, ans.fd.value, Established)))
  {
    hide Inv;
    if ans.fd.Some? {
      OpenKeeps(w, ans.fd.value, Established);
    }
  }

  lemma AcceptedTells(w: World, h: int, path: string, fd: int, size: nat, ans: Answers)
    requires Inv(w) && h in w.handles && w.handles[h].ListenOp?
    ensures var r := AcceptedSpec(w, h, path, fd, size, ans);
            var line := Dec(r.w.current) + "\n";
            match r.r
            case Text(s) =>
              && s == line && |line| <= size && |line| <= CLONE_BUFFER
              && r.w.handles == w.handles[h := ListenOp(path, true)]
            case Code(x) => x == -ENAMETOOLONG && size < |line| <= CLONE_BUFFER && r.w.handles == w.handles
            case Threw => r.w.handles == w.handles
            case Elsewhere => false
    ensures w.last <= AcceptedSpec(w, h, path, fd, size, ans).w.last
  {
    hide Inv, Dec, OpenClone, CloseSpec, HasSession, InUse, FdTable.Insert;
    if CLONE in w.tree && !w.tree[CLONE].isDir {
      OpenCloneKeeps(w, ans);
      var o := OpenClone(w, ans);
      if o.h.Some? {
        CloseAfterClone(w, o);
      }
    }
  }

  /**
   A write through a control handle or its clone is a request of that session, answered with the text's length when it
   succeeds; a listen file refuses every write.
   */
  lemma WriteOfCtl(w: World, g: int, h: int, text: string, ans: Answers)
    requires FreshAnswer(w.net, ans) && h in w.handles && w.handles[h].CtlOp? && g in w.handles && Speaks(w, g, h)
    ensures var r := WriteSpec(w, g, text, ans);
            var reply := Interpret(w.net, w.handles[h].n, text, ans);
            && r.w == w.(net := reply.net)
            && (r.r == Threw <==> reply.threw)
            && (!reply.threw && reply.ret == 0 ==> r.r == Result.Code(|text|))
            && (!reply.threw && reply.ret != 0 ==> r.r == Result.Code(reply.ret) && reply.ret < 0)
    ensures forall l :: l in w.handles && w.handles[l].ListenOp? ==>
              WriteSpec(w, l, text, ans) == Protocol.Done(w, Result.Code(-EPERM))
  {
    hide Dec, Probe, Targets, SetUp, FreshAnswer;
  }

  /** Reads and writes of any other open file are about bytes, in a file or the network; without a handle they throw. */
  lemma OtherHandles(w: World, h: int, size: nat, text: string, ans: Answers)
    requires FreshAnswer(w.net, ans)
    requires h in w.handles ==> !w.handles[h].CtlOp? && !w.handles[h].CloneOp? && !w.handles[h].ListenOp?
    ensures ReadSpec(w, h, size, ans) == Protocol.Done(w, if h in w.handles then Elsewhere else Threw)
    ensures WriteSpec(w, h, text, ans) == Protocol.Done(w, if h in w.handles then Elsewhere else Threw)
  {
  }

  // ----- What the calls of others do to a handle -----

  /** A call that neither reads through the handle nor closes it leaves it as it is. */
  lemma OthersLeaveHandle(w: World, a: Action, ans: Answers, h: int)
    requires Inv(w) && Allowed(w, a, ans) && h in w.handles && !w.handles[h].CloneOp?
    requires !ReadsThrough(w, a, h) && !Ends(w, a, h)
    ensures h in Do(w, a, ans).handles && Do(w, a, ans).handles[h] == w.handles[h]
  {
    hide Inv, OpenSpec, ReadSpec, Interpret, Str, KindAt, DirNumber, FreshAnswer;
    match a
    case OpenFile(c) => OpenLeavesHandle(w, c, ans, h);
    case Read(g, size, _) => ReadLeavesHandle(w, g, size, ans, h);
    case _ =>
  }

  lemma OpenLeavesHandle(w: World, c: Path, ans: Answers, h: int)
    requires Inv(w) && FreshAnswer(w.net, ans) && h in w.handles
    ensures var u := OpenSpec(w, c, ans).w; h in u.handles && u.handles[h] == w.handles[h]
  {
    hide Inv, Dec, OpenClone, HasSession, InUse, Str, KindAt, DirNumber, CtlNumber, FreshAnswer;
    BelowLast(w, h);
    if c in w.tree && !w.tree[c].isDir && KindAt(c, false) == Clone {
      CloneIsThere(w, c);
      OpenCloneKeeps(w, ans);
    }
  }

  lemma BelowLast(w: World, h: int)
    requires Inv(w) && h in w.handles
    ensures h <= w.last
  {
  }

  lemma ReadLeavesHandle(w: World, g: int, size: nat, ans: Answers, h: int)
    requires Inv(w) && FreshAnswer(w.net, ans) && h in w.handles && !w.handles[h].CloneOp? && !Speaks(w, g, h)
    ensures var u := ReadSpec(w, g, size, ans).w; h in u.handles && u.handles[h] == w.handles[h]
  {
    hide Inv, Dec, AcceptedSpec, DirNumber, FreshAnswer;
    if g in w.handles && w.handles[g].ListenOp? && ans.fd.Some? {
      FdIsNew(w, ans);
      AcceptedTells(w.(net := OpenSocket(w.net, ans.fd.value, Established)), g, w.handles[g].path, ans.fd.value, size,
                    ans);
    }
  }

  // ----- Runs -----

  /** What the call tells through h, if it is anything. */
  ghost function Told(w: World, c: Call, h: int): seq<string>
    requires FreshAnswer(w.net, c.ans)
  {
    if !ReadsThrough(w, c.a, h) then []
    else
      match ReadSpec(w, c.a.h, c.a.size, c.ans).r
      case Text(s) => if s == "" then [] else [s]
      case _ => []
  }

  /** All that a run tells through h. */
  ghost function AllTold(w: World, run: seq<Call>, h: int): seq<string>
    requires AllowedRun(w, run)
    decreases run
  {
    if run == [] then [] else Told(w, run[0], h) + AllTold(Do(w, run[0].a, run[0].ans), run[1..], h)
  }

  /** No call of the run closes h. */
  ghost predicate StaysOpen(w: World, run: seq<Call>, h: int)
    requires AllowedRun(w, run)
    decreases run
  {
    run != [] ==> !Ends(w, run[0].a, h) && StaysOpen(Do(w, run[0].a, run[0].ans), run[1..], h)
  }

  /** Some call of the run reads through h with room for that many characters. */
  ghost predicate SomeRoomyRead(w: World, run: seq<Call>, h: int, room: nat)
    requires AllowedRun(w, run)
    decreases run
  {
    && run != []
    && ( (ReadsThrough(w, run[0].a, h) && room <= run[0].a.size)
         || SomeRoomyRead(Do(w, run[0].a, run[0].ans), run[1..], h, room))
  }

  lemma CallOfCtl(w: World, c: Call, h: int)
    requires Inv(w) && Allowed(w, c.a, c.ans) && h in w.handles && w.handles[h].CtlOp? && !Ends(w, c.a, h)
    ensures var u := Do(w, c.a, c.ans);
            var line := Dec(w.handles[h].n) + "\n";
            var tells := !w.handles[h].told && ReadsThrough(w, c.a, h) && |line| <= c.a.size;
            && h in u.handles && u.handles[h] == CtlOp(w.handles[h].n, w.handles[h].told || tells)
            && Told(w, c, h) == if tells then [line] else []
  {
    hide Inv, ReadSpec, Dec, FreshAnswer, Speaks;
    if ReadsThrough(w, c.a, h) {
      SpeakerIsThere(w, c.a.h, h);
      ReadOfCtl(w, c.a.h, h, c.a.size, c.ans);
    } else {
      OthersLeaveHandle(w, c.a, c.ans, h);
    }
  }

  lemma SpeakerIsThere(w: World, g: int, h: int)
    requires h in w.handles && Speaks(w, g, h)
    ensures g in w.handles
  {
  }

  /**
   Over any run that does not close it, a control handle tells its session's number and a newline exactly once if some
   read has room for them, and nothing else; a handle that told already tells nothing.
   */
  lemma {:induction false} NumberIsToldOnce(w: World, run: seq<Call>, h: int)
    requires Inv(w) && AllowedRun(w, run) && StaysOpen(w, run, h) && h in w.handles && w.handles[h].CtlOp?
    ensures var line := Dec(w.handles[h].n) + "\n";
            AllTold(w, run, h)
            == if !w.handles[h].told && SomeRoomyRead(w, run, h, |line|) then [line] else []
    decreases run
  {
    hide Inv, Do, Told, ReadsThrough, Ends, Dec, Allowed;
    if run != [] {
      CallMayRun(w, run);
      CallOfCtl(w, run[0], h);
      CallKeeps(w, run[0].a, run[0].ans);
      NumberIsToldOnce(Do(w, run[0].a, run[0].ans), run[1..], h);
    }
  }

  lemma CallMayRun(w: World, run: seq<Call>)
    requires AllowedRun(w, run) && run != []
    ensures Allowed(w, run[0].a, run[0].ans) && FreshAnswer(w.net, run[0].ans)
  {
  }

  /** Only a read that tells something uses a listen handle up, and one that is used up tells nothing. */
  lemma ReadUsesUp(w: World, h: int, size: nat, ans: Answers)
    requires Inv(w) && FreshAnswer(w.net, ans) && h in w.handles && w.handles[h].ListenOp?
    ensures var r := ReadSpec(w, h, size, ans);
            var path := w.handles[h].path;
            if r.r.Text? && r.r.s != "" then !w.handles[h].once && r.w.handles == w.handles[h := ListenOp(path, true)]
            else r.w.handles == w.handles
  {
    hide Inv, Dec, DirNumber, AcceptedSpec, FreshAnswer;
    if ans.fd.Some? {
      FdIsNew(w, ans);
      AcceptedTells(w.(net := OpenSocket(w.net, ans.fd.value, Established)), h, w.handles[h].path, ans.fd.value, size,
                    ans);
    }
  }

  lemma CallOfListen(w: World, c: Call, h: int)
    requires Inv(w) && Allowed(w, c.a, c.ans) && h in w.handles && c.a != Close(h) && w.handles[h].ListenOp?
    ensures var u := Do(w, c.a, c.ans);
            var told := Told(w, c, h);
            && h in u.handles && u.handles[h] == ListenOp(w.handles[h].path, w.handles[h].once || told != [])
            && |told| <= 1 && (w.handles[h].once ==> told == [])
  {
    hide Inv, ReadSpec, FreshAnswer;
    NoCloneOwns(w, h);
    if ReadsThrough(w, c.a, h) {
      ReadUsesUp(w, h, c.a.size, c.ans);
    } else {
      OthersLeaveHandle(w, c.a, c.ans, h);
    }
  }

  lemma NoCloneOwns(w: World, h: int)
    requires Inv(w) && h in w.handles && !w.handles[h].CtlOp?
    ensures forall g :: Speaks(w, g, h) ==> g == h
  {
  }

  /** Over any run that does not close it, a listen handle accepts at most once, and never again once it has. */
  lemma {:induction false} AcceptsOnce(w: World, run: seq<Call>, h: int)
    requires Inv(w) && AllowedRun(w, run) && StaysOpen(w, run, h) && h in w.handles && w.handles[h].ListenOp?
    ensures var u := Exec(w, run);
            var told := AllTold(w, run, h);
            && h in u.handles && u.handles[h] == ListenOp(w.handles[h].path, w.handles[h].once || told != [])
            && |told| <= 1 && (w.handles[h].once ==> told == [])
    decreases run
  {
    hide Inv, Do, Told, Allowed;
    if run != [] {
      CallMayRun(w, run);
      CallOfListen(w, run[0], h);
      CallKeeps(w, run[0].a, run[0].ans);
      AcceptsOnce(Do(w, run[0].a, run[0].ans), run[1..], h);
    }
  }
}

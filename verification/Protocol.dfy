/**
 The TCP session protocol as one state machine: the tree, the open handles, the descriptor
 table and the session counter, and the net effect of every call a client can make.
 */
module Protocol {
  import opened Options
  import opened Decimal
  import opened Paths
  import opened FlatTree
  import opened Routes
  import opened Sessions
  import opened FdTable
  import opened Requests

  const EPERM: int := 1
  const ENOENT: int := 2
  const ENOBUFS: int := 105
  const ENAMETOOLONG: int := 36

  /** What an open handle is: an operation object with its own state. */
  datatype Op =
    | Plain                               // a default file
    | CtlOp(n: nat, told: bool)           // a control file of session n; told: its number was read
    | CloneOp(ctl: int)                   // a clone, owning the handle of a control file
    | ListenOp(path: string, once: bool)  // a listen file; once: it accepted already
    | SocketOp(fd: int)                   // data, local, remote and client files: a socket number
    | ConnOp(fd: int)                     // a server file: an accepted connection

  /** `handed` is the history of session numbers given out by clone. */
  datatype World = World(tree: Shape, handles: map<int, Op>, last: int, net: Net, current: nat, handed: seq<nat>)

  // ----- Opening -----

  datatype Opened = Opened(w: World, h: Option<int>)

  function Register(w: World, op: Op): Opened {
    Opened(w.(handles := w.handles[w.last + 1 := op], last := w.last + 1), Some(w.last + 1))
  }

  /** The operation's open failed: its handle is taken back, its number is used up. */
  function Failed(w: World): Opened {
    Opened(w.(last := w.last + 1), None)
  }

  /** Asking a session's control file through a handle of its own; the cast of its number to int may throw. */
  function ProbeSession(w: World, n: nat, want: SockState, ans: Answers): Option<bool> {
    if n > INT_MAX then None else Probe(w.net, n, want, ans)
  }

  /** The clone file opened for session n: the directory is created if it is not there, and its control file opened. */
  function Allocate(w: World, n: nat, ans: Answers): Opened {
    var d := Dec(n);
    if DirOf(d) !in w.tree && Faulty(ans.hookFault, 0) then Failed(w)
    else
      var t := if DirOf(d) in w.tree then w.tree else WithSession(w.tree, d);
      if FileOf(d, Ctl) !in t || t[FileOf(d, Ctl)].isDir then Failed(w.(tree := t))
      else if n > INT_MAX then Failed(Failed(w.(tree := t)).w)
      else
        var clone, ctl := w.last + 1, w.last + 2;
        Opened(w.(tree := t, handles := w.handles[clone := CloneOp(ctl)][ctl := CtlOp(n, false)],
                  last := ctl, handed := w.handed + [n]),
               Some(clone))
  }

  /** Opening clone: the current session is used again unless it is connected or announced. */
  function OpenClone(w: World, ans: Answers): Opened {
    var n := w.current;
    if FileOf(Dec(n), Ctl) !in w.tree then Allocate(w, n, ans)
    else
      match ProbeSession(w, n, Established, ans)
      case None => Failed(w)
      case Some(connected) =>
        match ProbeSession(w, n, Listening, ans)
        case None => Failed(Failed(w).w)
        case Some(announced) =>
          var probed := w.(last := w.last + 2);
          if connected || announced then Allocate(probed.(current := n + 1), n + 1, ans)
          else Allocate(probed, n, ans)
  }

  function OpenSocketOp(w: World, key: Option<string>): Opened {
    if key.Some? && key.value in w.net.table then Register(w, SocketOp(w.net.table[key.value])) else Failed(w)
  }

  function OpenSpec(w: World, c: Path, ans: Answers): Opened
    requires FreshAnswer(w.net, ans)
  {
    if c !in w.tree || w.tree[c].isDir then Opened(w, None)
    else
      match KindAt(c, false)
      case Clone => OpenClone(w, ans)
      case FileDefault => Register(w, Plain)
      case File(Ctl) =>
        (match CtlNumber(Str(c))
         case None => Failed(w)
         case Some(n) => Register(w, CtlOp(n, false)))
      case File(Listen) => Register(w, ListenOp(Str(c), false))
      case File(_) => OpenSocketOp(w, DirNumber(Str(c)))
      case Client => OpenSocketOp(w, Some(Str(c)))
      case Server =>
        if Str(c) !in w.net.table || ans.fd.None? then Failed(w)
        else Register(w.(net := OpenSocket(w.net, ans.fd.value, Established)), ConnOp(ans.fd.value))
      case _ => Opened(w, None)
  }

  // ----- Closing -----

  function CloseSpec(w: World, h: int): World {
    if h !in w.handles then w
    else
      match w.handles[h]
      case CloneOp(ctl) => w.(handles := w.handles - {h, ctl})
      case ConnOp(fd) => w.(handles := w.handles - {h}, net := CloseSocket(w.net, fd))
      case _ => w.(handles := w.handles - {h})
  }

  // ----- Reading and writing -----

  /** Text, an error code, an exception, or bytes that come from a file's data or from the network. */
  datatype Result = Text(s: string) | Code(ret: int) | Threw | Elsewhere

  datatype Done = Done(w: World, r: Result)

  function ReadCtl(w: World, h: int, size: nat): Done {
    if h !in w.handles || !w.handles[h].CtlOp? then Done(w, Threw)
    else
      var op := w.handles[h];
      var line := Dec(op.n) + "\n";
      if op.told then Done(w, Text(""))
      else if |line| > size then Done(w, Code(-ENOBUFS))
      else Done(w.(handles := w.handles[h := CtlOp(op.n, true)]), Text(line))
  }

  const CLONE_BUFFER: nat := 64

  /** The accepted socket is closed again when something throws after the accept. */
  function DropSocket(w: World, fd: int): Done {
    Done(w.(net := CloseSocket(w.net, fd)), Threw)
  }

  /** Reading a listen file: accept, open clone, read the new number, close clone, insert. */
  function AcceptSpec(w: World, h: int, path: string, once: bool, size: nat, ans: Answers): Done
    requires FreshAnswer(w.net, ans)
  {
    match DirNumber(path)
    case None => Done(w, Threw)
    case Some(key) =>
      if key !in w.net.table then Done(w, Code(-ENOTCONN))
      else if once then Done(w, Text(""))
      else
        match ans.fd
        case None => Done(w, Threw)
        case Some(fd) => AcceptedSpec(w.(net := OpenSocket(w.net, fd, Established)), h, path, fd, size, ans)
  }

  function AcceptedSpec(w: World, h: int, path: string, fd: int, size: nat, ans: Answers): Done {
    var o := if CLONE in w.tree && !w.tree[CLONE].isDir then OpenClone(w, ans) else Opened(w, None);
    if o.h.None? then DropSocket(o.w, fd)
    else
      var n := o.w.current;
      var line := Dec(n) + "\n";
      var w' := CloseSpec(o.w, o.h.value);
      if |line| > CLONE_BUFFER then DropSocket(w', fd)
      else if size < |line| then Done(w', Code(-ENAMETOOLONG))
      else Done(w'.(net := Insert(w'.net, Dec(n), fd), handles := w'.handles[h := ListenOp(path, true)]), Text(line))
  }

  function ReadSpec(w: World, h: int, size: nat, ans: Answers): Done
    requires FreshAnswer(w.net, ans)
  {
    if h !in w.handles then Done(w, Threw)
    else
      match w.handles[h]
      case CtlOp(_, _) => ReadCtl(w, h, size)
      case CloneOp(ctl) => ReadCtl(w, ctl, size)
      case ListenOp(path, once) => AcceptSpec(w, h, path, once, size, ans)
      case _ => Done(w, Elsewhere)
  }

  function WriteCtl(w: World, h: int, text: string, ans: Answers): Done
    requires FreshAnswer(w.net, ans)
  {
    if h !in w.handles || !w.handles[h].CtlOp? then Done(w, Threw)
    else
      var r := Interpret(w.net, w.handles[h].n, text, ans);
      Done(w.(net := r.net), if r.threw then Threw else Code(if r.ret == 0 then |text| else r.ret))
  }

  function WriteSpec(w: World, h: int, text: string, ans: Answers): Done
    requires FreshAnswer(w.net, ans)
  {
    if h !in w.handles then Done(w, Threw)
    else
      match w.handles[h]
      case CtlOp(_, _) => WriteCtl(w, h, text, ans)
      case CloneOp(ctl) => WriteCtl(w, ctl, text, ans)
      case ListenOp(_, _) => Done(w, Code(-EPERM))
      case _ => Done(w, Elsewhere)
  }

  // ----- Creating and removing -----

  predicate Creatable(w: World, c: Path) {
    c != [] && Parent(c) in w.tree && w.tree[Parent(c)].isDir
  }

  function AddTo(w: World, c: Path, isDir: bool): World {
    w.(tree := w.tree[c := Info(isDir, NameOf(KindAt(c, isDir)))])
  }

  /** A client connects and a server listens before its file stays; both are kept under the path. */
  function MknodSpec(w: World, c: Path, ans: Answers): World
    requires FreshAnswer(w.net, ans)
  {
    if !Creatable(w, c) then w
    else
      match KindAt(c, false)
      case Client => AddSocketFile(w, c, Established, ans)
      case Server => AddSocketFile(w, c, Listening, ans)
      case _ => AddTo(w, c, false)
  }

  function AddSocketFile(w: World, c: Path, st: SockState, ans: Answers): World
    requires FreshAnswer(w.net, ans)
  {
    (if ans.fd.None? then w else AddTo(w, c, false)).(net := SetUp(w.net, Str(c), st, ans))
  }

  function MkdirSpec(w: World, c: Path, ans: Answers): World {
    if !Creatable(w, c) then w
    else
      match KindAt(c, true)
      case TcpDir => AddTo(AddTo(w, c, true), CLONE, false)
      case SessionDir =>
        if |c| != 2 || Faulty(ans.hookFault, 0) then w else w.(tree := WithSession(w.tree, c[1]))
      case _ => AddTo(w, c, true)
  }

  function UnlinkSpec(w: World, c: Path): World {
    if !Creatable(w, c) || c !in w.tree || w.tree[c].isDir then w
    else
      match KindAt(c, false)
      case Clone => w
      case File(Ctl) => w
      case File(Data) => w
      case Client => w.(tree := Remove(w.tree, c), net := Erase(w.net, Str(c)))
      case Server => w.(tree := Remove(w.tree, c), net := Erase(w.net, Str(c)))
      case _ => w.(tree := Remove(w.tree, c))
  }

  function RmdirSpec(w: World, c: Path): World {
    if !Creatable(w, c) || c !in w.tree || !w.tree[c].isDir then w
    else
      match KindAt(c, true)
      case TcpDir => w
      case SessionDir =>
        (match DirNumber(Str(c))
         case None => w
         case Some(key) => w.(tree := Remove(w.tree, c), net := Erase(w.net, key)))
      case _ => w.(tree := Remove(w.tree, c))
  }

  // ----- Steps and runs -----

  datatype Action =
    | Mknod(c: Path)
    | Mkdir(c: Path)
    | Unlink(c: Path)
    | Rmdir(c: Path)
    | OpenFile(c: Path)
    | Read(h: int, size: nat, offset: nat)
    | Write(h: int, text: string, offset: nat)
    | Truncate(c: Path, size: nat)
    | Close(h: int)
    | Outside(states: map<int, SockState>)

  /** What a call does to the protocol's state; the bytes of files are in the module Files. */
  function Do(w: World, a: Action, ans: Answers): World
    requires FreshAnswer(w.net, ans)
  {
    match a
    case Mknod(c) => MknodSpec(w, c, ans)
    case Mkdir(c) => MkdirSpec(w, c, ans)
    case Unlink(c) => UnlinkSpec(w, c)
    case Rmdir(c) => RmdirSpec(w, c)
    case OpenFile(c) => OpenSpec(w, c, ans).w
    case Read(h, size, _) => ReadSpec(w, h, size, ans).w
    case Write(h, text, _) => WriteSpec(w, h, text, ans).w
    case Truncate(_, _) => w
    case Close(h) => CloseSpec(w, h)
    case Outside(states) => w.(net := w.net.(sockets := states))
  }

  predicate ClosingHandle(w: World, h: int) {
    exists g :: g in w.handles && w.handles[g] == CloneOp(h)
  }

  /** Session n has its directory. */
  predicate HasSession(t: Shape, n: nat) {
    DirOf(Dec(n)) in t && t[DirOf(Dec(n))].isDir
  }

  /**
   The hypotheses on a run, none of which the code enforces:
   new names are absent; session directories come from clone only, and are not removed while a control
   handle on them is open; a client closes the handles it was given, not the control handle inside a clone; and a
   socket that is neither established nor listening does not become so by itself.
   */
  ghost predicate Allowed(w: World, a: Action, ans: Answers) {
    && FreshAnswer(w.net, ans)
    && match a
       case Mknod(c) => c != [] && AllNames(c) && c !in w.tree
       case Mkdir(c) => c != [] && AllNames(c) && c !in w.tree && KindAt(c, true) != SessionDir
       case Unlink(c) => true
       case Rmdir(c) =>
         forall h, n, told :: h in w.handles && w.handles[h] == CtlOp(n, told) ==> c != DirOf(Dec(n))
       case OpenFile(c) => true
       case Read(h, size, offset) => true
       case Write(h, text, offset) => true
       case Truncate(c, size) => true
       case Close(h) => !ClosingHandle(w, h)
       case Outside(states) =>
         && states.Keys == w.net.sockets.Keys
         && forall fd :: fd in states ==> states[fd] == w.net.sockets[fd] || states[fd] == Other
  }

  datatype Call = Call(a: Action, ans: Answers)

  ghost predicate AllowedRun(w: World, run: seq<Call>)
    decreases run
  {
    run == [] || (Allowed(w, run[0].a, run[0].ans) && AllowedRun(Do(w, run[0].a, run[0].ans), run[1..]))
  }

  ghost function Exec(w: World, run: seq<Call>): World
    requires AllowedRun(w, run)
    decreases run
  {
    if run == [] then w else Exec(Do(w, run[0].a, run[0].ans), run[1..])
  }

  /** After the program's start: the root, /tcp and /tcp/clone, nothing open. */
  function START(): World {
    World(map[[] := Info(true, "dir_ops_type"), TCP := Info(true, NameOf(TcpDir)), CLONE := Info(false, NameOf(Clone))],
          map[], 0, EMPTY, 0, [])
  }
}

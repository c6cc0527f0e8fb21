/**
 The table of session descriptors, over an abstract kernel. The table owns what it holds:
 replacing or erasing an entry closes its descriptor.
 */
module FdTable {
  import opened Options

  datatype SockState = Established | Listening | Other

  /** The table, the open sockets with their states, and the descriptors opened and closed so far. */
  datatype Net = Net(table: map<string, int>, sockets: map<int, SockState>,
                     births: seq<int>, deaths: seq<(int, SockState)>)

  const EMPTY: Net := Net(map[], map[], [], [])

  /** The kernel hands out a descriptor that is not open; numbers of closed descriptors may come back. */
  function OpenSocket(n: Net, fd: int, st: SockState): Net
    requires fd !in n.sockets
  {
    n.(sockets := n.sockets[fd := st], births := n.births + [fd])
  }

  /** A socket that a setup leaves open without keeping its descriptor. */
  datatype Stray = Stray(fd: int, connected: bool)

  function Fds(left: seq<Stray>): set<int> {
    set s | s in left :: s.fd
  }

  predicate FreshStrays(n: Net, left: seq<Stray>) {
    && (forall i :: 0 <= i < |left| ==> left[i].fd !in n.sockets)
    && (forall i, j :: 0 <= i < j < |left| ==> left[i].fd != left[j].fd)
  }

  /** Strays are open sockets that the table does not hear of. */
  function LeaveOpen(n: Net, left: seq<Stray>): (m: Net)
    requires FreshStrays(n, left)
    ensures m.table == n.table && m.deaths == n.deaths
    ensures forall x :: x in m.sockets <==> x in n.sockets || x in Fds(left)
    ensures forall x :: x in n.sockets ==> m.sockets[x] == n.sockets[x]
    decreases left
  {
    if left == [] then n
    else
      var front, s := left[..|left| - 1], left[|left| - 1];
      assert forall x :: x in left <==> x in front || x == s;
      OpenSocket(LeaveOpen(n, front), s.fd, if s.connected then Established else Other)
  }

  /** close(2); closing a number that is not open only fails. */
  function CloseSocket(n: Net, fd: int): Net {
    if fd in n.sockets
    then n.(sockets := n.sockets - {fd}, deaths := n.deaths + [(fd, n.sockets[fd])])
    else n
  }

  function Find(n: Net, k: string): Option<int> {
    if k in n.table then Some(n.table[k]) else None
  }

  function Erase(n: Net, k: string): Net {
    if k in n.table then
      var m := CloseSocket(n, n.table[k]);
      m.(table := m.table - {k})
    else n
  }

  function Insert(n: Net, k: string, fd: int): Net {
    var m := Erase(n, k);
    m.(table := m.table[k := fd])
  }

  /** Table values are open and pairwise distinct. */
  ghost predicate Owned(n: Net) {
    && (forall k :: k in n.table ==> n.table[k] in n.sockets)
    && (forall k, l :: k in n.table && l in n.table && n.table[k] == n.table[l] ==> k == l)
  }

  function TimesOpened(births: seq<int>, fd: int): nat {
    if births == [] then 0 else TimesOpened(births[..|births| - 1], fd) + (if births[|births| - 1] == fd then 1 else 0)
  }

  function TimesClosed(deaths: seq<(int, SockState)>, fd: int): nat {
    if deaths == [] then 0
    else TimesClosed(deaths[..|deaths| - 1], fd) + (if deaths[|deaths| - 1].0 == fd then 1 else 0)
  }

  /** Every descriptor was closed exactly as often as it was opened, but for the one time it is still open. */
  ghost predicate Balanced(n: Net) {
    forall fd :: TimesOpened(n.births, fd) == TimesClosed(n.deaths, fd) + (if fd in n.sockets then 1 else 0)
  }

  /** Nothing is open but what the table holds. */
  ghost predicate NoLeak(n: Net) {
    forall fd :: fd in n.sockets ==> exists k :: k in n.table && n.table[k] == fd
  }

  ghost predicate Conserved(n: Net) {
    Owned(n) && Balanced(n) && NoLeak(n)
  }

  lemma OpenKeepsBalance(n: Net, fd: int, st: SockState)
    requires Balanced(n) && fd !in n.sockets
    ensures Balanced(OpenSocket(n, fd, st))
  {
    var m := OpenSocket(n, fd, st);
    assert m.births[..|m.births| - 1] == n.births;
    forall x ensures TimesOpened(m.births, x) == TimesClosed(m.deaths, x) + (if x in m.sockets then 1 else 0) {
      assert TimesOpened(m.births, x) == TimesOpened(n.births, x) + (if fd == x then 1 else 0);
    }
  }

  lemma CloseKeepsBalance(n: Net, fd: int)
    requires Balanced(n)
    ensures Balanced(CloseSocket(n, fd))
  {
    var m := CloseSocket(n, fd);
    if fd in n.sockets {
      assert m.deaths[..|m.deaths| - 1] == n.deaths;
      forall x ensures TimesOpened(m.births, x) == TimesClosed(m.deaths, x) + (if x in m.sockets then 1 else 0) {
        assert TimesClosed(m.deaths, x) == TimesClosed(n.deaths, x) + (if fd == x then 1 else 0);
      }
    }
  }

  lemma EraseKeeps(n: Net, k: string)
    requires Owned(n) && Balanced(n)
    ensures Owned(Erase(n, k)) && Balanced(Erase(n, k)) && k !in Erase(n, k).table
    ensures NoLeak(n) ==> NoLeak(Erase(n, k))
  {
    if k in n.table {
      CloseKeepsBalance(n, n.table[k]);
      var m := Erase(n, k);
      if NoLeak(n) {
        forall fd | fd in m.sockets ensures exists l :: l in m.table && m.table[l] == fd {
          var l :| l in n.table && n.table[l] == fd;
          assert l in m.table;
        }
      }
    }
  }

  datatype FdOp = OpenInsert(key: string, fd: int, st: SockState) | EraseKey(key: string)

  /** Inserting a newly opened descriptor, or erasing a key. */
  function Perform(n: Net, op: FdOp): Net {
    match op
    case OpenInsert(k, fd, st) => if fd in n.sockets then n else Insert(OpenSocket(n, fd, st), k, fd)
    case EraseKey(k) => Erase(n, k)
  }

  function PerformAll(n: Net, ops: seq<FdOp>): Net
    decreases ops
  {
    if ops == [] then n else PerformAll(Perform(n, ops[0]), ops[1..])
  }

  lemma InsertKeepsOwned(n: Net, k: string, fd: int)
    requires Owned(n) && fd in n.sockets && forall l :: l in n.table ==> n.table[l] != fd
    ensures Owned(Insert(n, k, fd))
  {
  }

  lemma InsertConserves(n: Net, k: string, fd: int)
    requires Owned(n) && Balanced(n) && fd in n.sockets && forall l :: l in n.table ==> n.table[l] != fd
    requires forall x :: x in n.sockets && x != fd ==> exists l :: l in n.table && n.table[l] == x
    ensures Conserved(Insert(n, k, fd))
  {
    hide Balanced, Owned;
    EraseKeeps(n, k);
    InsertKeepsOwned(n, k, fd);
    var e, r := Erase(n, k), Insert(n, k, fd);
    SameSockets(e, r);
    forall x | x in r.sockets ensures exists l :: l in r.table && r.table[l] == x {
      if x == fd {
        assert r.table[k] == x;
      } else {
        var l :| l in n.table && n.table[l] == x;
        assert l in r.table;
      }
    }
  }

  lemma SameSockets(a: Net, b: Net)
    requires Balanced(a) && a.sockets == b.sockets && a.births == b.births && a.deaths == b.deaths
    ensures Balanced(b)
  {
  }

  lemma PerformConserves(n: Net, op: FdOp)
    requires Conserved(n)
    ensures Conserved(Perform(n, op))
  {
    hide Balanced;
    match op
    case EraseKey(k) => EraseKeeps(n, k);
    case OpenInsert(k, fd, st) =>
      if fd !in n.sockets {
        OpenKeepsBalance(n, fd, st);
        InsertConserves(OpenSocket(n, fd, st), k, fd);
      }
  }

  /**
   Conservation over any run: what the table holds is open and distinct, nothing else is
   open, and each descriptor was closed once for every time it was opened and no longer held.
   */
  lemma {:induction false} DescriptorsConserved(n: Net, ops: seq<FdOp>)
    requires Conserved(n)
    ensures Conserved(PerformAll(n, ops))
    decreases ops
  {
    if ops != [] {
      PerformConserves(n, ops[0]);
      DescriptorsConserved(Perform(n, ops[0]), ops[1..]);
    }
  }

  lemma ConservedFromTheStart(ops: seq<FdOp>)
    ensures Conserved(PerformAll(EMPTY, ops))
  {
    DescriptorsConserved(EMPTY, ops);
  }

  /** The table object. */
  class Table {
    var net: Net

    constructor ()
      ensures net == EMPTY
    {
      net := EMPTY;
    }

    method FindKey(k: string) returns (r: Option<int>)
      ensures r.Some? <==> k in net.table
      ensures r.Some? ==> r.value == net.table[k]
    {
      r := if k in net.table then Some(net.table[k]) else None;
    }

    /** close(2) on a descriptor the table does not hold. */
    method CloseDescriptor(fd: int)
      modifies this
      ensures net == CloseSocket(old(net), fd)
    {
      net := CloseSocket(net, fd);
    }

    /** A socket the kernel just opened. */
    method OpenDescriptor(fd: int, st: SockState)
      requires fd !in net.sockets
      modifies this
      ensures net == OpenSocket(old(net), fd, st)
    {
      net := OpenSocket(net, fd, st);
    }

    /** Sockets that a setup opens and then forgets. */
    method OpenStrays(left: seq<Stray>)
      requires FreshStrays(net, left)
      modifies this
      ensures net == LeaveOpen(old(net), left)
    {
      var i := 0;
      while i < |left|
        invariant 0 <= i <= |left|
        invariant net == LeaveOpen(old(net), left[..i])
      {
        assert left[..i + 1][..i] == left[..i];
        assert left[i].fd !in Fds(left[..i]);
        OpenDescriptor(left[i].fd, if left[i].connected then Established else Other);
        i := i + 1;
      }
      assert left[..|left|] == left;
    }

    /** Sockets change their states by themselves. */
    method Drift(states: map<int, SockState>)
      modifies this
      ensures net == old(net).(sockets := states)
    {
      net := net.(sockets := states);
    }

    /** Closes the descriptor before the key goes. */
    method EraseEntry(k: string)
      modifies this
      ensures net == Erase(old(net), k)
    {
      var fd := FindKey(k);
      if fd.Some? {
        net := CloseSocket(net, fd.value);
      }
      net := net.(table := net.table - {k});
      assert k !in old(net.table) ==> net.table == old(net.table);
    }

    method InsertEntry(k: string, fd: int)
      modifies this
      ensures net == Insert(old(net), k, fd)
    {
      var oldFd := FindKey(k);
      if oldFd.Some? {
        EraseEntry(k);
      }
      net := net.(table := net.table[k := fd]);
    }
  }
}

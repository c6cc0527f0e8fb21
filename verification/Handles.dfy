/**
 The table of open handles: numbers go up and are not used again.
 */
module Handles {
  import opened Options

  class HandleManager<T> {
    var current: int
    var ops: map<int, T>
    ghost var closed: set<int>   // the numbers that were taken back

    /** The numbers given out so far are those from 1 to current: each is live or was taken back, never both. */
    ghost predicate Valid()
      reads this
    {
      && current >= 0 && closed !! ops.Keys
      && (forall h :: h in ops || h in closed <==> 1 <= h <= current)
    }

    constructor ()
      ensures Valid() && current == 0 && ops == map[] && closed == {}
    {
      current, ops, closed := 0, map[], {};
    }

    /** None stands for the exception, which means that the number was never given out or was taken back. */
    method GetOpEntry(h: int) returns (r: Option<T>)
      requires Valid()
      ensures r.None? <==> h < 1 || current < h || h in closed
      ensures r.Some? <==> h in ops
      ensures r.Some? ==> r.value == ops[h]
    {
      r := if h in ops then Some(ops[h]) else None;
    }

    method RegisterOp(x: T) returns (h: int)
      requires Valid()
      modifies this
      ensures Valid() && h == current == old(current) + 1 && h !in old(ops) && h !in old(closed)
      ensures ops == old(ops)[h := x] && closed == old(closed)
    {
      ops := ops[current + 1 := x];
      current := current + 1;
      h := current;
    }

    method UnregisterOp(h: int)
      requires Valid()
      modifies this`ops, this`closed
      ensures Valid() && ops == old(ops) - {h}
      ensures closed == if h in old(ops) then old(closed) + {h} else old(closed)
    {
      if h in ops {
        closed := closed + {h};
      }
      ops := ops - {h};
    }

    /** The operation object behind a live handle changed its own state. */
    method UpdateOp(h: int, x: T)
      requires Valid() && h in ops
      modifies this`ops
      ensures Valid() && ops == old(ops)[h := x]
    {
      ops := ops[h := x];
      assert ops.Keys == old(ops).Keys;
    }
  }
}

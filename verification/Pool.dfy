/** The pool as it is written: two ordered sets changed in place, with the loop that grows the
    free one. Each method is one critical section of the original and is proved to be one event
    of `PoolSpec`. */
module Pool {
  import opened Handles
  import PoolSpec

  /** The growth loop counts with an `int`. */
  const INT_MAX: nat := 0x7FFF_FFFF

  class ObjectPool {
    const nextSize: nat
    var freeList: set<Handle>
    var busyList: set<Handle>

    ghost predicate Valid()
      reads this
    {
      State().Valid() && nextSize <= INT_MAX
    }

    ghost function State(): PoolSpec.PoolState
      reads this
    {
      PoolSpec.PoolState(freeList, busyList)
    }

    constructor (nextSize: nat)
      requires nextSize <= INT_MAX
      ensures Valid() && this.nextSize == nextSize
      ensures PoolSpec.Start(nextSize, State())
      ensures busyList == {} && |freeList| == nextSize
    {
      this.nextSize := nextSize;
      freeList, busyList := {}, {};
      new;
      for i := 0 to nextSize
        invariant busyList == {} && |freeList| == i
      {
        var h := Make();
        freeList := freeList + {h};
      }
    }

    /** Stands for the factory: a new object lives at an address no live object has. */
    method Make() returns (h: Handle)
      ensures h !in freeList && h !in busyList
    {
      FreshExists(freeList + busyList);
      h :| h !in freeList && h !in busyList;
    }

    method Get() returns (r: Option<Handle>, ghost batch: set<Handle>)
      requires Valid()
      modifies `freeList, `busyList
      ensures Valid()
      ensures PoolSpec.Legal(nextSize, old(State()), PoolSpec.Get(batch))
      ensures State() == PoolSpec.Apply(old(State()), PoolSpec.Get(batch))
      ensures PoolSpec.Answers(old(State()), PoolSpec.Get(batch), PoolSpec.Got(r))
    {
      batch := {};
      if freeList == {} {
        for i := 0 to nextSize
          invariant freeList == batch && |batch| == i
          invariant busyList == old(busyList) && batch !! busyList
        {
          var h := Make();
          freeList := freeList + {h};
          batch := batch + {h};
        }
      }
      assert freeList == old(freeList) + batch;
      if freeList != {} {
        r := Some(Least(freeList));
        busyList := busyList + {Least(freeList)};
        freeList := freeList - {Least(freeList)};
      } else {
        r := None;
      }
    }

    /** `called` tells whether the callback ran on `t`. */
    method Free(t: Handle) returns (called: bool)
      requires Valid()
      modifies `freeList, `busyList
      ensures Valid()
      ensures State() == PoolSpec.Apply(old(State()), PoolSpec.Free(t))
      ensures PoolSpec.Answers(old(State()), PoolSpec.Free(t), PoolSpec.Freed(called))
      ensures called <==> t in old(busyList)
      ensures busyList == old(busyList) - {t}
      ensures freeList == if t in old(busyList) then old(freeList) + {t} else old(freeList)
    {
      if t !in busyList {
        return false;
      }
      freeList := freeList + {t};
      busyList := busyList - {t};
      called := true;
    }

    /** The handles the callback ran on, in the order of the calls. */
    method Each() returns (visited: seq<Handle>)
      requires Valid()
      ensures PoolSpec.Answers(State(), PoolSpec.Each, PoolSpec.Visited(visited))
      ensures forall i, j | 0 <= i < j < |visited| :: visited[i] < visited[j]
      ensures forall h :: h in visited <==> h in busyList
    {
      visited := [];
      var left := busyList;
      while left != {}
        invariant left <= busyList
        invariant PoolSpec.Lists(visited, busyList - left)
        invariant forall x, y | x in busyList - left && y in left :: x < y
        decreases left
      {
        var h := Least(left);
        PoolSpec.ListsSnoc(visited, busyList - left, h);
        visited := visited + [h];
        assert busyList - left + {h} == busyList - (left - {h});
        left := left - {h};
      }
      assert busyList - left == busyList;
    }
  }

  /** Giving back the handle a `get` returned undoes the `get`, growth aside: the handle is
      the next one out again. */
  lemma FreeUndoesGet(n: nat, s: PoolSpec.PoolState, batch: set<Handle>)
    requires s.Valid() && PoolSpec.Legal(n, s, PoolSpec.Get(batch))
    requires PoolSpec.Taken(s, batch).Some?
    ensures var h := PoolSpec.Taken(s, batch).value;
      var s' := PoolSpec.Apply(PoolSpec.Apply(s, PoolSpec.Get(batch)), PoolSpec.Free(h));
      && s' == PoolSpec.PoolState(s.free + batch, s.busy)
      && PoolSpec.Legal(n, s', PoolSpec.Get({})) && PoolSpec.Taken(s', {}) == Some(h)
  {
  }
}

/** Any number of threads on one pool: every interleaving of their steps refines the atomic
    pool, and the mutex is never kept for ever. */
module PoolSystem {
  import opened Numbers
  import opened Handles
  import opened PoolSpec
  import opened PoolThreads

  /** What belongs to one thread: the rest of its view is shared. */
  datatype Thread = Thread(pc: PC, held: set<Handle>, asked: seq<Op>, seen: seq<Response>)

  datatype Sys = Sys(pool: PoolState, lock: Option<Tid>, log: seq<Entry>, threads: map<Tid, Thread>)
  {
    function ViewOf(t: Tid): View
      requires t in threads
    {
      var me := threads[t];
      View(pool, lock, log, me.pc, me.held, me.asked, me.seen)
    }

    function Put(t: Tid, v: View): Sys {
      Sys(v.pool, v.lock, v.log, threads[t := Thread(v.pc, v.held, v.asked, v.seen)])
    }
  }

  datatype Action = Call(t: Tid, op: Op) | Step(t: Tid, x: Handle)

  ghost predicate CanDo(n: nat, s: Sys, a: Action) {
    && a.t in s.threads
    && (a.Call? ==> s.threads[a.t].pc == Idle)
    && (a.Step? ==> Enabled(n, s.ViewOf(a.t), a.x))
  }

  function Moved(n: nat, v: View, a: Action): View {
    match a
    case Call(_, op) => Invoke(v, op)
    case Step(t, x) => Advance(n, t, x, v)
  }

  function Do(n: nat, s: Sys, a: Action): Sys {
    if a.t !in s.threads then s else s.Put(a.t, Moved(n, s.ViewOf(a.t), a))
  }

  ghost predicate Initial(n: nat, init: PoolState, s: Sys) {
    && Start(n, init)
    && s.pool == init && s.lock == None && s.log == []
    && forall t | t in s.threads ::
        && s.threads[t].pc == Idle && s.threads[t].held == {}
        && s.threads[t].asked == [] && s.threads[t].seen == []
  }

  function After(n: nat, s0: Sys, acts: seq<Action>): Sys {
    if acts == [] then s0 else Do(n, After(n, s0, acts[..|acts| - 1]), acts[|acts| - 1])
  }

  /** `acts` can be carried out from `s0`, one after the other. */
  ghost predicate CanRun(n: nat, s0: Sys, acts: seq<Action>) {
    acts == [] ||
    (CanRun(n, s0, acts[..|acts| - 1]) && CanDo(n, After(n, s0, acts[..|acts| - 1]), acts[|acts| - 1]))
  }

  ghost predicate Reaches(n: nat, s0: Sys, acts: seq<Action>, s: Sys) {
    CanRun(n, s0, acts) && s == After(n, s0, acts)
  }

  lemma {:induction false} RunAppend(n: nat, s: Sys, acts: seq<Action>, more: seq<Action>)
    ensures After(n, s, acts + more) == After(n, After(n, s, acts), more)
    ensures CanRun(n, s, acts) && CanRun(n, After(n, s, acts), more) ==> CanRun(n, s, acts + more)
  {
    if more == [] {
      assert acts + more == acts;
    } else {
      var front := more[..|more| - 1];
      RunAppend(n, s, acts, front);
      assert (acts + more)[..|acts + more| - 1] == acts + front;
    }
  }

  // ----- Refinement

  ghost predicate Inv(n: nat, init: PoolState, s: Sys) {
    && (s.lock.Some? ==> s.lock.value in s.threads)
    && (s.lock == None ==> s.pool.Valid() && Refines(n, init, s.pool, s.log))
    && (forall e | e in s.log :: e.tid in s.threads)
    && forall t | t in s.threads :: Good(n, init, t, s.ViewOf(t))
  }

  lemma MovedKeepsGood(n: nat, init: PoolState, v: View, a: Action)
    requires Good(n, init, a.t, v)
    requires if a.Call? then v.pc == Idle else Enabled(n, v, a.x)
    ensures Good(n, init, a.t, Moved(n, v, a))
  {
    if a.Step? {
      AdvanceKeepsGood(n, init, a.t, a.x, v);
    }
  }

  /** A thread without the mutex changes nothing that is shared, except by taking a free mutex. */
  lemma OutsidersTouchNothing(n: nat, v: View, a: Action)
    requires if a.Call? then v.pc == Idle else Enabled(n, v, a.x)
    requires v.lock == Some(a.t) <==> InSection(v.pc)
    ensures v.lock != Some(a.t) ==> Moved(n, v, a).pool == v.pool && Moved(n, v, a).log == v.log
    ensures Moved(n, v, a).lock == v.lock || (v.lock == None && Moved(n, v, a).lock == Some(a.t))
         || (v.lock == Some(a.t) && Moved(n, v, a).lock == None)
  {
  }

  lemma LogOwnTid(n: nat, v: View, a: Action, u: Tid)
    requires u != a.t
    ensures Project(Moved(n, v, a).log, u) == Project(v.log, u)
    ensures Calls(Moved(n, v, a).log, u) == Calls(v.log, u)
  {
  }

  lemma LogGrows(n: nat, v: View, a: Action)
    ensures v.log <= Moved(n, v, a).log
    ensures forall e | e in Moved(n, v, a).log :: e in v.log || e.tid == a.t
  {
  }

  /** What a move of `t` may do to the rest: only the owner changes what is shared. */
  ghost predicate Bounded(n: nat, t: Tid, v: View, v': View) {
    && (v.lock != Some(t) ==> v'.pool == v.pool && v'.log == v.log)
    && (v'.lock == v.lock || (v.lock == None && v'.lock == Some(t)) || (v.lock == Some(t) && v'.lock == None))
    && v.log <= v'.log && (forall e | e in v'.log :: e in v.log || e.tid == t)
    && forall u | u != t :: Project(v'.log, u) == Project(v.log, u) && Calls(v'.log, u) == Calls(v.log, u)
  }

  lemma MovedIsBounded(n: nat, v: View, a: Action)
    requires if a.Call? then v.pc == Idle else Enabled(n, v, a.x)
    requires v.lock == Some(a.t) <==> InSection(v.pc)
    ensures Bounded(n, a.t, v, Moved(n, v, a))
  {
    OutsidersTouchNothing(n, v, a);
    LogGrows(n, v, a);
    forall u | u != a.t
      ensures Project(Moved(n, v, a).log, u) == Project(v.log, u) && Calls(Moved(n, v, a).log, u) == Calls(v.log, u)
    {
      LogOwnTid(n, v, a, u);
    }
  }

  lemma OtherStaysGood(n: nat, init: PoolState, t: Tid, v: View, v': View, u: Tid, w: View)
    requires u != t && Good(n, init, t, v) && Good(n, init, t, v') && Bounded(n, t, v, v')
    requires Good(n, init, u, w) && w.pool == v.pool && w.lock == v.lock && w.log == v.log
    ensures Good(n, init, u, w.(pool := v'.pool, lock := v'.lock, log := v'.log))
  {
  }

  lemma PutKeepsInv(n: nat, init: PoolState, s: Sys, t: Tid, v': View)
    requires Inv(n, init, s) && t in s.threads
    requires Good(n, init, t, v') && Bounded(n, t, s.ViewOf(t), v')
    ensures Inv(n, init, s.Put(t, v'))
  {
    var s' := s.Put(t, v');
    forall u | u in s'.threads ensures Good(n, init, u, s'.ViewOf(u)) {
      if u != t {
        OtherStaysGood(n, init, t, s.ViewOf(t), v', u, s.ViewOf(u));
      }
    }
  }

  lemma DoKeepsInv(n: nat, init: PoolState, s: Sys, a: Action)
    requires Inv(n, init, s) && CanDo(n, s, a)
    ensures Inv(n, init, Do(n, s, a))
  {
    var v := s.ViewOf(a.t);
    MovedKeepsGood(n, init, v, a);
    MovedIsBounded(n, v, a);
    PutKeepsInv(n, init, s, a.t, Moved(n, v, a));
  }

  lemma {:induction false} RunKeepsInv(n: nat, init: PoolState, s: Sys, more: seq<Action>)
    requires Inv(n, init, s) && CanRun(n, s, more)
    ensures Inv(n, init, After(n, s, more))
  {
    if more != [] {
      RunKeepsInv(n, init, s, more[..|more| - 1]);
      DoKeepsInv(n, init, After(n, s, more[..|more| - 1]), more[|more| - 1]);
    }
  }

  /** Every run of every set of threads keeps the refinement. */
  lemma EveryRunRefines(n: nat, init: PoolState, s0: Sys, acts: seq<Action>, s: Sys)
    requires Initial(n, init, s0) && Reaches(n, s0, acts, s)
    ensures Inv(n, init, s)
  {
    assert Inv(n, init, s0);
    RunKeepsInv(n, init, s0, acts);
  }

  /** Between critical sections the two sets are the state of the atomic pool after the logged
      calls: they split the constructed handles, whose number follows the peak. */
  lemma LockFreeIsAtomic(n: nat, init: PoolState, s0: Sys, acts: seq<Action>, s: Sys)
    requires Initial(n, init, s0) && Reaches(n, s0, acts, s) && s.lock == None
    ensures LegalRun(n, init, Events(s.log)) && s.pool == Run(init, Events(s.log))
    ensures s.pool.free !! s.pool.busy
    ensures s.pool.free + s.pool.busy == Constructed(init, Events(s.log))
    ensures n > 0 ==>
      |s.pool.free| + |s.pool.busy| == n * Max(1, CeilDiv(Peak(init, Events(s.log)), n))
  {
    EveryRunRefines(n, init, s0, acts, s);
    NothingDropped(n, init, Events(s.log));
    if n > 0 {
      GrowthFormula(n, init, Events(s.log));
    }
  }

  // ----- Progress

  /** Steps the owner of the mutex has left before it drops it, counting the rest of the growth
      loop and the busy handles `each` has still to visit. */
  function StepsLeft(n: nat, pool: PoolState, pc: PC): int {
    match pc
    case GetEntered => n + 5
    case GetGrowing(i, _) => n - i + 4
    case GetTaking(_) => 3
    case GetInserted(_) => 2
    case GetLeaving(_) => 1
    case FreeEntered(_) => 6
    case FreeFound(_) => 5
    case FreeInserted(_) => 4
    case FreeErased(_) => 3
    case FreeInOp(_) => 2
    case FreeLeaving(_, _) => 1
    case EachWalking(visited) => 2 * |pool.busy - SetOf(visited)| + 2
    case EachInOp(visited, _) => 2 * |pool.busy - SetOf(visited)| + 1
    case EachLeaving(_) => 1
    case _ => 0
  }

  lemma VisitingShrinks(pool: PoolState, visited: seq<Handle>, h: Handle)
    requires h in pool.busy - SetOf(visited)
    ensures |pool.busy - SetOf(visited + [h])| == |pool.busy - SetOf(visited)| - 1
  {
    assert pool.busy - SetOf(visited + [h]) == pool.busy - SetOf(visited) - {h};
  }

  ghost predicate Nearer(n: nat, t: Tid, v: View, v': View) {
    v'.lock == None || (v'.lock == Some(t) && StepsLeft(n, v'.pool, v'.pc) < StepsLeft(n, v.pool, v.pc))
  }

  lemma WalkerAdvances(n: nat, t: Tid, x: Handle, v: View)
    requires v.lock == Some(t) && (v.pc.EachWalking? || v.pc.EachInOp?)
    requires v.pc.EachInOp? ==> v.pc.h in v.pool.busy - SetOf(v.pc.visited)
    ensures Nearer(n, t, v, Advance(n, t, x, v))
  {
    var left := |v.pool.busy - SetOf(v.pc.visited)|;
    var v' := Advance(n, t, x, v);
    if v.pc.EachInOp? {
      VisitingShrinks(v.pool, v.pc.visited, v.pc.h);
      assert StepsLeft(n, v.pool, v.pc) == 2 * left + 1;
      assert StepsLeft(n, v'.pool, v'.pc) == 2 * (left - 1) + 2;
    } else {
      assert StepsLeft(n, v.pool, v.pc) == 2 * left + 2;
      assert StepsLeft(n, v'.pool, v'.pc) <= 2 * left + 1;
    }
  }

  lemma CallerAdvances(n: nat, t: Tid, x: Handle, v: View)
    requires v.lock == Some(t) && InSection(v.pc) && !v.pc.EachWalking? && !v.pc.EachInOp?
    requires v.pc.GetGrowing? ==> v.pc.i <= n
    ensures StepsLeft(n, v.pool, v.pc) > 0
    ensures Nearer(n, t, v, Advance(n, t, x, v))
  {
  }

  lemma OwnerAdvances(n: nat, t: Tid, x: Handle, v: View)
    requires v.lock == Some(t) && InSection(v.pc) && SectionOk(n, v.pool, v.pc)
    ensures StepsLeft(n, v.pool, v.pc) > 0
    ensures Nearer(n, t, v, Advance(n, t, x, v))
  {
    if v.pc.EachWalking? || v.pc.EachInOp? {
      WalkerAdvances(n, t, x, v);
    } else {
      CallerAdvances(n, t, x, v);
    }
  }

  /** `StepsLeft` of the owner of the mutex, and zero when nobody has it. */
  function ToUnlock(n: nat, s: Sys): int {
    if s.lock.Some? && s.lock.value in s.threads then StepsLeft(n, s.pool, s.threads[s.lock.value].pc) else 0
  }

  /** What the owner of the mutex does if it is scheduled alone. */
  ghost function OwnerStep(s: Sys): Action
    requires s.lock.Some?
  {
    Step(s.lock.value, Fresh(s.pool.All()))
  }

  /** The owner of the mutex can always move, whatever the other threads do. */
  lemma OwnerCanMove(n: nat, init: PoolState, s: Sys)
    requires Inv(n, init, s) && s.lock.Some?
    ensures CanDo(n, s, OwnerStep(s))
  {
  }

  lemma OwnerHasSteps(n: nat, init: PoolState, t: Tid, v: View)
    requires Good(n, init, t, v)
    ensures v.lock == Some(t) ==> StepsLeft(n, v.pool, v.pc) > 0
  {
  }

  /** Each move of the owner drops the mutex or brings that nearer, whatever the factory
      answers. */
  lemma OwnerNeverStalls(n: nat, init: PoolState, s: Sys, x: Handle)
    requires Inv(n, init, s) && s.lock.Some? && CanDo(n, s, Step(s.lock.value, x))
    ensures ToUnlock(n, s) > 0
    ensures var s' := Do(n, s, Step(s.lock.value, x));
      s'.lock == None || (s'.lock == s.lock && 0 < ToUnlock(n, s') < ToUnlock(n, s))
  {
    var t := s.lock.value;
    var v := s.ViewOf(t);
    OwnerAdvances(n, t, x, v);
    AdvanceKeepsGood(n, init, t, x, v);
    OwnerHasSteps(n, init, t, Advance(n, t, x, v));
  }

  /** Moves of the other threads do not lengthen the owner's way out. */
  lemma OthersDoNotDelay(n: nat, init: PoolState, s: Sys, a: Action)
    requires Inv(n, init, s) && s.lock.Some? && CanDo(n, s, a) && a.t != s.lock.value
    ensures Do(n, s, a).lock == s.lock && ToUnlock(n, Do(n, s, a)) == ToUnlock(n, s)
  {
    OutsidersTouchNothing(n, s.ViewOf(a.t), a);
  }

  /** Only the owner of the mutex moves. */
  ghost predicate AllBy(lock: Option<Tid>, more: seq<Action>) {
    forall i | 0 <= i < |more| :: more[i].Step? && lock == Some(more[i].t)
  }

  lemma Prepend(n: nat, s: Sys, a: Action, rest: seq<Action>)
    requires CanDo(n, s, a) && CanRun(n, Do(n, s, a), rest)
    ensures CanRun(n, s, [a] + rest) && After(n, s, [a] + rest) == After(n, Do(n, s, a), rest)
  {
    var one := [a];
    assert one[..|one| - 1] == [];
    assert CanRun(n, s, []) && After(n, s, []) == s;
    assert CanRun(n, s, one) && After(n, s, one) == Do(n, s, a);
    RunAppend(n, s, one, rest);
  }

  /** The owner of the mutex, scheduled alone, gets out. */
  lemma {:induction false} OwnerFinishes(n: nat, init: PoolState, s: Sys) returns (more: seq<Action>)
    requires Inv(n, init, s)
    ensures CanRun(n, s, more) && After(n, s, more).lock == None
    ensures |more| <= ToUnlock(n, s) && AllBy(s.lock, more)
    decreases ToUnlock(n, s)
  {
    more := [];
    if s.lock.Some? {
      var a, next := OwnerMoves(n, init, s);
      var rest := OwnerFinishes(n, init, next);
      Prepend(n, s, a, rest);
      MoreByOwner(n, s, a, next, rest);
      more := [a] + rest;
    }
  }

  lemma MoreByOwner(n: nat, s: Sys, a: Action, next: Sys, rest: seq<Action>)
    requires a.Step? && s.lock == Some(a.t) && (next.lock == None || next.lock == s.lock)
    requires |rest| <= ToUnlock(n, next) < ToUnlock(n, s) && AllBy(next.lock, rest)
    ensures |[a] + rest| <= ToUnlock(n, s) && AllBy(s.lock, [a] + rest)
  {
    if next.lock == None {
      assert rest == [];
    }
  }

  lemma OwnerMoves(n: nat, init: PoolState, s: Sys) returns (a: Action, next: Sys)
    requires Inv(n, init, s) && s.lock.Some?
    ensures a.Step? && s.lock == Some(a.t) && CanDo(n, s, a) && next == Do(n, s, a) && Inv(n, init, next)
    ensures next.lock == None || next.lock == s.lock
    ensures 0 <= ToUnlock(n, next) < ToUnlock(n, s)
  {
    a := OwnerStep(s);
    next := Do(n, s, a);
    OwnerNeverStalls(n, init, s, a.x);
    DoKeepsInv(n, init, s, a);
  }

  /** Every critical section ends: from any reachable state at most `ToUnlock` moves of the
      owner alone lead to a state in which the mutex is free. */
  lemma SectionEnds(n: nat, init: PoolState, s0: Sys, acts: seq<Action>, s: Sys)
    requires Initial(n, init, s0) && Reaches(n, s0, acts, s)
    ensures exists more: seq<Action> ::
      && CanRun(n, s, more) && After(n, s, more).lock == None
      && |more| <= ToUnlock(n, s) && AllBy(s.lock, more)
  {
    EveryRunRefines(n, init, s0, acts, s);
    var more := OwnerFinishes(n, init, s);
  }

  lemma WaiterCanMove(n: nat, init: PoolState, s: Sys, t: Tid)
    requires Inv(n, init, s) && s.lock == None && t in s.threads && s.threads[t].pc != Idle
    ensures CanDo(n, s, Step(t, 0))
  {
  }

  /** No reachable state is a deadlock: if some call is running, some call can move. */
  lemma NoDeadlock(n: nat, init: PoolState, s0: Sys, acts: seq<Action>, s: Sys)
    requires Initial(n, init, s0) && Reaches(n, s0, acts, s)
    requires exists t :: t in s.threads && s.threads[t].pc != Idle
    ensures exists t, x :: CanDo(n, s, Step(t, x))
  {
    EveryRunRefines(n, init, s0, acts, s);
    if s.lock.Some? {
      OwnerCanMove(n, init, s);
    } else {
      var t :| t in s.threads && s.threads[t].pc != Idle;
      WaiterCanMove(n, init, s, t);
    }
  }
}

/** Who owns a handle. When threads free only what they hold, no interleaving hands a handle to
    two of them; one stale `free` is enough to break that. */
module PoolOwnership {
  import opened Handles
  import opened PoolSpec
  import opened PoolThreads
  import opened PoolSystem

  /** Handles a `get` in progress has taken but not returned. */
  function Claims(pc: PC): set<Handle> {
    match pc
    case GetInserted(h) => {h}
    case GetLeaving(r) => if r.Some? then {r.value} else {}
    case _ => {}
  }

  /** The handle a `free` in progress gives back. A caller that holds it does so until the call
      returns. */
  function Freeing(pc: PC): set<Handle> {
    match pc
    case WantFree(h) => {h}
    case FreeEntered(h) => {h}
    case FreeFound(h) => {h}
    case FreeInserted(h) => {h}
    case FreeErased(h) => {h}
    case FreeInOp(h) => {h}
    case FreeLeaving(h, _) => {h}
    case _ => {}
  }

  /** The thread is about to erase a handle from the busy set that it does not hold. */
  ghost predicate Stale(v: View) { v.pc.FreeInserted? && v.pc.h !in v.held }

  /** Handles that have left the busy set while their `free` is still running. */
  function Returned(pc: PC): set<Handle> {
    match pc
    case FreeErased(h) => {h}
    case FreeInOp(h) => {h}
    case FreeLeaving(h, found) => if found then {h} else {}
    case _ => {}
  }

  function Mine(v: View): set<Handle> { v.held + Claims(v.pc) }

  function Live(v: View): set<Handle> { Mine(v) - Returned(v.pc) }

  /** A thread is only ever handed what it does not hold, and what it has is busy. */
  ghost predicate OwnOk(v: View) {
    && Claims(v.pc) !! v.held
    && Live(v) <= v.pool.busy
    && (v.pc.FreeLeaving? && !v.pc.found ==> v.pc.h !in v.held)
  }

  /** The thread holds what it is freeing. */
  ghost predicate HoldsFreed(th: Thread) { Freeing(th.pc) <= th.held }

  /** Callers free only handles they hold. */
  ghost predicate Disciplined(s: Sys, a: Action) {
    a.Call? && a.op.CallFree? ==> a.t in s.threads && a.op.h in s.threads[a.t].held
  }

  /** Every busy handle is owned by one thread, and every thread's handles are busy. */
  ghost predicate Own(s: Sys) {
    && (forall t | t in s.threads :: OwnOk(s.ViewOf(t)))
    && (forall t, u | t in s.threads && u in s.threads && t != u :: Mine(s.ViewOf(t)) !! Mine(s.ViewOf(u)))
    && (forall h | h in s.pool.busy :: exists t :: t in s.threads && h in Live(s.ViewOf(t)))
  }

  // ----- One step

  /** What the others own does not move, and a thread gains at most a handle nobody owned. */
  ghost predicate OwnMove(v: View, v': View) {
    && OwnOk(v')
    && v'.pool.busy - Live(v') == v.pool.busy - Live(v)
    && (Mine(v') <= Mine(v) ||
        (InSection(v.pc) && forall h | h in Mine(v') - Mine(v) :: h !in v.pool.busy))
  }

  lemma EnterOwnMove(n: nat, t: Tid, x: Handle, v: View)
    requires OwnOk(v) && PoolOk(n, v) && Enabled(n, v, x)
    requires v.pc.WantGet? || v.pc.GetEntered? || v.pc.GetGrowing? || v.pc.GetOp?
    ensures OwnMove(v, Advance(n, t, x, v))
  {
  }

  lemma LeaveOwnMove(n: nat, t: Tid, x: Handle, v: View)
    requires OwnOk(v) && PoolOk(n, v) && (v.pc.GetInserted? || v.pc.GetLeaving?)
    ensures OwnMove(v, Advance(n, t, x, v))
  {
    var v' := Advance(n, t, x, v);
    assert Mine(v') == Mine(v);
    assert Live(v') == Live(v);
  }

  lemma TakingOwnMove(n: nat, t: Tid, x: Handle, v: View)
    requires OwnOk(v) && PoolOk(n, v) && v.pc.GetTaking?
    ensures OwnMove(v, Advance(n, t, x, v))
  {
  }

  lemma FreeOwnMove(n: nat, t: Tid, x: Handle, v: View)
    requires OwnOk(v) && PoolOk(n, v) && Enabled(n, v, x)
    requires v.pc.WantFree? || v.pc.FreeEntered? || v.pc.FreeFound? || v.pc.FreeErased? || v.pc.FreeInOp?
    ensures OwnMove(v, Advance(n, t, x, v))
  {
  }

  lemma ErasingOwnMove(n: nat, t: Tid, x: Handle, v: View)
    requires OwnOk(v) && PoolOk(n, v)
    requires v.pc.FreeLeaving? || (v.pc.FreeInserted? && v.pc.h in v.held)
    ensures OwnMove(v, Advance(n, t, x, v))
  {
  }

  lemma EachOwnMove(n: nat, t: Tid, x: Handle, v: View)
    requires OwnOk(v)
    requires v.pc.WantEach? || v.pc.EachWalking? || v.pc.EachInOp? || v.pc.EachLeaving?
    ensures OwnMove(v, Advance(n, t, x, v))
  {
  }

  lemma AdvanceOwnMove(n: nat, t: Tid, x: Handle, v: View)
    requires OwnOk(v) && PoolOk(n, v) && Enabled(n, v, x) && !Stale(v)
    ensures OwnMove(v, Advance(n, t, x, v))
  {
    match v.pc
    case GetTaking(_) => TakingOwnMove(n, t, x, v);
    case FreeInserted(_) => ErasingOwnMove(n, t, x, v);
    case FreeLeaving(_, _) => ErasingOwnMove(n, t, x, v);
    case WantFree(_) => FreeOwnMove(n, t, x, v);
    case FreeEntered(_) => FreeOwnMove(n, t, x, v);
    case FreeFound(_) => FreeOwnMove(n, t, x, v);
    case FreeErased(_) => FreeOwnMove(n, t, x, v);
    case FreeInOp(_) => FreeOwnMove(n, t, x, v);
    case WantEach => EachOwnMove(n, t, x, v);
    case EachWalking(_) => EachOwnMove(n, t, x, v);
    case EachInOp(_, _) => EachOwnMove(n, t, x, v);
    case EachLeaving(_) => EachOwnMove(n, t, x, v);
    case GetInserted(_) => LeaveOwnMove(n, t, x, v);
    case GetLeaving(_) => LeaveOwnMove(n, t, x, v);
    case _ => EnterOwnMove(n, t, x, v);
  }

  lemma MovedOwnMove(n: nat, init: PoolState, v: View, a: Action)
    requires OwnOk(v) && Good(n, init, a.t, v)
    requires if a.Call? then v.pc == Idle else Enabled(n, v, a.x) && !Stale(v)
    ensures OwnMove(v, Moved(n, v, a))
  {
    if a.Step? && !v.pc.GetOp? {
      AdvanceOwnMove(n, a.t, a.x, v);
    }
  }

  /** The others' views: what they own was busy, outside the mover's part of the busy set. */
  lemma OtherUntouched(v: View, v': View, w: View, w': View)
    requires OwnMove(v, v') && OwnOk(v) && OwnOk(w) && Mine(v) !! Mine(w) && w.pool == v.pool
    requires InSection(v.pc) ==> !InSection(w.pc)
    requires w' == w.(pool := v'.pool, lock := v'.lock, log := v'.log)
    ensures OwnOk(w') && Mine(w') == Mine(w) && Live(w') == Live(w) && Mine(w') !! Mine(v')
  {
    assert Live(w) <= v.pool.busy - Live(v);
  }

  lemma OthersKeepOwn(n: nat, init: PoolState, s: Sys, t: Tid, v': View, u: Tid)
    requires Inv(n, init, s) && Own(s) && t in s.threads && u in s.threads && u != t
    requires OwnMove(s.ViewOf(t), v')
    ensures var w := s.Put(t, v').ViewOf(u);
      OwnOk(w) && Mine(w) == Mine(s.ViewOf(u)) && Live(w) == Live(s.ViewOf(u)) && Mine(w) !! Mine(v')
  {
    OtherUntouched(s.ViewOf(t), v', s.ViewOf(u), s.Put(t, v').ViewOf(u));
  }

  lemma BusyStaysOwned(s: Sys, t: Tid, v': View, h: Handle)
    requires Own(s) && t in s.threads && OwnMove(s.ViewOf(t), v') && h in v'.pool.busy
    ensures exists u :: u in s.threads && h in Live(s.Put(t, v').ViewOf(u))
  {
    var s' := s.Put(t, v');
    if h in Live(v') {
    } else {
      assert h in s.pool.busy - Live(s.ViewOf(t));
      var u :| u in s.threads && h in Live(s.ViewOf(u));
      assert Live(s'.ViewOf(u)) == Live(s.ViewOf(u));
    }
  }

  lemma PutKeepsOwn(n: nat, init: PoolState, s: Sys, t: Tid, v': View)
    requires Inv(n, init, s) && Own(s) && t in s.threads && OwnMove(s.ViewOf(t), v')
    ensures Own(s.Put(t, v'))
  {
    var s' := s.Put(t, v');
    forall u | u in s'.threads ensures OwnOk(s'.ViewOf(u)) {
      if u != t { OthersKeepOwn(n, init, s, t, v', u); }
    }
    forall u, w | u in s'.threads && w in s'.threads && u != w
      ensures Mine(s'.ViewOf(u)) !! Mine(s'.ViewOf(w))
    {
      if u != t { OthersKeepOwn(n, init, s, t, v', u); }
      if w != t { OthersKeepOwn(n, init, s, t, v', w); }
      if u != t && w != t { assert Mine(s.ViewOf(u)) !! Mine(s.ViewOf(w)); }
    }
    forall h | h in s'.pool.busy ensures exists u :: u in s'.threads && h in Live(s'.ViewOf(u)) {
      BusyStaysOwned(s, t, v', h);
    }
  }

  /** The one kind of step that can hurt: an erase by a thread that does not hold the handle. */
  ghost predicate StaleErase(s: Sys, a: Action) {
    a.Step? && a.t in s.threads && Stale(s.ViewOf(a.t))
  }

  lemma StaleIsBusy(n: nat, init: PoolState, s: Sys, t: Tid)
    requires Inv(n, init, s) && t in s.threads && Stale(s.ViewOf(t))
    ensures s.lock == Some(t) && s.threads[t].pc.h in s.pool.busy && s.threads[t].pc.h !in Live(s.ViewOf(t))
  {
    assert Good(n, init, t, s.ViewOf(t));
  }

  lemma ErasedIsLost(n: nat, s: Sys, a: Action, u: Tid)
    requires CanDo(n, s, a) && StaleErase(s, a) && u in s.threads && u != a.t
    requires s.threads[a.t].pc.h in Live(s.ViewOf(u))
    ensures !OwnOk(Do(n, s, a).ViewOf(u))
  {
    assert Live(Do(n, s, a).ViewOf(u)) == Live(s.ViewOf(u));
  }

  lemma StaleErasePreventsOwn(n: nat, init: PoolState, s: Sys, a: Action)
    requires Inv(n, init, s) && Own(s) && CanDo(n, s, a) && StaleErase(s, a)
    ensures !Own(Do(n, s, a))
  {
    StaleIsBusy(n, init, s, a.t);
    var u :| u in s.threads && s.threads[a.t].pc.h in Live(s.ViewOf(u));
    ErasedIsLost(n, s, a, u);
  }

  /** A step keeps ownership exactly if it is not the erase of a handle its thread does not
      hold, whatever the other threads are in the middle of. */
  lemma StepKeepsOwnIff(n: nat, init: PoolState, s: Sys, a: Action)
    requires Inv(n, init, s) && Own(s) && CanDo(n, s, a)
    ensures Own(Do(n, s, a)) <==> !StaleErase(s, a)
  {
    var v := s.ViewOf(a.t);
    if StaleErase(s, a) {
      StaleErasePreventsOwn(n, init, s, a);
    } else {
      MovedOwnMove(n, init, v, a);
      PutKeepsOwn(n, init, s, a.t, Moved(n, v, a));
    }
  }

  // ----- Every run

  /** The state is owned after every action of the run. */
  ghost predicate OwnThroughout(n: nat, s: Sys, acts: seq<Action>) {
    Own(After(n, s, acts)) && (acts != [] ==> OwnThroughout(n, s, acts[..|acts| - 1]))
  }

  /** Every erase of the run is made by a thread that holds the handle. */
  ghost predicate ErasesByHolders(n: nat, s: Sys, acts: seq<Action>) {
    acts != [] ==>
      && ErasesByHolders(n, s, acts[..|acts| - 1])
      && !StaleErase(After(n, s, acts[..|acts| - 1]), acts[|acts| - 1])
  }

  /** A run keeps ownership all the way exactly if every erase in it is made by a holder. */
  lemma {:induction false} RunKeepsOwnIff(n: nat, init: PoolState, s: Sys, acts: seq<Action>)
    requires Inv(n, init, s) && Own(s) && CanRun(n, s, acts)
    ensures OwnThroughout(n, s, acts) <==> ErasesByHolders(n, s, acts)
  {
    if acts != [] {
      var front, a := acts[..|acts| - 1], acts[|acts| - 1];
      RunKeepsOwnIff(n, init, s, front);
      RunKeepsInv(n, init, s, front);
      if ErasesByHolders(n, s, front) {
        StepKeepsOwnIff(n, init, After(n, s, front), a);
      }
    }
  }

  /** The calls of a run that free a handle their caller does not hold. */
  ghost function Lapses(n: nat, s: Sys, acts: seq<Action>): seq<Action> {
    if acts == [] then []
    else
      var front, a := acts[..|acts| - 1], acts[|acts| - 1];
      Lapses(n, s, front) + (if Disciplined(After(n, s, front), a) then [] else [a])
  }

  /** A run in which every `free` names a handle its caller holds. */
  ghost predicate DisciplinedRun(n: nat, s0: Sys, acts: seq<Action>, s: Sys) {
    Reaches(n, s0, acts, s) && Lapses(n, s0, acts) == []
  }

  ghost predicate AllHold(s: Sys, group: set<Tid>) {
    forall t | t in group && t in s.threads :: HoldsFreed(s.threads[t])
  }

  lemma HoldingKept(n: nat, s: Sys, a: Action, group: set<Tid>)
    requires CanDo(n, s, a) && Disciplined(s, a) && AllHold(s, group)
    ensures AllHold(Do(n, s, a), group)
  {
    var v := s.ViewOf(a.t);
    assert HoldsFreed(s.threads[a.t]) ==> Freeing(Moved(n, v, a).pc) <= Moved(n, v, a).held;
  }

  /** Threads that hold what they free and keep to the discipline never hurt ownership. */
  lemma {:induction false} GroupKeepsOwn(n: nat, init: PoolState, s: Sys, more: seq<Action>, group: set<Tid>)
    requires Inv(n, init, s) && Own(s) && AllHold(s, group)
    requires CanRun(n, s, more) && Lapses(n, s, more) == [] && forall a | a in more :: a.t in group
    ensures Own(After(n, s, more)) && AllHold(After(n, s, more), group)
  {
    if more != [] {
      var front, a := more[..|more| - 1], more[|more| - 1];
      GroupKeepsOwn(n, init, s, front, group);
      RunKeepsInv(n, init, s, front);
      var mid := After(n, s, front);
      HoldingKept(n, mid, a, group);
      StepKeepsOwnIff(n, init, mid, a);
    }
  }

  lemma DisciplinedKeepsOwn(n: nat, init: PoolState, s0: Sys, acts: seq<Action>, s: Sys)
    requires Initial(n, init, s0) && DisciplinedRun(n, s0, acts, s)
    ensures Inv(n, init, s) && Own(s) && AllHold(s, s.threads.Keys)
  {
    InitialIsOwned(n, init, s0);
    RunKeepsInv(n, init, s0, acts);
    SameThreads(n, s0, acts);
    GroupKeepsOwn(n, init, s0, acts, s0.threads.Keys);
  }

  lemma InitialIsOwned(n: nat, init: PoolState, s0: Sys)
    requires Initial(n, init, s0)
    ensures Inv(n, init, s0) && Own(s0) && AllHold(s0, s0.threads.Keys)
  {
  }

  lemma {:induction false} SameThreads(n: nat, s: Sys, more: seq<Action>)
    requires CanRun(n, s, more)
    ensures After(n, s, more).threads.Keys == s.threads.Keys
    ensures forall a | a in more :: a.t in s.threads
  {
    if more != [] {
      SameThreads(n, s, more[..|more| - 1]);
    }
  }

  /** No handle is ever held by, or on its way to, two threads. */
  lemma ExclusiveOwnership(n: nat, init: PoolState, s0: Sys, acts: seq<Action>, s: Sys, t: Tid, u: Tid)
    requires Initial(n, init, s0) && DisciplinedRun(n, s0, acts, s)
    requires t in s.threads && u in s.threads && t != u
    ensures (s.threads[t].held + Claims(s.threads[t].pc)) !! (s.threads[u].held + Claims(s.threads[u].pc))
  {
    DisciplinedKeepsOwn(n, init, s0, acts, s);
  }

  lemma CallbackView(n: nat, init: PoolState, t: Tid, v: View)
    requires Good(n, init, t, v) && v.pc.FreeInOp? && Freeing(v.pc) <= v.held
    ensures v.lock == Some(t) && v.pc.h in v.pool.free && v.pc.h !in v.pool.busy && v.pc.h in v.held
  {
  }

  /** While the callback of `free` runs on `h`, the handle is free already, its caller still
      holds it, and nobody else holds it or is being handed it. */
  lemma CallbackOwnsHandle(n: nat, init: PoolState, s0: Sys, acts: seq<Action>, s: Sys, t: Tid, u: Tid)
    requires Initial(n, init, s0) && DisciplinedRun(n, s0, acts, s)
    requires t in s.threads && s.threads[t].pc.FreeInOp? && u in s.threads && u != t
    ensures var h := s.threads[t].pc.h;
      && h in s.pool.free && h !in s.pool.busy
      && h in s.threads[t].held
      && h !in s.threads[u].held + Claims(s.threads[u].pc)
      && !InSection(s.threads[u].pc)
  {
    DisciplinedKeepsOwn(n, init, s0, acts, s);
    CallbackView(n, init, t, s.ViewOf(t));
  }

  function Holdings(s: Sys): map<Tid, set<Handle>> {
    map t | t in s.threads :: s.threads[t].held
  }

  /** The busy set is the disjoint union of what the threads hold. */
  ghost predicate Exclusive(busy: set<Handle>, held: map<Tid, set<Handle>>) {
    && (forall t, u | t in held && u in held && t != u :: held[t] !! held[u])
    && (forall t | t in held :: held[t] <= busy)
    && (forall h | h in busy :: exists t :: t in held && h in held[t])
  }

  lemma QuietOwn(s: Sys)
    requires Own(s) && forall t | t in s.threads :: s.threads[t].pc == Idle
    ensures Exclusive(s.pool.busy, Holdings(s))
  {
    forall t | t in s.threads ensures Live(s.ViewOf(t)) == Mine(s.ViewOf(t)) == s.threads[t].held <= s.pool.busy {
    }
    forall t, u | t in s.threads && u in s.threads && t != u ensures s.threads[t].held !! s.threads[u].held {
    }
    forall h | h in s.pool.busy ensures exists t :: t in Holdings(s) && h in Holdings(s)[t] {
      var t :| t in s.threads && h in Live(s.ViewOf(t));
      assert h in Holdings(s)[t];
    }
  }

  /** Whenever no call is running, nothing busy is lost and nothing held is free. */
  lemma QuietMeansExclusive(n: nat, init: PoolState, s0: Sys, acts: seq<Action>, s: Sys)
    requires Initial(n, init, s0) && DisciplinedRun(n, s0, acts, s)
    requires forall t | t in s.threads :: s.threads[t].pc == Idle
    ensures Exclusive(s.pool.busy, Holdings(s))
  {
    DisciplinedKeepsOwn(n, init, s0, acts, s);
    QuietOwn(s);
  }
}

/** The pool under any number of threads. Every statement of `get`, `free` and `each` between
    taking and dropping the mutex is a step of its own: one round of the growth loop, one insert,
    one erase, the start and the end of a callback. The two sets overlap between an insert and
    the erase that follows it. */
module PoolThreads {
  import opened Handles
  import opened PoolSpec

  type Tid = nat

  datatype Op = CallGet | CallFree(h: Handle) | CallEach

  /** Where a thread is. `Want...` waits for the mutex; the states from `GetEntered` to
      `GetLeaving`, `FreeEntered` to `FreeLeaving` and `EachWalking` to `EachLeaving` hold it.
      `GetOp` runs the callback of `get(op)`, after the mutex is dropped and unless there is no
      handle; the plain `get` is the one whose callback does nothing. */
  datatype PC =
    | Idle
    | WantGet | GetEntered | GetGrowing(i: nat, batch: set<Handle>) | GetTaking(batch: set<Handle>)
    | GetInserted(h: Handle) | GetLeaving(r: Option<Handle>) | GetOp(h: Handle)
    | WantFree(h: Handle) | FreeEntered(h: Handle) | FreeFound(h: Handle) | FreeInserted(h: Handle)
    | FreeErased(h: Handle) | FreeInOp(h: Handle) | FreeLeaving(h: Handle, found: bool)
    | WantEach | EachWalking(visited: seq<Handle>) | EachInOp(visited: seq<Handle>, h: Handle)
    | EachLeaving(visited: seq<Handle>)

  predicate InSection(pc: PC) {
    !pc.Idle? && !pc.WantGet? && !pc.WantFree? && !pc.WantEach? && !pc.GetOp?
  }

  /** One completed call, as the atomic pool sees it. Entries are written at the one step of the
      call that counts as its moment: the insert into the busy set, the erase from it, or the
      failed test. */
  datatype Entry = Entry(tid: Tid, event: Event, response: Response)

  /** What one thread can read and write: the shared pool, mutex and log, and its own program
      counter, the handles it holds, the calls it made and the answers they have returned. */
  datatype View = View(pool: PoolState, lock: Option<Tid>, log: seq<Entry>,
                       pc: PC, held: set<Handle>, asked: seq<Op>, seen: seq<Response>)

  function Invoke(v: View, op: Op): View {
    var pc := match op
      case CallGet => WantGet
      case CallFree(h) => WantFree(h)
      case CallEach => WantEach;
    v.(pc := pc, asked := v.asked + [op])
  }

  function SetOf(hs: seq<Handle>): set<Handle> { set h | h in hs }

  /** The next step of thread `t`; `x` is what the factory answers if the step asks it. */
  function Advance(n: nat, t: Tid, x: Handle, v: View): View {
    match v.pc
    case Idle => v
    case WantGet => v.(lock := Some(t), pc := GetEntered)
    case GetEntered => v.(pc := if v.pool.free == {} then GetGrowing(0, {}) else GetTaking({}))
    case GetGrowing(i, batch) =>
      if i < n then v.(pool := v.pool.(free := v.pool.free + {x}), pc := GetGrowing(i + 1, batch + {x}))
      else v.(pc := GetTaking(batch))
    case GetTaking(batch) =>
      if v.pool.free == {} then
        v.(log := v.log + [Entry(t, Get(batch), Got(None))], pc := GetLeaving(None))
      else
        var h := Least(v.pool.free);
        v.(pool := v.pool.(busy := v.pool.busy + {h}),
        log := v.log + [Entry(t, Get(batch), Got(Some(h)))], pc := GetInserted(h))
    case GetInserted(h) =>
      v.(pool := v.pool.(free := if v.pool.free == {} then {} else v.pool.free - {Least(v.pool.free)}),
      pc := GetLeaving(Some(h)))
    case GetLeaving(r) =>
      v.(lock := None, pc := if r.Some? then GetOp(r.value) else Idle, seen := v.seen + [Got(r)],
      held := v.held + if r.Some? then {r.value} else {})
    case GetOp(_) => v.(pc := Idle)
    case WantFree(h) => v.(lock := Some(t), pc := FreeEntered(h))
    case FreeEntered(h) =>
      if h in v.pool.busy then v.(pc := FreeFound(h))
      else v.(log := v.log + [Entry(t, Free(h), Freed(false))], pc := FreeLeaving(h, false))
    case FreeFound(h) => v.(pool := v.pool.(free := v.pool.free + {h}), pc := FreeInserted(h))
    case FreeInserted(h) =>
      v.(pool := v.pool.(busy := v.pool.busy - {h}),
      log := v.log + [Entry(t, Free(h), Freed(true))], pc := FreeErased(h))
    case FreeErased(h) => v.(pc := FreeInOp(h))
    case FreeInOp(h) => v.(pc := FreeLeaving(h, true))
    case FreeLeaving(h, found) =>
      v.(lock := None, pc := Idle, seen := v.seen + [Freed(found)], held := v.held - {h})
    case WantEach => v.(lock := Some(t), pc := EachWalking([]))
    case EachWalking(visited) =>
      var left := v.pool.busy - SetOf(visited);
      if left == {} then
        v.(log := v.log + [Entry(t, Each, Visited(visited))], pc := EachLeaving(visited))
      else v.(pc := EachInOp(visited, Least(left)))
    case EachInOp(visited, h) => v.(pc := EachWalking(visited + [h]))
    case EachLeaving(visited) => v.(lock := None, pc := Idle, seen := v.seen + [Visited(visited)])
  }

  /** A thread that wants the mutex waits until it is free; the factory never answers with a
      handle that is in the pool. */
  ghost predicate Enabled(n: nat, v: View, x: Handle) {
    match v.pc
    case Idle => false
    case WantGet => v.lock == None
    case WantFree(_) => v.lock == None
    case WantEach => v.lock == None
    case GetGrowing(i, _) => i < n ==> x !in v.pool.All()
    case _ => true
  }

  // ----- The atomic pool behind the steps

  /** The state of the atomic pool while a thread is at `pc` inside its critical section. */
  function Abs(pool: PoolState, pc: PC): PoolState {
    match pc
    case GetGrowing(_, batch) => pool.(free := pool.free - batch)
    case GetTaking(batch) => pool.(free := pool.free - batch)
    case GetInserted(h) => pool.(free := pool.free - {h})
    case FreeInserted(h) => pool.(free := pool.free - {h})
    case _ => pool
  }

  function Events(log: seq<Entry>): seq<Event> {
    if log == [] then [] else Events(log[..|log| - 1]) + [log[|log| - 1].event]
  }

  ghost predicate AllAnswered(init: PoolState, log: seq<Entry>) {
    log == [] ||
    (AllAnswered(init, log[..|log| - 1]) &&
     Answers(Run(init, Events(log[..|log| - 1])), log[|log| - 1].event, log[|log| - 1].response))
  }

  /** The log is a run of the atomic pool that ends in `abs`, and every logged answer is the
      answer the atomic pool gives at that point. */
  ghost predicate Refines(n: nat, init: PoolState, abs: PoolState, log: seq<Entry>) {
    && LegalRun(n, init, Events(log))
    && Run(init, Events(log)) == abs
    && AllAnswered(init, log)
  }

  lemma RefinesSnoc(n: nat, init: PoolState, abs: PoolState, log: seq<Entry>, e: Entry)
    requires Refines(n, init, abs, log)
    requires Legal(n, abs, e.event) && Answers(abs, e.event, e.response)
    ensures Refines(n, init, Apply(abs, e.event), log + [e])
  {
  }

  /** The answers the log gives thread `t`, in order. */
  function Project(log: seq<Entry>, t: Tid): seq<Response> {
    if log == [] then []
    else
      var last := log[|log| - 1];
      Project(log[..|log| - 1], t) + (if last.tid == t then [last.response] else [])
  }

  function OpOf(e: Event): Op {
    match e
    case Get(_) => CallGet
    case Free(h) => CallFree(h)
    case Each => CallEach
  }

  /** The calls the log attributes to thread `t`, in order. */
  function Calls(log: seq<Entry>, t: Tid): seq<Op> {
    if log == [] then []
    else
      var last := log[|log| - 1];
      Calls(log[..|log| - 1], t) + (if last.tid == t then [OpOf(last.event)] else [])
  }

  /** The call a thread has made whose moment has not come yet. */
  function Unlogged(pc: PC): seq<Op> {
    match pc
    case WantGet => [CallGet]
    case GetEntered => [CallGet]
    case GetGrowing(_, _) => [CallGet]
    case GetTaking(_) => [CallGet]
    case WantFree(h) => [CallFree(h)]
    case FreeEntered(h) => [CallFree(h)]
    case FreeFound(h) => [CallFree(h)]
    case FreeInserted(h) => [CallFree(h)]
    case WantEach => [CallEach]
    case EachWalking(_) => [CallEach]
    case EachInOp(_, _) => [CallEach]
    case _ => []
  }

  /** The answer a thread has been given but has not returned yet. */
  function Pending(pc: PC): seq<Response> {
    match pc
    case GetInserted(h) => [Got(Some(h))]
    case GetLeaving(r) => [Got(r)]
    case FreeErased(_) => [Freed(true)]
    case FreeInOp(_) => [Freed(true)]
    case FreeLeaving(_, found) => [Freed(found)]
    case EachLeaving(visited) => [Visited(visited)]
    case _ => []
  }

  /** How the two sets stand while the owner of the mutex is at `pc`. */
  ghost predicate SectionOk(n: nat, pool: PoolState, pc: PC) {
    match pc
    case GetGrowing(i, batch) => pool.Valid() && pool.free == batch && |batch| == i <= n
    case GetTaking(batch) =>
      pool.Valid() && if batch == {} then n == 0 || pool.free != {} else pool.free == batch && |batch| == n
    case GetInserted(h) => pool.free * pool.busy == {h} && h == Least(pool.free)
    case FreeFound(h) => pool.Valid() && h in pool.busy
    case FreeInserted(h) => pool.free * pool.busy == {h}
    case FreeErased(h) => pool.Valid() && h in pool.free
    case FreeInOp(h) => pool.Valid() && h in pool.free
    case FreeLeaving(h, found) => pool.Valid() && (found ==> h in pool.free)
    case EachWalking(visited) => pool.Valid() && Prefix(visited, pool.busy)
    case EachInOp(visited, h) => pool.Valid() && Prefix(visited, pool.busy) && IsNext(visited, h, pool.busy)
    case EachLeaving(visited) => pool.Valid() && Lists(visited, pool.busy)
    case _ => pool.Valid()
  }

  ghost predicate Prefix(visited: seq<Handle>, busy: set<Handle>) {
    && Lists(visited, SetOf(visited)) && SetOf(visited) <= busy
    && forall x, y | x in SetOf(visited) && y in busy - SetOf(visited) :: x < y
  }

  ghost predicate IsNext(visited: seq<Handle>, h: Handle, busy: set<Handle>) {
    h in busy - SetOf(visited) && forall y | y in busy - SetOf(visited) :: h <= y
  }

  /** What a single thread's view satisfies in every reachable state. */
  ghost predicate Good(n: nat, init: PoolState, t: Tid, v: View) {
    && (v.lock == Some(t) <==> InSection(v.pc))
    && (v.lock == Some(t) ==> SectionOk(n, v.pool, v.pc) && Refines(n, init, Abs(v.pool, v.pc), v.log))
    && (v.lock == None ==> v.pool.Valid() && Refines(n, init, v.pool, v.log))
    && Project(v.log, t) == v.seen + Pending(v.pc)
    && v.asked == Calls(v.log, t) + Unlogged(v.pc)
  }

  /** The entry a step writes into the log, if it is the moment of its call. */
  function Logged(t: Tid, v: View): seq<Entry> {
    match v.pc
    case GetTaking(batch) =>
      [Entry(t, Get(batch), Got(if v.pool.free == {} then None else Some(Least(v.pool.free))))]
    case FreeEntered(h) => if h in v.pool.busy then [] else [Entry(t, Free(h), Freed(false))]
    case FreeInserted(h) => [Entry(t, Free(h), Freed(true))]
    case EachWalking(visited) =>
      if v.pool.busy - SetOf(visited) == {} then [Entry(t, Each, Visited(visited))] else []
    case _ => []
  }

  ghost predicate PoolOk(n: nat, v: View) {
    if InSection(v.pc) then SectionOk(n, v.pool, v.pc) else v.pool.Valid()
  }

  /** A step either leaves the atomic pool alone and logs nothing, or is one event of it. */
  ghost predicate OneEvent(n: nat, t: Tid, v: View, v': View) {
    var abs, abs' := Abs(v.pool, v.pc), Abs(v'.pool, v'.pc);
    var logged := Logged(t, v);
    && v'.log == v.log + logged
    && if logged == [] then abs' == abs
       else
         && logged[0].tid == t
         && Legal(n, abs, logged[0].event) && Answers(abs, logged[0].event, logged[0].response)
         && abs' == Apply(abs, logged[0].event)
  }

  lemma GetStep(n: nat, t: Tid, x: Handle, v: View)
    requires PoolOk(n, v) && Enabled(n, v, x)
    requires v.pc.WantGet? || v.pc.GetEntered? || v.pc.GetInserted? || v.pc.GetLeaving? || v.pc.GetOp?
    ensures PoolOk(n, Advance(n, t, x, v)) && OneEvent(n, t, v, Advance(n, t, x, v))
  {
  }

  lemma GrowingStep(n: nat, t: Tid, x: Handle, v: View)
    requires PoolOk(n, v) && Enabled(n, v, x) && v.pc.GetGrowing?
    ensures PoolOk(n, Advance(n, t, x, v)) && OneEvent(n, t, v, Advance(n, t, x, v))
  {
  }

  lemma TakingStep(n: nat, t: Tid, x: Handle, v: View)
    requires PoolOk(n, v) && v.pc.GetTaking?
    ensures PoolOk(n, Advance(n, t, x, v)) && OneEvent(n, t, v, Advance(n, t, x, v))
  {
    var v' := Advance(n, t, x, v);
    var abs, batch := Abs(v.pool, v.pc), v.pc.batch;
    assert Abs(v'.pool, v'.pc) == Apply(abs, Get(batch));
  }

  lemma FreeStep(n: nat, t: Tid, x: Handle, v: View)
    requires PoolOk(n, v) && Enabled(n, v, x)
    requires v.pc.WantFree? || v.pc.FreeEntered? || v.pc.FreeErased? || v.pc.FreeInOp? || v.pc.FreeLeaving?
    ensures PoolOk(n, Advance(n, t, x, v)) && OneEvent(n, t, v, Advance(n, t, x, v))
  {
  }

  lemma MovingStep(n: nat, t: Tid, x: Handle, v: View)
    requires PoolOk(n, v) && (v.pc.FreeFound? || v.pc.FreeInserted?)
    ensures PoolOk(n, Advance(n, t, x, v)) && OneEvent(n, t, v, Advance(n, t, x, v))
  {
  }

  lemma WalkingStep(n: nat, t: Tid, x: Handle, v: View)
    requires PoolOk(n, v) && v.pc.EachWalking?
    ensures PoolOk(n, Advance(n, t, x, v)) && OneEvent(n, t, v, Advance(n, t, x, v))
  {
    var done := SetOf(v.pc.visited);
    if v.pool.busy - done == {} {
      assert v.pool.busy == v.pool.busy - done + done;
    }
  }

  lemma EachStep(n: nat, t: Tid, x: Handle, v: View)
    requires PoolOk(n, v) && Enabled(n, v, x) && (v.pc.WantEach? || v.pc.EachInOp? || v.pc.EachLeaving?)
    ensures PoolOk(n, Advance(n, t, x, v)) && OneEvent(n, t, v, Advance(n, t, x, v))
  {
    if v.pc.EachInOp? {
      var visited, h := v.pc.visited, v.pc.h;
      var done := SetOf(visited);
      ListsSnoc(visited, done, h);
      assert SetOf(visited + [h]) == done + {h};
      forall a, b | a in done + {h} && b in v.pool.busy - (done + {h}) ensures a < b {
        assert b in v.pool.busy - done;
      }
    }
  }

  lemma AdvanceIsOneEvent(n: nat, t: Tid, x: Handle, v: View)
    requires PoolOk(n, v) && Enabled(n, v, x)
    ensures PoolOk(n, Advance(n, t, x, v)) && OneEvent(n, t, v, Advance(n, t, x, v))
  {
    match v.pc
    case GetGrowing(_, _) => GrowingStep(n, t, x, v);
    case GetTaking(_) => TakingStep(n, t, x, v);
    case FreeFound(_) => MovingStep(n, t, x, v);
    case FreeInserted(_) => MovingStep(n, t, x, v);
    case EachWalking(_) => WalkingStep(n, t, x, v);
    case WantFree(_) => FreeStep(n, t, x, v);
    case FreeEntered(_) => FreeStep(n, t, x, v);
    case FreeErased(_) => FreeStep(n, t, x, v);
    case FreeInOp(_) => FreeStep(n, t, x, v);
    case FreeLeaving(_, _) => FreeStep(n, t, x, v);
    case WantEach => EachStep(n, t, x, v);
    case EachInOp(_, _) => EachStep(n, t, x, v);
    case EachLeaving(_) => EachStep(n, t, x, v);
    case _ => GetStep(n, t, x, v);
  }

  /** Answers are returned in the order they were logged. */
  ghost predicate OneAnswer(t: Tid, v: View, v': View) {
    var logged := Logged(t, v);
    v'.seen + Pending(v'.pc) == v.seen + Pending(v.pc) + (if logged == [] then [] else [logged[0].response])
  }

  lemma AdvanceAnswers(n: nat, t: Tid, x: Handle, v: View)
    ensures OneAnswer(t, v, Advance(n, t, x, v))
  {
  }

  /** A step that logs a call logs the call the thread made. */
  ghost predicate OneCall(t: Tid, v: View, v': View) {
    var logged := Logged(t, v);
    v'.asked == v.asked && Unlogged(v.pc) == (if logged == [] then [] else [OpOf(logged[0].event)]) + Unlogged(v'.pc)
  }

  lemma AdvanceCalls(n: nat, t: Tid, x: Handle, v: View)
    ensures OneCall(t, v, Advance(n, t, x, v))
  {
  }

  lemma LoggedOnce(t: Tid, v: View)
    ensures Logged(t, v) == [] || Logged(t, v) == [Logged(t, v)[0]]
  {
  }

  lemma OutsideIsPool(pool: PoolState, pc: PC)
    requires !InSection(pc)
    ensures Abs(pool, pc) == pool
  {
  }

  lemma EventKeepsHistory(t: Tid, v: View, v': View)
    requires v'.log == v.log + Logged(t, v) && OneAnswer(t, v, v') && OneCall(t, v, v')
    requires Logged(t, v) != [] ==> Logged(t, v)[0].tid == t
    requires Project(v.log, t) == v.seen + Pending(v.pc) && v.asked == Calls(v.log, t) + Unlogged(v.pc)
    ensures Project(v'.log, t) == v'.seen + Pending(v'.pc) && v'.asked == Calls(v'.log, t) + Unlogged(v'.pc)
  {
    var logged := Logged(t, v);
    LoggedOnce(t, v);
    if logged == [] {
      assert v.log + [] == v.log;
    }
  }

  lemma EventKeepsRefinement(n: nat, init: PoolState, t: Tid, v: View, v': View)
    requires OneEvent(n, t, v, v') && Refines(n, init, Abs(v.pool, v.pc), v.log)
    ensures Refines(n, init, Abs(v'.pool, v'.pc), v'.log)
  {
    var logged := Logged(t, v);
    if logged == [] {
      assert v.log + [] == v.log;
    } else {
      RefinesSnoc(n, init, Abs(v.pool, v.pc), v.log, logged[0]);
    }
  }

  lemma EventKeepsGood(n: nat, init: PoolState, t: Tid, v: View, v': View)
    requires Good(n, init, t, v) && (v.lock == Some(t) || v.lock == None)
    requires PoolOk(n, v') && OneEvent(n, t, v, v') && OneAnswer(t, v, v') && OneCall(t, v, v')
    requires v'.lock == Some(t) <==> InSection(v'.pc)
    ensures Good(n, init, t, v')
  {
    if !InSection(v.pc) { OutsideIsPool(v.pool, v.pc); }
    if !InSection(v'.pc) { OutsideIsPool(v'.pool, v'.pc); }
    EventKeepsRefinement(n, init, t, v, v');
    EventKeepsHistory(t, v, v');
  }

  lemma OutsiderKeepsGood(n: nat, init: PoolState, t: Tid, x: Handle, v: View)
    requires Good(n, init, t, v) && Enabled(n, v, x) && v.lock != Some(t) && v.lock != None
    ensures Good(n, init, t, Advance(n, t, x, v))
  {
    assert v.pc.GetOp?;
  }

  lemma InsiderKeepsGood(n: nat, init: PoolState, t: Tid, x: Handle, v: View, v': View)
    requires Good(n, init, t, v) && Enabled(n, v, x) && (v.lock == Some(t) || v.lock == None)
    requires v' == Advance(n, t, x, v)
    ensures Good(n, init, t, v')
  {
    AdvanceAnswers(n, t, x, v);
    AdvanceCalls(n, t, x, v);
    AdvanceIsOneEvent(n, t, x, v);
    AdvanceLocks(n, t, x, v);
    EventKeepsGood(n, init, t, v, v');
  }

  lemma AdvanceLocks(n: nat, t: Tid, x: Handle, v: View)
    requires (v.lock == Some(t) <==> InSection(v.pc)) && Enabled(n, v, x)
    ensures Advance(n, t, x, v).lock == Some(t) <==> InSection(Advance(n, t, x, v).pc)
  {
  }

  lemma AdvanceKeepsGood(n: nat, init: PoolState, t: Tid, x: Handle, v: View)
    requires Good(n, init, t, v) && Enabled(n, v, x)
    ensures Good(n, init, t, Advance(n, t, x, v))
  {
    if v.lock == Some(t) || v.lock == None {
      InsiderKeepsGood(n, init, t, x, v, Advance(n, t, x, v));
    } else {
      OutsiderKeepsGood(n, init, t, x, v);
    }
  }
}

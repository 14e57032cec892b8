/** What a caller has to know before it frees a handle. Holding it is enough; that nobody holds
    it is not, because another thread may be handed it before the `free` takes the mutex. */
module PoolStaleFree {
  import opened Handles
  import opened PoolSpec
  import opened PoolThreads
  import opened PoolSystem
  import opened PoolOwnership

  /** No two threads hold the same handle. */
  ghost predicate NoneShared(s: Sys) {
    forall t, u | t in s.threads && u in s.threads && t != u :: s.threads[t].held !! s.threads[u].held
  }

  /** Some run from `s` to `s'` frees only what its callers hold. */
  ghost predicate Leads(n: nat, s: Sys, s': Sys) {
    exists more :: CanRun(n, s, more) && Lapses(n, s, more) == [] && s' == After(n, s, more)
  }

  lemma {:induction false} LapsesAppend(n: nat, s: Sys, acts: seq<Action>, more: seq<Action>)
    ensures Lapses(n, s, acts + more) == Lapses(n, s, acts) + Lapses(n, After(n, s, acts), more)
  {
    if more == [] {
      assert acts + more == acts;
    } else {
      var front := more[..|more| - 1];
      LapsesAppend(n, s, acts, front);
      RunAppend(n, s, acts, front);
      assert (acts + more)[..|acts + more| - 1] == acts + front;
    }
  }

  lemma LeadsTrans(n: nat, a: Sys, b: Sys, c: Sys)
    requires Leads(n, a, b) && Leads(n, b, c)
    ensures Leads(n, a, c)
  {
    var acts :| CanRun(n, a, acts) && Lapses(n, a, acts) == [] && b == After(n, a, acts);
    var more :| CanRun(n, b, more) && Lapses(n, b, more) == [] && c == After(n, b, more);
    RunAppend(n, a, acts, more);
    LapsesAppend(n, a, acts, more);
  }

  lemma LeadsDo(n: nat, s: Sys, s': Sys, a: Action)
    requires Leads(n, s, s') && CanDo(n, s', a) && Disciplined(s', a)
    ensures Leads(n, s, Do(n, s', a))
  {
    var acts :| CanRun(n, s, acts) && Lapses(n, s, acts) == [] && s' == After(n, s, acts);
    var longer := acts + [a];
    assert longer[..|longer| - 1] == acts;
    assert CanRun(n, s, longer) && Lapses(n, s, longer) == [] && After(n, s, longer) == Do(n, s', a);
  }

  lemma LeadsHere(n: nat, s: Sys)
    ensures Leads(n, s, s)
  {
    assert CanRun(n, s, []) && Lapses(n, s, []) == [] && s == After(n, s, []);
  }

  lemma {:induction false} StepsDoNotLapse(n: nat, s: Sys, more: seq<Action>)
    requires forall a | a in more :: a.Step?
    ensures Lapses(n, s, more) == []
  {
    if more != [] {
      StepsDoNotLapse(n, s, more[..|more| - 1]);
      assert more[|more| - 1].Step?;
    }
  }

  // ----- One thread at a time

  /** Thread `t` alone gets from `s` to the view `v`. */
  ghost predicate Alone(n: nat, s: Sys, t: Tid, v: View) {
    t in s.threads && Leads(n, s, s.Put(t, v))
  }

  lemma StartAlone(n: nat, s: Sys, t: Tid)
    requires t in s.threads
    ensures Alone(n, s, t, s.ViewOf(t))
  {
    LeadsHere(n, s);
    assert s.Put(t, s.ViewOf(t)) == s;
  }

  lemma MoveAlone(n: nat, s: Sys, t: Tid, v: View, a: Action)
    requires Alone(n, s, t, v) && a.t == t
    requires if a.Call? then v.pc == Idle && (a.op.CallFree? ==> a.op.h in v.held) else Enabled(n, v, a.x)
    ensures Alone(n, s, t, Moved(n, v, a))
  {
    var s' := s.Put(t, v);
    assert s'.ViewOf(t) == v;
    LeadsDo(n, s, s', a);
    assert Do(n, s', a) == s.Put(t, Moved(n, v, a));
  }

  lemma Advances(n: nat, s: Sys, t: Tid, v: View, x: Handle) returns (v': View)
    requires Alone(n, s, t, v) && Enabled(n, v, x)
    ensures v' == Advance(n, t, x, v) && Alone(n, s, t, v')
  {
    MoveAlone(n, s, t, v, Step(t, x));
    v' := Advance(n, t, x, v);
  }

  /** The growth loop, when the factory answers `h` first. */
  lemma {:induction false} GrowAlone(n: nat, s: Sys, t: Tid, v: View, h: Handle) returns (v': View)
    requires Alone(n, s, t, v) && v.pc.GetGrowing? && v.pc.i <= n && n > 0
    requires v.pool.free == v.pc.batch && |v.pc.batch| == v.pc.i && v.pool.Valid()
    requires h !in v.pool.busy && (v.pc.i > 0 ==> h in v.pc.batch)
    ensures Alone(n, s, t, v') && v'.pc.GetTaking? && h in v'.pool.free && |v'.pool.free| == n
    ensures v'.pool.Valid() && v' == v.(pool := v.pool.(free := v'.pool.free), pc := v'.pc)
    decreases n - v.pc.i
  {
    v' := Advances(n, s, t, v, if v.pc.i == 0 then h else Fresh(v.pool.All()));
    if v.pc.i < n {
      v' := GrowAlone(n, s, t, v', h);
    }
  }

  /** From the entry of `get` to the choice of a handle; growth, if any, makes `h`. */
  lemma EnterGet(n: nat, s: Sys, t: Tid, h: Handle) returns (v: View)
    requires t in s.threads && s.threads[t].pc == Idle && s.lock == None
    requires n > 0 && s.pool.Valid() && h !in s.pool.busy
    ensures Alone(n, s, t, v) && v.pc.GetTaking? && v.lock == Some(t)
    ensures v.pool.Valid() && v.pool.busy == s.pool.busy && v.held == s.threads[t].held
    ensures if s.pool.free != {} then v.pool.free == s.pool.free else h in v.pool.free && |v.pool.free| == n
  {
    StartAlone(n, s, t);
    v := s.ViewOf(t);
    MoveAlone(n, s, t, v, Call(t, CallGet));
    v := Advances(n, s, t, Invoke(v, CallGet), 0);
    v := Advances(n, s, t, v, 0);
    if s.pool.free == {} {
      v := GrowAlone(n, s, t, v, h);
    }
  }

  /** From the choice to the return. */
  lemma LeaveGet(n: nat, s: Sys, t: Tid, v: View) returns (v': View)
    requires Alone(n, s, t, v) && v.pc.GetTaking? && v.pool.Valid() && v.pool.free != {}
    ensures Alone(n, s, t, v') && v'.pc == Idle && v'.lock == None
    ensures var g := Least(v.pool.free);
      v'.pool == PoolState(v.pool.free - {g}, v.pool.busy + {g}) && v'.held == v.held + {g}
  {
    v' := Advances(n, s, t, v, 0);
    v' := Advances(n, s, t, v', 0);
    v' := Advances(n, s, t, v', 0);
    v' := Advances(n, s, t, v', 0);
  }

  /** How `s'` differs from `s` after calls of `t` that all returned. */
  ghost predicate OnlyBy(n: nat, t: Tid, s: Sys, s': Sys) {
    && t in s.threads && s'.threads.Keys == s.threads.Keys
    && Leads(n, s, s') && s'.lock == None && s'.threads[t].pc == Idle
    && forall u | u in s.threads && u != t :: s'.threads[u] == s.threads[u]
  }

  lemma WholeGet(n: nat, s: Sys, t: Tid, h: Handle) returns (s': Sys, made: set<Handle>)
    requires t in s.threads && s.threads[t].pc == Idle && s.lock == None
    requires n > 0 && s.pool.Valid() && h !in s.pool.busy
    ensures OnlyBy(n, t, s, s')
    ensures if s.pool.free != {} then made == s.pool.free else h in made && |made| == n && made !! s.pool.busy
    ensures made != {} && s'.pool == PoolState(made - {Least(made)}, s.pool.busy + {Least(made)})
    ensures s'.threads[t].held == s.threads[t].held + {Least(made)}
  {
    var v := EnterGet(n, s, t, h);
    made := v.pool.free;
    v := LeaveGet(n, s, t, v);
    s' := s.Put(t, v);
  }

  /** A thread that goes on calling `get` is handed every free or unmade handle in the end. */
  lemma {:induction false} GetUntil(n: nat, s: Sys, t: Tid, h: Handle) returns (s': Sys)
    requires t in s.threads && s.threads[t].pc == Idle && s.lock == None
    requires n > 0 && s.pool.Valid() && h !in s.pool.busy
    ensures OnlyBy(n, t, s, s') && h in s'.threads[t].held && h in s'.pool.busy
    ensures s.threads[t].held <= s'.threads[t].held
    decreases if h in s.pool.free then |s.pool.free| else |s.pool.free| + n + 1
  {
    var made;
    s', made := WholeGet(n, s, t, h);
    if Least(made) != h {
      var mid := s';
      s' := GetUntil(n, mid, t, h);
      LeadsTrans(n, s, mid, s');
    }
  }

  lemma EnterFree(n: nat, s: Sys, t: Tid, h: Handle) returns (v: View)
    requires t in s.threads && s.threads[t].pc == WantFree(h) && s.lock == None
    requires s.pool.Valid() && h in s.pool.busy
    ensures Alone(n, s, t, v) && v.pc == FreeInserted(h) && v.lock == Some(t)
    ensures v.pool == PoolState(s.pool.free + {h}, s.pool.busy) && v.held == s.threads[t].held
  {
    StartAlone(n, s, t);
    v := Advances(n, s, t, s.ViewOf(t), 0);
    v := Advances(n, s, t, v, 0);
    v := Advances(n, s, t, v, 0);
  }

  lemma LeaveFree(n: nat, s: Sys, t: Tid, v: View) returns (v': View)
    requires Alone(n, s, t, v) && v.pc.FreeInserted?
    ensures Alone(n, s, t, v') && v'.pc == Idle && v'.lock == None
    ensures v'.pool == v.pool.(busy := v.pool.busy - {v.pc.h}) && v'.held == v.held - {v.pc.h}
  {
    v' := Advances(n, s, t, v, 0);
    v' := Advances(n, s, t, v', 0);
    v' := Advances(n, s, t, v', 0);
    v' := Advances(n, s, t, v', 0);
  }

  /** A `free` that was called already and waits for the mutex. */
  lemma FinishFree(n: nat, s: Sys, t: Tid, h: Handle) returns (s': Sys)
    requires t in s.threads && s.threads[t].pc == WantFree(h) && s.lock == None
    requires s.pool.Valid() && h in s.pool.busy
    ensures OnlyBy(n, t, s, s')
    ensures s'.pool == PoolState(s.pool.free + {h}, s.pool.busy - {h})
    ensures s'.threads[t].held == s.threads[t].held - {h}
  {
    var v := EnterFree(n, s, t, h);
    v := LeaveFree(n, s, t, v);
    s' := s.Put(t, v);
  }

  // ----- When it is safe to call free

  /** Only a thread can change its own part. */
  lemma {:induction false} OthersUnchanged(n: nat, s: Sys, more: seq<Action>, t: Tid)
    requires t in s.threads && forall a | a in more :: a.t != t
    ensures t in After(n, s, more).threads && After(n, s, more).threads[t] == s.threads[t]
  {
    if more != [] {
      OthersUnchanged(n, s, more[..|more| - 1], t);
      assert more[|more| - 1] in more;
    }
  }

  /** What the part of the run before the stale `free` keeps: ownership, and `t` waiting. */
  ghost predicate Waiting(n: nat, init: PoolState, s: Sys, t: Tid, h: Handle) {
    && Inv(n, init, s) && Own(s)
    && t in s.threads && s.threads[t].pc == WantFree(h) && h !in s.threads[t].held
    && AllHold(s, s.threads.Keys - {t})
  }

  ghost predicate Onward(n: nat, init: PoolState, s: Sys, s': Sys, t: Tid, h: Handle) {
    Waiting(n, init, s', t, h) && Leads(n, s, s') && s'.threads.Keys == s.threads.Keys
  }

  lemma OnwardTrans(n: nat, init: PoolState, a: Sys, b: Sys, c: Sys, t: Tid, h: Handle)
    requires Onward(n, init, a, b, t, h) && Onward(n, init, b, c, t, h)
    ensures Onward(n, init, a, c, t, h)
  {
    LeadsTrans(n, a, b, c);
  }

  lemma OthersStayCareful(n: nat, init: PoolState, s: Sys, more: seq<Action>, others: set<Tid>)
    requires Inv(n, init, s) && Own(s) && AllHold(s, others)
    requires CanRun(n, s, more) && Lapses(n, s, more) == [] && forall a | a in more :: a.t in others
    ensures Inv(n, init, After(n, s, more)) && Own(After(n, s, more)) && AllHold(After(n, s, more), others)
  {
    RunKeepsInv(n, init, s, more);
    GroupKeepsOwn(n, init, s, more, others);
  }

  lemma LeadsAfter(n: nat, s: Sys, more: seq<Action>)
    requires CanRun(n, s, more) && Lapses(n, s, more) == []
    ensures Leads(n, s, After(n, s, more))
  {
  }

  lemma StillWaiting(n: nat, init: PoolState, s: Sys, s': Sys, t: Tid, h: Handle)
    requires Waiting(n, init, s, t, h) && s'.threads.Keys == s.threads.Keys && s'.threads[t] == s.threads[t]
    requires Inv(n, init, s') && Own(s') && AllHold(s', s.threads.Keys - {t})
    ensures Waiting(n, init, s', t, h)
  {
  }

  lemma WaitingKept(n: nat, init: PoolState, s: Sys, more: seq<Action>, t: Tid, h: Handle)
    requires Waiting(n, init, s, t, h)
    requires CanRun(n, s, more) && Lapses(n, s, more) == [] && forall a | a in more :: a.t != t
    ensures Onward(n, init, s, After(n, s, more), t, h)
  {
    SameThreads(n, s, more);
    OthersUnchanged(n, s, more, t);
    OthersStayCareful(n, init, s, more, s.threads.Keys - {t});
    StillWaiting(n, init, s, After(n, s, more), t, h);
    LeadsAfter(n, s, more);
  }

  predicate WantsMutex(pc: PC) { pc.WantGet? || pc.WantFree? || pc.WantEach? }

  lemma StepEndsTheWait(n: nat, t: Tid, x: Handle, v: View)
    ensures !WantsMutex(Advance(n, t, x, v).pc)
  {
  }

  lemma {:induction false} StepsEndTheWait(n: nat, s: Sys, more: seq<Action>, u: Tid)
    requires u in s.threads && !WantsMutex(s.threads[u].pc)
    requires forall a | a in more :: a.Step?
    ensures u in After(n, s, more).threads && !WantsMutex(After(n, s, more).threads[u].pc)
  {
    if more != [] {
      StepsEndTheWait(n, s, more[..|more| - 1], u);
      assert more[|more| - 1].Step?;
    }
  }

  /** Whoever has the mutex finishes. */
  lemma WaitForMutex(n: nat, init: PoolState, s: Sys, t: Tid, h: Handle) returns (s': Sys)
    requires Waiting(n, init, s, t, h)
    ensures Onward(n, init, s, s', t, h) && s'.lock == None
    ensures forall u | u in s.threads && !WantsMutex(s.threads[u].pc) :: !WantsMutex(s'.threads[u].pc)
  {
    var more := OwnerFinishes(n, init, s);
    forall a | a in more ensures a.Step? && s.lock == Some(a.t) {
      var i :| 0 <= i < |more| && more[i] == a;
    }
    assert Good(n, init, t, s.ViewOf(t));
    StepsDoNotLapse(n, s, more);
    WaitingKept(n, init, s, more, t, h);
    s' := After(n, s, more);
    forall u | u in s.threads && !WantsMutex(s.threads[u].pc) ensures !WantsMutex(s'.threads[u].pc) {
      StepsEndTheWait(n, s, more, u);
    }
  }

  lemma OtherSteps(n: nat, init: PoolState, s: Sys, t: Tid, h: Handle, u: Tid) returns (s': Sys)
    requires Waiting(n, init, s, t, h) && u in s.threads && u != t && Enabled(n, s.ViewOf(u), 0)
    ensures Onward(n, init, s, s', t, h)
    ensures s' == s.Put(u, Advance(n, u, 0, s.ViewOf(u)))
  {
    var a := Step(u, 0);
    s' := Do(n, s, a);
    Prepend(n, s, a, []);
    assert [a] + [] == [a];
    StepsDoNotLapse(n, s, [a]);
    WaitingKept(n, init, s, [a], t, h);
  }

  /** Another thread that waits for the mutex takes it and goes on until it drops it. */
  lemma LeaveWait(n: nat, init: PoolState, s: Sys, t: Tid, h: Handle, u: Tid) returns (s': Sys)
    requires Waiting(n, init, s, t, h) && s.lock == None && u in s.threads && u != t
    requires WantsMutex(s.threads[u].pc)
    ensures Onward(n, init, s, s', t, h) && s'.lock == None && !WantsMutex(s'.threads[u].pc)
  {
    var mid := OtherSteps(n, init, s, t, h, u);
    StepEndsTheWait(n, u, 0, s.ViewOf(u));
    s' := WaitForMutex(n, init, mid, t, h);
    OnwardTrans(n, init, s, mid, s', t, h);
  }

  lemma FreeMutexMeansOutside(n: nat, init: PoolState, s: Sys, u: Tid)
    requires Inv(n, init, s) && s.lock == None && u in s.threads
    ensures !InSection(s.threads[u].pc)
  {
    assert Good(n, init, u, s.ViewOf(u));
  }

  /** Another thread finishes the call it is in. */
  lemma FinishCall(n: nat, init: PoolState, s: Sys, t: Tid, h: Handle, u: Tid) returns (s': Sys)
    requires Waiting(n, init, s, t, h) && s.lock == None && u in s.threads && u != t
    ensures Onward(n, init, s, s', t, h) && s'.lock == None && s'.threads[u].pc == Idle
  {
    LeadsHere(n, s);
    s' := s;
    if WantsMutex(s.threads[u].pc) {
      s' := LeaveWait(n, init, s, t, h, u);
    }
    FreeMutexMeansOutside(n, init, s', u);
    if s'.threads[u].pc.GetOp? {
      var mid := s';
      s' := OtherSteps(n, init, mid, t, h, u);
      OnwardTrans(n, init, s, mid, s', t, h);
    }
  }

  lemma BusyIsHeld(n: nat, init: PoolState, s: Sys, h: Handle) returns (w: Tid)
    requires Inv(n, init, s) && Own(s) && s.lock == None && h in s.pool.busy
    ensures w in s.threads && h in s.threads[w].held
  {
    w :| w in s.threads && h in Live(s.ViewOf(w));
    FreeMutexMeansOutside(n, init, s, w);
  }

  /** `t` waits to free `h`, which is busy and held by `w`. */
  ghost predicate AboutToShare(n: nat, init: PoolState, s: Sys, t: Tid, h: Handle, w: Tid) {
    && Inv(n, init, s) && s.lock == None && h in s.pool.busy
    && t in s.threads && s.threads[t].pc == WantFree(h)
    && w in s.threads && w != t && h in s.threads[w].held
  }

  /** Somebody else comes to hold the handle. */
  lemma SomebodyHolds(n: nat, init: PoolState, s: Sys, t: Tid, h: Handle, u: Tid) returns (s': Sys, w: Tid)
    requires n > 0 && Waiting(n, init, s, t, h) && s.lock == None && u in s.threads && u != t
    requires s.threads[u].pc == Idle
    ensures Leads(n, s, s') && AboutToShare(n, init, s', t, h, w)
  {
    if h in s.pool.busy {
      s' := s;
      LeadsHere(n, s);
      w := BusyIsHeld(n, init, s, h);
    } else {
      w := u;
      s' := GetUntil(n, s, u, h);
      LeadsKeepsInv(n, init, s, s');
    }
  }

  lemma LeadsKeepsInv(n: nat, init: PoolState, s: Sys, s': Sys)
    requires Inv(n, init, s) && Leads(n, s, s')
    ensures Inv(n, init, s')
  {
    var more :| CanRun(n, s, more) && Lapses(n, s, more) == [] && s' == After(n, s, more);
    RunKeepsInv(n, init, s, more);
  }

  lemma ShareAfterAll(n: nat, init: PoolState, s: Sys, t: Tid, h: Handle, w: Tid) returns (s': Sys)
    requires n > 0 && AboutToShare(n, init, s, t, h, w)
    ensures Leads(n, s, s') && !NoneShared(s')
  {
    var freed := FinishFree(n, s, t, h);
    s' := GetUntil(n, freed, t, h);
    LeadsTrans(n, s, freed, s');
    assert h in s'.threads[t].held && h in s'.threads[w].held;
  }

  /** From every state in which `t` is about to free what it does not hold, there is a way on in
      which two threads come to hold `h`, although nobody else does anything wrong. */
  lemma StaleFreeCanShare(n: nat, init: PoolState, s: Sys, t: Tid, h: Handle, u: Tid) returns (s': Sys)
    requires n > 0 && Waiting(n, init, s, t, h) && u in s.threads && u != t
    ensures Leads(n, s, s') && !NoneShared(s')
  {
    var open := WaitForMutex(n, init, s, t, h);
    var ready := FinishCall(n, init, open, t, h, u);
    OnwardTrans(n, init, s, open, ready, t, h);
    var taken, w := SomebodyHolds(n, init, ready, t, h, u);
    LeadsTrans(n, s, ready, taken);
    s' := ShareAfterAll(n, init, taken, t, h, w);
    LeadsTrans(n, s, taken, s');
  }

  lemma EmptyPoolStaysEmpty(init: PoolState, t: Tid, v: View)
    requires Start(0, init) && Good(0, init, t, v) && v.lock == Some(t)
    ensures v.pool.busy == {} || !v.pc.FreeInserted?
  {
    EmptyBatchSize(init, Events(v.log));
  }

  lemma OnlyMember(s: set<Tid>, t: Tid, u: Tid)
    requires t in s && u in s && |s| <= 1
    ensures t == u
  {
    SubsetSize({t, u}, s);
  }

  lemma BusyIsAlone(s: Sys, t: Tid, h: Handle)
    requires Own(s) && t in s.threads && |s.threads.Keys| <= 1 && h in s.pool.busy
    ensures h in Live(s.ViewOf(t))
  {
    var u :| u in s.threads && h in Live(s.ViewOf(u));
    OnlyMember(s.threads.Keys, t, u);
  }

  /** With nothing to hand out, or nobody to hand it to, no erase is ever stale. */
  lemma NeverStale(n: nat, init: PoolState, s: Sys, t: Tid)
    requires Start(n, init) && Inv(n, init, s) && Own(s) && t in s.threads
    requires n == 0 || |s.threads.Keys| <= 1
    ensures !Stale(s.ViewOf(t))
  {
    if Stale(s.ViewOf(t)) {
      StaleIsBusy(n, init, s, t);
      if n == 0 {
        EmptyPoolStaysEmpty(init, t, s.ViewOf(t));
      } else {
        BusyIsAlone(s, t, s.threads[t].pc.h);
      }
    }
  }

  lemma {:induction false} IdlePoolKeepsOwn(n: nat, init: PoolState, s: Sys, more: seq<Action>)
    requires Start(n, init) && Inv(n, init, s) && Own(s) && CanRun(n, s, more)
    requires n == 0 || |s.threads.Keys| <= 1
    ensures Own(After(n, s, more))
  {
    if more != [] {
      var front, a := more[..|more| - 1], more[|more| - 1];
      IdlePoolKeepsOwn(n, init, s, front);
      RunKeepsInv(n, init, s, front);
      SameThreads(n, s, front);
      NeverStale(n, init, After(n, s, front), a.t);
      StepKeepsOwnIff(n, init, After(n, s, front), a);
    }
  }

  lemma OwnShared(s: Sys)
    requires Own(s)
    ensures NoneShared(s)
  {
    forall t, u | t in s.threads && u in s.threads && t != u ensures s.threads[t].held !! s.threads[u].held {
      assert Mine(s.ViewOf(t)) !! Mine(s.ViewOf(u));
    }
  }

  /** In whatever way the others go on, keeping to the discipline, no two threads come to hold
      the same handle. */
  ghost predicate StaysExclusive(n: nat, s: Sys) {
    forall s' | Leads(n, s, s') :: NoneShared(s')
  }

  lemma HeldIsSafe(n: nat, init: PoolState, s: Sys)
    requires Inv(n, init, s) && Own(s) && AllHold(s, s.threads.Keys)
    ensures StaysExclusive(n, s)
  {
    forall s' | Leads(n, s, s') ensures NoneShared(s') {
      var more :| CanRun(n, s, more) && Lapses(n, s, more) == [] && s' == After(n, s, more);
      SameThreads(n, s, more);
      GroupKeepsOwn(n, init, s, more, s.threads.Keys);
      OwnShared(s');
    }
  }

  lemma IdlePoolIsSafe(n: nat, init: PoolState, s: Sys)
    requires Start(n, init) && Inv(n, init, s) && Own(s) && (n == 0 || |s.threads.Keys| <= 1)
    ensures StaysExclusive(n, s)
  {
    forall s' | Leads(n, s, s') ensures NoneShared(s') {
      var more :| CanRun(n, s, more) && Lapses(n, s, more) == [] && s' == After(n, s, more);
      IdlePoolKeepsOwn(n, init, s, more);
      OwnShared(s');
    }
  }

  lemma SomeOther(s: set<Tid>, t: Tid) returns (u: Tid)
    requires t in s && |s| != 1
    ensures u in s && u != t
  {
    assert |s - {t}| == |s| - 1;
    u :| u in s - {t};
  }

  lemma AfterCall(n: nat, init: PoolState, s: Sys, t: Tid, h: Handle) returns (s': Sys)
    requires Inv(n, init, s) && Own(s) && AllHold(s, s.threads.Keys)
    requires t in s.threads && s.threads[t].pc == Idle
    ensures s' == Do(n, s, Call(t, CallFree(h))) && s'.threads.Keys == s.threads.Keys
    ensures Inv(n, init, s') && Own(s')
    ensures if h in s.threads[t].held then AllHold(s', s'.threads.Keys) else Waiting(n, init, s', t, h)
  {
    s' := Do(n, s, Call(t, CallFree(h)));
    CallKeepsOwn(n, init, s, t, h);
    CallOnlyWaits(n, s, t, h);
  }

  lemma CallKeepsOwn(n: nat, init: PoolState, s: Sys, t: Tid, h: Handle)
    requires Inv(n, init, s) && Own(s) && t in s.threads && s.threads[t].pc == Idle
    ensures Inv(n, init, Do(n, s, Call(t, CallFree(h)))) && Own(Do(n, s, Call(t, CallFree(h))))
  {
    StepKeepsOwnIff(n, init, s, Call(t, CallFree(h)));
    DoKeepsInv(n, init, s, Call(t, CallFree(h)));
  }

  lemma CallOnlyWaits(n: nat, s: Sys, t: Tid, h: Handle)
    requires AllHold(s, s.threads.Keys) && t in s.threads && s.threads[t].pc == Idle
    ensures var s' := Do(n, s, Call(t, CallFree(h)));
      && s'.threads.Keys == s.threads.Keys && AllHold(s', s.threads.Keys - {t})
      && s'.threads[t] == s.threads[t].(pc := WantFree(h), asked := s.threads[t].asked + [CallFree(h)])
  {
  }

  /** When it is safe to call `free`: exactly if the caller holds the handle, unless the pool
      never makes any or no other thread uses it. What a caller sees of the pool, that the handle
      is free or unknown and nobody holds it, is not enough. */
  lemma SafeToFreeIff(n: nat, init: PoolState, s0: Sys, acts: seq<Action>, s: Sys, t: Tid, h: Handle)
    requires Initial(n, init, s0) && DisciplinedRun(n, s0, acts, s)
    requires t in s.threads && s.threads[t].pc == Idle
    ensures StaysExclusive(n, Do(n, s, Call(t, CallFree(h))))
       <==> (h in s.threads[t].held || n == 0 || |s.threads.Keys| == 1)
  {
    DisciplinedKeepsOwn(n, init, s0, acts, s);
    var called := AfterCall(n, init, s, t, h);
    if h in s.threads[t].held {
      HeldIsSafe(n, init, called);
    } else if n == 0 || |s.threads.Keys| == 1 {
      IdlePoolIsSafe(n, init, called);
    } else {
      var u := SomeOther(s.threads.Keys, t);
      var s' := StaleFreeCanShare(n, init, called, t, h, u);
    }
  }

  // ----- Two runs that go wrong

  /** A pool of one handle `h`, and threads that have not called anything yet. */
  ghost predicate OneHandle(s0: Sys, h: Handle) {
    Initial(1, PoolState({h}, {}), s0) && {0, 1, 2} <= s0.threads.Keys
  }

  /** `s` was reached with exactly one call that frees what its caller does not hold: a `free` of
      `h` by thread 0. */
  ghost predicate OneLapse(s0: Sys, acts: seq<Action>, s: Sys, h: Handle) {
    && Reaches(1, s0, acts, s) && {0, 1, 2} <= s.threads.Keys
    && Lapses(1, s0, acts) == [Call(0, CallFree(h))]
  }

  lemma LapseThenLeads(s0: Sys, before: seq<Action>, s: Sys, s': Sys, h: Handle) returns (acts: seq<Action>)
    requires DisciplinedRun(1, s0, before, s) && {0, 1, 2} <= s0.threads.Keys
    requires 0 in s.threads && s.threads[0].pc == Idle && h !in s.threads[0].held
    requires Leads(1, Do(1, s, Call(0, CallFree(h))), s')
    ensures before + [Call(0, CallFree(h))] <= acts && OneLapse(s0, acts, s', h)
  {
    var a := Call(0, CallFree(h));
    var mid := before + [a];
    assert mid[..|mid| - 1] == before;
    assert CanRun(1, s0, mid) && After(1, s0, mid) == Do(1, s, a) && Lapses(1, s0, mid) == [a];
    var called := Do(1, s, a);
    var more :| CanRun(1, called, more) && Lapses(1, called, more) == [] && s' == After(1, called, more);
    acts := mid + more;
    RunAppend(1, s0, mid, more);
    LapsesAppend(1, s0, mid, more);
    SameThreads(1, s0, acts);
  }

  /** Thread `t` gets the only handle. */
  lemma GetOnly(s: Sys, t: Tid, h: Handle) returns (s': Sys)
    requires t in s.threads && s.threads[t].pc == Idle && s.lock == None && s.pool == PoolState({h}, {})
    ensures OnlyBy(1, t, s, s') && s'.pool == PoolState({}, {h})
    ensures s'.threads[t].held == s.threads[t].held + {h}
  {
    var made;
    s', made := WholeGet(1, s, t, h);
  }

  /** Thread `t`, which may or may not hold it, frees the only handle. */
  lemma FreeOnly(s: Sys, t: Tid, h: Handle) returns (s': Sys)
    requires t in s.threads && s.threads[t].pc == Idle && s.lock == None && s.pool == PoolState({}, {h})
    ensures OnlyBy(1, t, Do(1, s, Call(t, CallFree(h))), s') && s'.pool == PoolState({h}, {})
    ensures s'.threads[t].held == s.threads[t].held - {h}
  {
    s' := FinishFree(1, Do(1, s, Call(t, CallFree(h))), t, h);
  }

  /** Thread 0 gets and frees the handle, thread 1 gets it, thread 0 frees it once more, and the
      next `get` hands to thread 2 what thread 1 still holds. */
  lemma StaleFreeHandsOutTwice(s0: Sys, h: Handle)
    requires OneHandle(s0, h)
    ensures exists acts, s :: OneLapse(s0, acts, s, h) && s.threads[1].held == s.threads[2].held == {h}
  {
    var a := GetOnly(s0, 0, h);
    var b := FreeOnly(a, 0, h);
    LeadsDo(1, s0, a, Call(0, CallFree(h)));
    LeadsTrans(1, s0, Do(1, a, Call(0, CallFree(h))), b);
    var c := GetOnly(b, 1, h);
    LeadsTrans(1, s0, b, c);
    var s := SecondFree(c, h);
    var before :| CanRun(1, s0, before) && Lapses(1, s0, before) == [] && c == After(1, s0, before);
    var acts := LapseThenLeads(s0, before, c, s, h);
  }

  lemma SecondFree(c: Sys, h: Handle) returns (s: Sys)
    requires {0, 1, 2} <= c.threads.Keys && c.threads[0].pc == c.threads[2].pc == Idle && c.lock == None
    requires c.pool == PoolState({}, {h}) && c.threads[1].held == {h} && c.threads[2].held == {}
    ensures Leads(1, Do(1, c, Call(0, CallFree(h))), s) && 1 in s.threads && 2 in s.threads
    ensures s.threads[1].held == s.threads[2].held == {h}
  {
    var d := FreeOnly(c, 0, h);
    s := GetOnly(d, 2, h);
    LeadsTrans(1, Do(1, c, Call(0, CallFree(h))), d, s);
  }

  /** Nobody holds the handle and it is not busy when thread 0 calls `free`; but thread 1 gets it
      before thread 0 has the mutex, and holds a free handle in the end. */
  lemma NobodyHoldsIsNotEnough(s0: Sys, h: Handle)
    requires OneHandle(s0, h)
    ensures forall t | t in s0.threads :: h !in s0.threads[t].held
    ensures exists acts, s ::
      && OneLapse(s0, acts, s, h) && [Call(0, CallFree(h))] <= acts
      && s.threads[1].held == {h} && s.pool == PoolState({h}, {})
      && s.threads[0].pc == s.threads[1].pc == Idle
  {
    var a := Do(1, s0, Call(0, CallFree(h)));
    var b := GetOnly(a, 1, h);
    var s := FinishFree(1, b, 0, h);
    LeadsTrans(1, a, b, s);
    var acts := LapseThenLeads(s0, [], s0, s, h);
    assert [] + [Call(0, CallFree(h))] == [Call(0, CallFree(h))];
  }
}

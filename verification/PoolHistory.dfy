/** What the threads themselves can see of the pool: which calls they made when, and what they
    were told. */
module PoolHistory {
  import opened Handles
  import opened PoolSpec
  import opened PoolThreads
  import opened PoolSystem

  /** The calls a thread made are its calls in the log, in the same order and with the same
      arguments, and the answers they returned are the atomic pool's; only the call still running
      may be missing from the log, or its answer not returned. */
  lemma AnswersAreAtomic(n: nat, init: PoolState, s0: Sys, acts: seq<Action>, s: Sys, t: Tid)
    requires Initial(n, init, s0) && Reaches(n, s0, acts, s) && t in s.threads
    ensures s.threads[t].asked == Calls(s.log, t) + Unlogged(s.threads[t].pc)
    ensures Project(s.log, t) == s.threads[t].seen + Pending(s.threads[t].pc)
    ensures AllAnswered(init, s.log) && LegalRun(n, init, Events(s.log))
  {
    EveryRunRefines(n, init, s0, acts, s);
  }

  // ----- Real time

  /** The entry at `i` is the call that thread `t` made as number `k`, counting from zero. */
  ghost predicate IsCall(log: seq<Entry>, i: nat, t: Tid, k: nat) {
    i < |log| && log[i].tid == t && |Calls(log[..i], t)| == k
  }

  lemma {:induction false} CallsOfPrefix(log: seq<Entry>, i: nat, t: Tid)
    requires i <= |log|
    ensures Calls(log[..i], t) <= Calls(log, t)
    ensures i < |log| && log[i].tid == t ==> |Calls(log[..i], t)| < |Calls(log, t)|
  {
    if i == |log| {
      assert log[..i] == log;
    } else {
      CallsOfPrefix(log[..|log| - 1], i, t);
      assert log[..|log| - 1][..i] == log[..i];
    }
  }

  /** The first entries of a log are the first calls of each thread. */
  lemma EntriesOfPrefix(before: seq<Entry>, log: seq<Entry>, i: nat, t: Tid, k: nat)
    requires before <= log && IsCall(log, i, t, k)
    ensures i < |before| <==> k < |Calls(before, t)|
  {
    if i < |before| {
      CallsOfPrefix(before, i, t);
      assert before[..i] == log[..i];
    } else {
      CallsOfPrefix(log[..i], |before|, t);
      assert log[..i][..|before|] == before;
    }
  }

  lemma {:induction false} OneAnswerEach(log: seq<Entry>, t: Tid)
    ensures |Project(log, t)| == |Calls(log, t)|
  {
    if log != [] {
      OneAnswerEach(log[..|log| - 1], t);
    }
  }

  lemma {:induction false} LogOnlyGrows(n: nat, s: Sys, more: seq<Action>)
    ensures s.log <= After(n, s, more).log
  {
    if more != [] {
      var a, mid := more[|more| - 1], After(n, s, more[..|more| - 1]);
      LogOnlyGrows(n, s, more[..|more| - 1]);
      if a.t in mid.threads {
        LogGrows(n, mid.ViewOf(a.t), a);
      }
    }
  }

  /** The order of the log is an order in time: a call that had returned when another was not
      made yet stands before it. */
  lemma RealTimeOrder(n: nat, init: PoolState, s0: Sys, acts: seq<Action>, s: Sys, more: seq<Action>,
                      t: Tid, k: nat, i: nat, u: Tid, l: nat, j: nat)
    requires Initial(n, init, s0) && Reaches(n, s0, acts, s) && CanRun(n, s, more)
    requires t in s.threads && k < |s.threads[t].seen|
    requires u in s.threads && l >= |s.threads[u].asked|
    requires IsCall(After(n, s, more).log, i, t, k) && IsCall(After(n, s, more).log, j, u, l)
    ensures i < j
  {
    AnswersAreAtomic(n, init, s0, acts, s, t);
    AnswersAreAtomic(n, init, s0, acts, s, u);
    OneAnswerEach(s.log, t);
    LogOnlyGrows(n, s, more);
    EntriesOfPrefix(s.log, After(n, s, more).log, i, t, k);
    EntriesOfPrefix(s.log, After(n, s, more).log, j, u, l);
  }

  // ----- What the answers mean to the callers

  /** Going by the answers alone, `h` is out: the last call that was answered with it or freed it
      was a `get`. */
  function IsOut(log: seq<Entry>, h: Handle): bool {
    if log == [] then false
    else
      var last := log[|log| - 1];
      if last.response == Got(Some(h)) then true
      else if last.event == Free(h) then false
      else IsOut(log[..|log| - 1], h)
  }

  /** `get` answers with a handle that is not out, `free` says whether its handle was out, and
      `each` visits what is out in ascending order. */
  ghost predicate Explained(n: nat, before: seq<Entry>, e: Entry) {
    match e.event
    case Get(_) =>
      e.response.Got? && if n == 0 then e.response.result == None
                         else e.response.result.Some? && !IsOut(before, e.response.result.value)
    case Free(h) => e.response == Freed(IsOut(before, h))
    case Each =>
      && e.response.Visited? && Ascending(e.response.handles)
      && forall h :: h in e.response.handles <==> IsOut(before, h)
  }

  ghost predicate AllExplained(n: nat, log: seq<Entry>) {
    log == [] || (AllExplained(n, log[..|log| - 1]) && Explained(n, log[..|log| - 1], log[|log| - 1]))
  }

  lemma OutStep(n: nat, s: PoolState, before: seq<Entry>, e: Entry, h: Handle)
    requires s.Valid() && Legal(n, s, e.event) && Answers(s, e.event, e.response)
    requires h in s.busy <==> IsOut(before, h)
    ensures h in Apply(s, e.event).busy <==> IsOut(before + [e], h)
  {
    assert (before + [e])[..|before|] == before;
  }

  lemma EntryExplained(n: nat, init: PoolState, s: PoolState, es: seq<Event>, before: seq<Entry>, e: Entry)
    requires Start(n, init) && LegalRun(n, init, es) && s == Run(init, es)
    requires Legal(n, s, e.event) && Answers(s, e.event, e.response)
    requires forall h :: h in s.busy <==> IsOut(before, h)
    ensures Explained(n, before, e)
  {
    NothingDropped(n, init, es);
    if n == 0 {
      EmptyBatchSize(init, es);
      if e.event.Get? { assert e.event.batch == {}; }
    }
  }

  /** The log and the busy set tell the same. */
  ghost predicate Tells(init: PoolState, log: seq<Entry>) {
    forall h :: h in Run(init, Events(log)).busy <==> IsOut(log, h)
  }

  lemma {:induction false} TellsStep(n: nat, init: PoolState, front: seq<Entry>, e: Entry)
    requires Tells(init, front) && Run(init, Events(front)).Valid()
    requires Legal(n, Run(init, Events(front)), e.event) && Answers(Run(init, Events(front)), e.event, e.response)
    ensures Tells(init, front + [e])
  {
    var log := front + [e];
    assert log[..|log| - 1] == front;
    assert Run(init, Events(log)) == Apply(Run(init, Events(front)), e.event);
    forall h ensures h in Run(init, Events(log)).busy <==> IsOut(log, h) {
      OutStep(n, Run(init, Events(front)), front, e, h);
    }
  }

  lemma {:induction false} FrontOfLog(n: nat, init: PoolState, log: seq<Entry>)
    requires log != [] && LegalRun(n, init, Events(log)) && AllAnswered(init, log)
    ensures var front, e := log[..|log| - 1], log[|log| - 1];
      var s := Run(init, Events(front));
      && LegalRun(n, init, Events(front)) && AllAnswered(init, front)
      && Legal(n, s, e.event) && Answers(s, e.event, e.response)
  {
    assert Events(log)[..|Events(log)| - 1] == Events(log[..|log| - 1]);
  }

  lemma {:induction false} LogExplained(n: nat, init: PoolState, log: seq<Entry>)
    requires Start(n, init) && LegalRun(n, init, Events(log)) && AllAnswered(init, log)
    ensures AllExplained(n, log) && Tells(init, log)
  {
    if log != [] {
      var front, e := log[..|log| - 1], log[|log| - 1];
      FrontOfLog(n, init, log);
      LogExplained(n, init, front);
      NothingDropped(n, init, Events(front));
      EntryExplained(n, init, Run(init, Events(front)), Events(front), front, e);
      TellsStep(n, init, front, e);
      assert front + [e] == log;
    }
  }

  /** In every interleaving every answer is explained by the answers before it: no reader of the
      log needs to know the two sets. */
  lemma AnswersExplained(n: nat, init: PoolState, s0: Sys, acts: seq<Action>, s: Sys)
    requires Initial(n, init, s0) && Reaches(n, s0, acts, s)
    ensures AllExplained(n, s.log)
    ensures s.lock == None ==> forall h :: h in s.pool.busy <==> IsOut(s.log, h)
  {
    EveryRunRefines(n, init, s0, acts, s);
    LogIsRun(n, init, s0, acts, s);
    LogExplained(n, init, s.log);
  }

  lemma LogIsRun(n: nat, init: PoolState, s0: Sys, acts: seq<Action>, s: Sys)
    requires Initial(n, init, s0) && Reaches(n, s0, acts, s)
    ensures LegalRun(n, init, Events(s.log)) && AllAnswered(init, s.log)
  {
    EveryRunRefines(n, init, s0, acts, s);
    if s.lock.Some? {
      assert Good(n, init, s.lock.value, s.ViewOf(s.lock.value));
    }
  }

  // ----- Working set

  /** The handles the threads were told, or are just being told. */
  function Handed(s: Sys): set<Handle> {
    set t, r | t in s.threads && r in s.threads[t].seen + Pending(s.threads[t].pc) && r.Got? && r.result.Some?
      :: r.result.value
  }

  lemma IssuedByAnswer(s: PoolState, e: Entry, h: Handle)
    requires Answers(s, e.event, e.response)
    ensures h in IssuedBy(s, e.event) <==> e.response == Got(Some(h))
  {
  }

  lemma LoggedSnoc(log: seq<Entry>, r: Response)
    requires log != []
    ensures (exists e :: e in log && e.response == r)
       <==> (exists e :: e in log[..|log| - 1] && e.response == r) || log[|log| - 1].response == r
  {
    assert log == log[..|log| - 1] + [log[|log| - 1]];
  }

  lemma {:induction false} IssuedIsLogged(init: PoolState, log: seq<Entry>, h: Handle)
    requires AllAnswered(init, log)
    ensures h in Issued(init, Events(log)) <==> exists e :: e in log && e.response == Got(Some(h))
  {
    if log != [] {
      var front, last := log[..|log| - 1], log[|log| - 1];
      IssuedIsLogged(init, front, h);
      IssuedByAnswer(Run(init, Events(front)), last, h);
      LoggedSnoc(log, Got(Some(h)));
      assert Events(log)[..|Events(log)| - 1] == Events(front);
    }
  }

  lemma {:induction false} LoggedIsProjected(log: seq<Entry>, t: Tid, r: Response)
    ensures r in Project(log, t) <==> exists e :: e in log && e.tid == t && e.response == r
  {
    if log != [] {
      LoggedIsProjected(log[..|log| - 1], t, r);
    }
  }

  lemma HandedIsProjected(n: nat, init: PoolState, s: Sys, h: Handle)
    requires Inv(n, init, s)
    ensures h in Handed(s) <==> exists t :: t in s.threads && Got(Some(h)) in Project(s.log, t)
  {
    forall t | t in s.threads
      ensures Project(s.log, t) == s.threads[t].seen + Pending(s.threads[t].pc)
    {
      assert Good(n, init, t, s.ViewOf(t));
    }
  }

  lemma ProjectedIsLogged(n: nat, init: PoolState, s: Sys, r: Response)
    requires Inv(n, init, s)
    ensures (exists t :: t in s.threads && r in Project(s.log, t)) <==> exists e :: e in s.log && e.response == r
  {
    forall t ensures r in Project(s.log, t) <==> exists e :: e in s.log && e.tid == t && e.response == r {
      LoggedIsProjected(s.log, t, r);
    }
  }

  /** The handles the threads were told are those the atomic pool handed out. */
  lemma HandedIsIssued(n: nat, init: PoolState, s0: Sys, acts: seq<Action>, s: Sys)
    requires Initial(n, init, s0) && Reaches(n, s0, acts, s)
    ensures Handed(s) == Issued(init, Events(s.log))
  {
    EveryRunRefines(n, init, s0, acts, s);
    LogIsRun(n, init, s0, acts, s);
    forall h ensures h in Handed(s) <==> h in Issued(init, Events(s.log)) {
      HandedIsProjected(n, init, s, h);
      ProjectedIsLogged(n, init, s, Got(Some(h)));
      IssuedIsLogged(init, s.log, h);
    }
  }

  /** If no more than one batch was ever out at once, the handles all the calls of all threads
      were told are exactly the `peak` smallest of the constructor's batch. */
  lemma WorkingSetOfThreads(n: nat, init: PoolState, s0: Sys, acts: seq<Action>, s: Sys)
    requires n > 0 && Initial(n, init, s0) && Reaches(n, s0, acts, s)
    requires Peak(init, Events(s.log)) <= n
    ensures Peak(init, Events(s.log)) <= |init.free|
    ensures Handed(s) == Smallest(init.free, Peak(init, Events(s.log)))
  {
    HandedIsIssued(n, init, s0, acts, s);
    EveryRunRefines(n, init, s0, acts, s);
    WorkingSet(n, init, Events(s.log));
  }
}

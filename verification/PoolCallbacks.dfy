/** Which callbacks run, and when, and what a thread holds, both going by its calls and their
    answers. A callback runs at a step a thread takes at `GetOp`, `FreeInOp` or `EachInOp`. */
module PoolCallbacks {
  import opened Handles
  import opened PoolSpec
  import opened PoolThreads
  import opened PoolSystem

  datatype Callback = OfGet(h: Handle) | OfFree(h: Handle) | OfEach(h: Handle)

  /** The callback that a step at `pc` runs. */
  function RunAt(pc: PC): seq<Callback> {
    match pc
    case GetOp(h) => [OfGet(h)]
    case FreeInOp(h) => [OfFree(h)]
    case EachInOp(_, h) => [OfEach(h)]
    case _ => []
  }

  /** The callbacks that the steps of thread `t` in a run have run, in order. */
  function Callbacks(n: nat, s0: Sys, acts: seq<Action>, t: Tid): seq<Callback> {
    if acts == [] then []
    else
      var front, a := acts[..|acts| - 1], acts[|acts| - 1];
      var mid := After(n, s0, front);
      Callbacks(n, s0, front, t)
      + (if a.Step? && a.t == t && t in mid.threads then RunAt(mid.threads[t].pc) else [])
  }

  function ForEach(hs: seq<Handle>): seq<Callback> {
    seq(|hs|, i requires 0 <= i < |hs| => OfEach(hs[i]))
  }

  /** The callbacks a call runs, as its arguments and its answer have it. */
  function Due(op: Op, r: Response): seq<Callback> {
    match r
    case Got(result) => if result.Some? then [OfGet(result.value)] else []
    case Freed(found) => if op.CallFree? && found then [OfFree(op.h)] else []
    case Visited(hs) => ForEach(hs)
  }

  /** The callbacks of all answered calls, in the order of the calls. */
  function AllDue(asked: seq<Op>, seen: seq<Response>): seq<Callback>
    requires |seen| <= |asked|
  {
    if seen == [] then []
    else
      var k := |seen| - 1;
      AllDue(asked, seen[..k]) + Due(asked[k], seen[k])
  }

  /** The callback of an answered `get` that is still to run. */
  function StillDue(pc: PC): seq<Callback> {
    if pc.GetOp? then [OfGet(pc.h)] else []
  }

  /** The callbacks that an unanswered call has run so far. */
  function AheadOfAnswer(pc: PC): seq<Callback> {
    match pc
    case FreeLeaving(h, found) => if found then [OfFree(h)] else []
    case EachWalking(visited) => ForEach(visited)
    case EachInOp(visited, _) => ForEach(visited)
    case EachLeaving(visited) => ForEach(visited)
    case _ => []
  }

  /** The call that has not returned an answer yet. */
  function Unanswered(pc: PC): seq<Op> {
    match pc
    case Idle => []
    case GetOp(_) => []
    case WantFree(h) => [CallFree(h)]
    case FreeEntered(h) => [CallFree(h)]
    case FreeFound(h) => [CallFree(h)]
    case FreeInserted(h) => [CallFree(h)]
    case FreeErased(h) => [CallFree(h)]
    case FreeInOp(h) => [CallFree(h)]
    case FreeLeaving(h, _) => [CallFree(h)]
    case WantEach => [CallEach]
    case EachWalking(_) => [CallEach]
    case EachInOp(_, _) => [CallEach]
    case EachLeaving(_) => [CallEach]
    case _ => [CallGet]
  }

  ghost predicate InStep(v: View) {
    |v.seen| <= |v.asked| && v.asked[|v.seen|..] == Unanswered(v.pc)
  }

  /** The callbacks `ran` are those of the answered calls, up to the call under way. */
  ghost predicate Balanced(ran: seq<Callback>, v: View) {
    InStep(v) && ran + StillDue(v.pc) == AllDue(v.asked, v.seen) + AheadOfAnswer(v.pc)
  }

  lemma {:induction false} DueOfLonger(asked: seq<Op>, seen: seq<Response>, op: Op)
    requires |seen| <= |asked|
    ensures AllDue(asked + [op], seen) == AllDue(asked, seen)
  {
    if seen != [] {
      DueOfLonger(asked, seen[..|seen| - 1], op);
    }
  }

  lemma DueSnoc(asked: seq<Op>, seen: seq<Response>, r: Response)
    requires |seen| < |asked|
    ensures AllDue(asked, seen + [r]) == AllDue(asked, seen) + Due(asked[|seen|], r)
  {
    assert (seen + [r])[..|seen|] == seen;
  }

  lemma CallBalances(v: View, op: Op, ran: seq<Callback>)
    requires Balanced(ran, v) && v.pc == Idle
    ensures Balanced(ran, Invoke(v, op))
  {
    DueOfLonger(v.asked, v.seen, op);
  }

  predicate Answering(pc: PC) { pc.GetLeaving? || pc.FreeLeaving? || pc.EachLeaving? }

  /** The step from `v` to `v'` answers the call under way with `r`. */
  ghost predicate AnswersWith(v: View, v': View, r: Response) {
    && Unanswered(v.pc) != [] && Unanswered(v'.pc) == []
    && v'.asked == v.asked && v'.seen == v.seen + [r]
    && StillDue(v.pc) == [] == AheadOfAnswer(v'.pc)
    && AheadOfAnswer(v.pc) + StillDue(v'.pc) == Due(Unanswered(v.pc)[0], r)
    && v'.held == AfterAnswer(v.held, Unanswered(v.pc)[0], r)
  }

  /** What a thread holds after a call is answered. */
  function AfterAnswer(held: set<Handle>, op: Op, r: Response): set<Handle> {
    match r
    case Got(result) => held + if result.Some? then {result.value} else {}
    case Freed(_) => held - if op.CallFree? then {op.h} else {}
    case Visited(_) => held
  }

  lemma AnsweringStep(n: nat, t: Tid, x: Handle, v: View) returns (r: Response)
    requires Answering(v.pc)
    ensures AnswersWith(v, Advance(n, t, x, v), r)
  {
    r := match v.pc
      case GetLeaving(result) => Got(result)
      case FreeLeaving(_, found) => Freed(found)
      case EachLeaving(visited) => Visited(visited);
    NothingAdded(AheadOfAnswer(v.pc));
  }

  lemma AnswerAdds(v: View, v': View, ran: seq<Callback>, r: Response)
    requires Balanced(ran, v) && AnswersWith(v, v', r)
    ensures Balanced(ran, v')
  {
    assert v.asked[|v.seen|] == v.asked[|v.seen|..][0];
    DueSnoc(v.asked, v.seen, r);
    NothingAdded(ran);
    NothingAdded(AllDue(v'.asked, v'.seen));
    assert AllDue(v.asked, v.seen) + AheadOfAnswer(v.pc) + StillDue(v'.pc)
        == AllDue(v.asked, v.seen) + (AheadOfAnswer(v.pc) + StillDue(v'.pc));
  }

  lemma AnswerBalances(n: nat, t: Tid, x: Handle, v: View, ran: seq<Callback>)
    requires Balanced(ran, v) && Answering(v.pc)
    ensures Balanced(ran, Advance(n, t, x, v))
  {
    var r := AnsweringStep(n, t, x, v);
    AnswerAdds(v, Advance(n, t, x, v), ran, r);
  }

  lemma NothingAdded(s: seq<Callback>)
    ensures s + [] == s
  {
  }

  lemma QuietStep(n: nat, t: Tid, x: Handle, v: View)
    requires !Answering(v.pc) && RunAt(v.pc) == []
    ensures var v' := Advance(n, t, x, v);
      && v'.asked == v.asked && v'.seen == v.seen && Unanswered(v'.pc) == Unanswered(v.pc)
      && StillDue(v'.pc) == StillDue(v.pc) && AheadOfAnswer(v'.pc) == AheadOfAnswer(v.pc)
  {
  }

  lemma QuietStepBalances(n: nat, t: Tid, x: Handle, v: View, ran: seq<Callback>)
    requires Balanced(ran, v) && !Answering(v.pc) && RunAt(v.pc) == []
    ensures Balanced(ran, Advance(n, t, x, v))
  {
    QuietStep(n, t, x, v);
  }

  lemma CallbackBalances(n: nat, t: Tid, x: Handle, v: View, ran: seq<Callback>)
    requires Balanced(ran, v) && RunAt(v.pc) != []
    ensures Balanced(ran + RunAt(v.pc), Advance(n, t, x, v))
  {
    var due := AllDue(v.asked, v.seen);
    NothingAdded(ran);
    NothingAdded(due);
    NothingAdded(ran + RunAt(v.pc));
    if v.pc.EachInOp? {
      assert due + (ForEach(v.pc.visited) + [OfEach(v.pc.h)]) == due + ForEach(v.pc.visited) + [OfEach(v.pc.h)];
      assert ForEach(v.pc.visited + [v.pc.h]) == ForEach(v.pc.visited) + [OfEach(v.pc.h)];
    }
  }

  lemma MoveBalances(n: nat, v: View, a: Action, ran: seq<Callback>)
    requires Balanced(ran, v) && (a.Call? ==> v.pc == Idle)
    ensures Balanced(ran + if a.Step? then RunAt(v.pc) else [], Moved(n, v, a))
  {
    if a.Call? {
      CallBalances(v, a.op, ran);
      assert ran + [] == ran;
    } else if RunAt(v.pc) != [] {
      CallbackBalances(n, a.t, a.x, v, ran);
    } else {
      assert ran + [] == ran;
      if Answering(v.pc) {
        AnswerBalances(n, a.t, a.x, v, ran);
      } else {
        QuietStepBalances(n, a.t, a.x, v, ran);
      }
    }
  }

  /** In every reachable state the callbacks a thread has run are exactly those its answered calls
      ask for, each once and in order: one for a handle `get` returned, one for a `free` that was
      told it found its handle, one for each handle `each` visited. Only the callback of a `get`
      comes after the answer; those of `free` and `each` come before. */
  lemma {:induction false} CallbacksMatchAnswers(n: nat, init: PoolState, s0: Sys, acts: seq<Action>, s: Sys,
                                                 t: Tid)
    requires Initial(n, init, s0) && Reaches(n, s0, acts, s) && t in s0.threads
    ensures t in s.threads && Balanced(Callbacks(n, s0, acts, t), s.ViewOf(t))
    decreases |acts|
  {
    if acts != [] {
      var front, a := acts[..|acts| - 1], acts[|acts| - 1];
      var mid := After(n, s0, front);
      CallbacksMatchAnswers(n, init, s0, front, mid, t);
      if a.t == t {
        MoveBalances(n, mid.ViewOf(t), a, Callbacks(n, s0, front, t));
      }
    }
  }

  /** When a thread's calls have all returned, nothing is left over. */
  lemma CallbacksOfIdle(n: nat, init: PoolState, s0: Sys, acts: seq<Action>, s: Sys, t: Tid)
    requires Initial(n, init, s0) && Reaches(n, s0, acts, s)
    requires t in s0.threads && t in s.threads && s.threads[t].pc == Idle
    ensures |s.threads[t].asked| == |s.threads[t].seen|
    ensures Callbacks(n, s0, acts, t) == AllDue(s.threads[t].asked, s.threads[t].seen)
  {
    CallbacksMatchAnswers(n, init, s0, acts, s, t);
    BalancedAtRest(Callbacks(n, s0, acts, t), s.ViewOf(t));
  }

  lemma BalancedAtRest(ran: seq<Callback>, v: View)
    requires Balanced(ran, v) && v.pc == Idle
    ensures |v.asked| == |v.seen| && ran == AllDue(v.asked, v.seen)
  {
    NothingAdded(ran);
    NothingAdded(AllDue(v.asked, v.seen));
  }

  /** The callbacks of `free` and `each` run while their thread has the mutex, that of `get` while
      it has not. */
  lemma CallbacksAndMutex(n: nat, init: PoolState, s0: Sys, acts: seq<Action>, s: Sys, t: Tid)
    requires Initial(n, init, s0) && Reaches(n, s0, acts, s) && t in s.threads
    requires RunAt(s.threads[t].pc) != []
    ensures s.lock == Some(t) <==> !RunAt(s.threads[t].pc)[0].OfGet?
  {
    EveryRunRefines(n, init, s0, acts, s);
    assert Good(n, init, t, s.ViewOf(t));
  }

  // ----- What a thread holds

  /** The handles that answered calls gave to their thread and no later one freed. */
  function HeldBy(asked: seq<Op>, seen: seq<Response>): set<Handle>
    requires |seen| <= |asked|
  {
    if seen == [] then {}
    else
      var k := |seen| - 1;
      AfterAnswer(HeldBy(asked, seen[..k]), asked[k], seen[k])
  }

  ghost predicate HoldsAnswered(v: View) { InStep(v) && v.held == HeldBy(v.asked, v.seen) }

  lemma {:induction false} HeldOfLonger(asked: seq<Op>, seen: seq<Response>, op: Op)
    requires |seen| <= |asked|
    ensures HeldBy(asked + [op], seen) == HeldBy(asked, seen)
  {
    if seen != [] {
      HeldOfLonger(asked, seen[..|seen| - 1], op);
    }
  }

  lemma CallHolds(v: View, op: Op)
    requires HoldsAnswered(v) && v.pc == Idle
    ensures HoldsAnswered(Invoke(v, op))
  {
    HeldOfLonger(v.asked, v.seen, op);
  }

  lemma AnswerHolds(v: View, v': View, r: Response)
    requires HoldsAnswered(v) && AnswersWith(v, v', r)
    ensures HoldsAnswered(v')
  {
    assert v.asked[|v.seen|] == v.asked[|v.seen|..][0];
    assert v'.seen[..|v.seen|] == v.seen;
  }

  lemma SilentStepHolds(n: nat, t: Tid, x: Handle, v: View)
    requires HoldsAnswered(v) && !Answering(v.pc)
    ensures HoldsAnswered(Advance(n, t, x, v))
  {
    var v' := Advance(n, t, x, v);
    assert v'.asked == v.asked && v'.seen == v.seen && v'.held == v.held;
  }

  /** In every reachable state a thread holds exactly what `get` answered it with and it has not
      freed since, going by its own calls and answers. */
  lemma {:induction false} HeldFollowsAnswers(n: nat, init: PoolState, s0: Sys, acts: seq<Action>, s: Sys, t: Tid)
    requires Initial(n, init, s0) && Reaches(n, s0, acts, s) && t in s0.threads
    ensures t in s.threads && HoldsAnswered(s.ViewOf(t))
    decreases |acts|
  {
    if acts != [] {
      var front, a := acts[..|acts| - 1], acts[|acts| - 1];
      var mid := After(n, s0, front);
      HeldFollowsAnswers(n, init, s0, front, mid, t);
      if a.t == t {
        if a.Call? {
          CallHolds(mid.ViewOf(t), a.op);
        } else if Answering(mid.threads[t].pc) {
          var r := AnsweringStep(n, t, a.x, mid.ViewOf(t));
          AnswerHolds(mid.ViewOf(t), s.ViewOf(t), r);
        } else {
          SilentStepHolds(n, t, a.x, mid.ViewOf(t));
        }
      }
    }
  }
}

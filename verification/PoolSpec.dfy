/** The object pool as an atomic machine: what one call of `get`, `free` or `each` does to
    the two sets, and what every run of such calls keeps. The factory's answer is part of the
    event, so that a run is a function of its events. */
module PoolSpec {
  import opened Numbers
  import opened Handles

  datatype PoolState = PoolState(free: set<Handle>, busy: set<Handle>) {
    ghost predicate Valid() { free !! busy }

    function All(): set<Handle> { free + busy }
  }

  /** `batch` holds the handles the factory made during the call; it is empty unless the call
      grew the pool. */
  datatype Event = Get(batch: set<Handle>) | Free(handle: Handle) | Each

  /** What the caller sees: the handle `get` returned, whether `free` ran its callback, the
      handles `each` visited, in order. */
  datatype Response = Got(result: Option<Handle>) | Freed(found: bool) | Visited(handles: seq<Handle>)

  ghost predicate Legal(n: nat, s: PoolState, e: Event) {
    match e
    case Get(batch) => if s.free == {} then |batch| == n && batch !! s.busy else batch == {}
    case Free(_) => true
    case Each => true
  }

  function Taken(s: PoolState, batch: set<Handle>): Option<Handle> {
    var free := s.free + batch;
    if free == {} then None else Some(Least(free))
  }

  function Apply(s: PoolState, e: Event): PoolState {
    match e
    case Get(batch) =>
      var free := s.free + batch;
      if free == {} then s
      else PoolState(free - {Least(free)}, s.busy + {Least(free)})
    case Free(h) =>
      if h in s.busy then PoolState(s.free + {h}, s.busy - {h}) else s
    case Each => s
  }

  /** What each call does to each handle. */
  lemma CallsExactly(s: PoolState, batch: set<Handle>, h: Handle, x: Handle)
    requires s.Valid() && batch !! s.All()
    ensures var s', r := Apply(s, Get(batch)), Taken(s, batch);
      && (r == None <==> s.free + batch == {})
      && (r.Some? ==> r.value in s.free + batch && (x in s.free + batch ==> r.value <= x))
      && (x in s'.busy <==> x in s.busy || r == Some(x))
      && (x in s'.free <==> x in s.free + batch && r != Some(x))
    ensures var s' := Apply(s, Free(h));
      && (x in s'.busy <==> x in s.busy && x != h)
      && (x in s'.free <==> x in s.free || (x == h && h in s.busy))
    ensures Apply(s, Each) == s
    ensures forall r :: Answers(s, Get(batch), r) <==> r == Got(Taken(s, batch))
    ensures forall r :: Answers(s, Free(h), r) <==> r == Freed(h in s.busy)
  {
  }

  ghost predicate Ascending(hs: seq<Handle>) {
    forall i, j | 0 <= i < j < |hs| :: hs[i] < hs[j]
  }

  ghost predicate Lists(hs: seq<Handle>, s: set<Handle>) {
    Ascending(hs) && forall h :: h in hs <==> h in s
  }

  lemma ListsSnoc(hs: seq<Handle>, s: set<Handle>, h: Handle)
    requires Lists(hs, s) && forall x | x in s :: x < h
    ensures Lists(hs + [h], s + {h})
  {
    forall i, j | 0 <= i < j < |hs| + 1 ensures (hs + [h])[i] < (hs + [h])[j] {
      assert hs[i] in s;
    }
  }

  ghost predicate Answers(s: PoolState, e: Event, r: Response) {
    match e
    case Get(batch) => r == Got(Taken(s, batch))
    case Free(h) => r == Freed(h in s.busy)
    case Each => r.Visited? && Lists(r.handles, s.busy)
  }

  // ----- Runs: histories grow at the end, so every definition peels off the last event.

  function Run(init: PoolState, es: seq<Event>): PoolState {
    if es == [] then init else Apply(Run(init, es[..|es| - 1]), es[|es| - 1])
  }

  ghost predicate LegalRun(n: nat, init: PoolState, es: seq<Event>) {
    es == [] ||
    (LegalRun(n, init, es[..|es| - 1]) && Legal(n, Run(init, es[..|es| - 1]), es[|es| - 1]))
  }

  /** The state the constructor leaves: one batch, nothing handed out. */
  ghost predicate Start(n: nat, init: PoolState) {
    init.busy == {} && |init.free| == n
  }

  /** The largest number of handles that were ever out at the same time. */
  function Peak(init: PoolState, es: seq<Event>): nat {
    if es == [] then |init.busy|
    else
      Max(Peak(init, es[..|es| - 1]), |Run(init, es).busy|)
  }

  function IssuedBy(s: PoolState, e: Event): set<Handle> {
    if e.Get? && Taken(s, e.batch).Some? then {Taken(s, e.batch).value} else {}
  }

  /** Every handle some `get` returned. */
  function Issued(init: PoolState, es: seq<Event>): set<Handle> {
    if es == [] then {}
    else
      var front, e := es[..|es| - 1], es[|es| - 1];
      Issued(init, front) + IssuedBy(Run(init, front), e)
  }

  function Made(e: Event): set<Handle> {
    if e.Get? then e.batch else {}
  }

  /** Every handle the factory ever made. */
  function Constructed(init: PoolState, es: seq<Event>): set<Handle> {
    if es == [] then init.free
    else Constructed(init, es[..|es| - 1]) + Made(es[|es| - 1])
  }

  /** The batches the factory made, in order, starting with the constructor's. */
  function Batches(init: PoolState, es: seq<Event>): seq<set<Handle>> {
    if es == [] then [init.free]
    else
      var made := Made(es[|es| - 1]);
      Batches(init, es[..|es| - 1]) + (if made == {} then [] else [made])
  }

  // ----- Partition and conservation

  lemma ApplyKeepsPartition(n: nat, s: PoolState, e: Event)
    requires s.Valid() && Legal(n, s, e)
    ensures Apply(s, e).Valid()
    ensures Apply(s, e).All() == s.All() + Made(e)
  {
  }

  /** In every reachable state each constructed handle is in exactly one of the two sets. */
  lemma {:induction false} NothingDropped(n: nat, init: PoolState, es: seq<Event>)
    requires Start(n, init) && LegalRun(n, init, es)
    ensures Run(init, es).Valid()
    ensures Run(init, es).All() == Constructed(init, es)
    ensures |Run(init, es).free| + |Run(init, es).busy| == |Constructed(init, es)|
  {
    if es != [] {
      var front, e := es[..|es| - 1], es[|es| - 1];
      NothingDropped(n, init, front);
      ApplyKeepsPartition(n, Run(init, front), e);
    }
  }

  // ----- Growth

  function CeilDiv(a: nat, n: nat): nat
    requires n > 0
  {
    (a + n - 1) / n
  }

  lemma CeilDivUnique(a: nat, n: nat, k: nat)
    requires n > 0 && n * (k - 1) < a <= n * k
    ensures CeilDiv(a, n) == k
  {
    var q := CeilDiv(a, n);
    assert n * (k - 1) == n * k - n;
    assert n * q < n * k + n == n * (k + 1);
  }

  lemma MulMono(n: nat, a: int, b: int)
    requires a <= b
    ensures n * a <= n * b
  {
  }

  /** `k` whole batches exist, and the peak needed the last of them. */
  ghost predicate Sized(n: nat, s: PoolState, peak: nat, k: nat) {
    && k >= 1
    && |s.All()| == n * k
    && |s.busy| <= peak <= n * k
    && (k > 1 ==> n * (k - 1) < peak)
  }

  lemma GrowingStep(n: nat, s: PoolState, batch: set<Handle>, peak: nat, k: nat)
    requires n > 0 && s.Valid() && s.free == {} && Legal(n, s, Get(batch)) && Sized(n, s, peak, k)
    ensures batch != {}
    ensures Sized(n, Apply(s, Get(batch)), Max(peak, |Apply(s, Get(batch)).busy|), k + 1)
  {
  }

  lemma QuietStep(n: nat, s: PoolState, e: Event, peak: nat, k: nat)
    requires s.Valid() && Legal(n, s, e) && Made(e) == {} && Sized(n, s, peak, k)
    ensures Sized(n, Apply(s, e), Max(peak, |Apply(s, e).busy|), k)
  {
    ApplyKeepsPartition(n, s, e);
  }

  lemma SizedStep(n: nat, s: PoolState, e: Event, peak: nat, k: nat)
    requires n > 0 && s.Valid() && Legal(n, s, e) && Sized(n, s, peak, k)
    ensures Sized(n, Apply(s, e), Max(peak, |Apply(s, e).busy|), if Made(e) == {} then k else k + 1)
  {
    if e.Get? && s.free == {} {
      GrowingStep(n, s, e.batch, peak, k);
    } else {
      QuietStep(n, s, e, peak, k);
    }
  }

  /** The number of batches is fixed by the peak: the pool grows only when every handle it
      ever made is out. */
  lemma {:induction false} BatchesFollowPeak(n: nat, init: PoolState, es: seq<Event>)
    requires n > 0 && Start(n, init) && LegalRun(n, init, es)
    ensures Sized(n, Run(init, es), Peak(init, es), |Batches(init, es)|)
  {
    if es == [] {
    } else {
      var front, e := es[..|es| - 1], es[|es| - 1];
      BatchesFollowPeak(n, init, front);
      NothingDropped(n, init, front);
      var k := |Batches(init, front)|;
      var k' := if Made(e) == {} then k else k + 1;
      SizedStep(n, Run(init, front), e, Peak(init, front), k);
      assert |Batches(init, es)| == k';
    }
  }

  /** The pool's size after any run: whole batches, as many as the peak needs, at least one. */
  lemma GrowthFormula(n: nat, init: PoolState, es: seq<Event>)
    requires n > 0 && Start(n, init) && LegalRun(n, init, es)
    ensures |Run(init, es).free| + |Run(init, es).busy|
         == n * Max(1, CeilDiv(Peak(init, es), n))
  {
    NothingDropped(n, init, es);
    BatchesFollowPeak(n, init, es);
    var k := |Batches(init, es)|;
    if Peak(init, es) == 0 {
      assert k == 1 by {
        if k > 1 {
          MulMono(n, 1, k - 1);
        }
      }
    } else {
      CeilDivUnique(Peak(init, es), n, k);
    }
  }

  /** With an empty batch size nothing is ever made and every `get` comes back empty. */
  lemma {:induction false} EmptyBatchSize(init: PoolState, es: seq<Event>)
    requires Start(0, init) && LegalRun(0, init, es)
    ensures Run(init, es) == PoolState({}, {}) && Issued(init, es) == {}
  {
    if es != [] {
      EmptyBatchSize(init, es[..|es| - 1]);
    }
  }

  // ----- Working set

  lemma IssuingStep(n: nat, s: PoolState, e: Event, issued: set<Handle>, b: set<Handle>)
    requires s.Valid() && Legal(n, s, e)
    requires s.busy <= issued <= s.All()
    requires b <= s.All() && DownClosed(issued, b)
    ensures Apply(s, e).busy <= issued + IssuedBy(s, e) <= Apply(s, e).All()
    ensures DownClosed(issued + IssuedBy(s, e), b)
    ensures DownClosed(issued + IssuedBy(s, e), Made(e))
  {
  }

  /** Inside every batch the handles ever handed out are the smallest ones: `get` takes the
      least free handle, so a smaller one of the same batch must have been out already. */
  lemma {:induction false} IssuedDownClosed(n: nat, init: PoolState, es: seq<Event>)
    requires Start(n, init) && LegalRun(n, init, es)
    ensures Run(init, es).busy <= Issued(init, es) <= Constructed(init, es)
    ensures forall b | b in Batches(init, es) :: b <= Constructed(init, es) && DownClosed(Issued(init, es), b)
  {
    NothingDropped(n, init, es);
    if es != [] {
      var front, e := es[..|es| - 1], es[|es| - 1];
      IssuedDownClosed(n, init, front);
      NothingDropped(n, init, front);
      IssuingStep(n, Run(init, front), e, Issued(init, front), {});
      forall b | b in Batches(init, es)
        ensures b <= Constructed(init, es) && DownClosed(Issued(init, es), b)
      {
        if b in Batches(init, front) {
          IssuingStep(n, Run(init, front), e, Issued(init, front), b);
        } else {
          assert b == Made(e);
        }
      }
    }
  }

  /** One `get` on a pool that has only its first batch: a handle not issued before is larger
      than all that were, so all that were are out. */
  lemma CountingGet(s: PoolState, issued: set<Handle>)
    requires s.Valid() && s.free != {}
    requires s.busy <= issued <= s.All() && DownClosed(issued, s.All())
    ensures var h := Least(s.free);
      |issued + {h}| == Max(|issued|, |s.busy + {h}|)
  {
    var h := Least(s.free);
    if h in issued {
      assert issued + {h} == issued;
      SubsetSize(s.busy + {h}, issued);
    } else {
      assert issued == s.busy;
    }
  }

  lemma WithoutGrowth(s: PoolState, e: Event)
    requires Made(e) == {}
    ensures if e.Get? && s.free != {}
            then IssuedBy(s, e) == {Least(s.free)} && Apply(s, e).busy == s.busy + IssuedBy(s, e)
            else IssuedBy(s, e) == {} && Apply(s, e).busy <= s.busy
  {
  }

  lemma CountingStep(s: PoolState, e: Event, issued: set<Handle>)
    requires s.Valid() && Made(e) == {}
    requires s.busy <= issued <= s.All() && DownClosed(issued, s.All())
    ensures |issued + IssuedBy(s, e)| == Max(|issued|, |Apply(s, e).busy|)
  {
    WithoutGrowth(s, e);
    var now, taken := Apply(s, e).busy, IssuedBy(s, e);
    if e.Get? && s.free != {} {
      CountingGet(s, issued);
    } else {
      SubsetSize(now, issued);
    }
  }

  /** A run whose peak fits the first batch makes no other. */
  lemma {:induction false} OneBatch(n: nat, init: PoolState, es: seq<Event>)
    requires n > 0 && Start(n, init) && LegalRun(n, init, es) && Peak(init, es) <= n
    ensures |Batches(init, es)| == 1
  {
    BatchesFollowPeak(n, init, es);
    var k := |Batches(init, es)|;
    if k > 1 {
      MulMono(n, 1, k - 1);
      assert false;
    }
  }

  /** While no growth is needed, the handles ever handed out number exactly the peak. */
  lemma {:induction false} IssuedCountsPeak(n: nat, init: PoolState, es: seq<Event>)
    requires n > 0 && Start(n, init) && LegalRun(n, init, es) && Peak(init, es) <= n
    ensures Batches(init, es) == [init.free] && Constructed(init, es) == init.free
    ensures |Issued(init, es)| == Peak(init, es)
  {
    if es != [] {
      var front, e := es[..|es| - 1], es[|es| - 1];
      IssuedCountsPeak(n, init, front);
      OneBatch(n, init, es);
      assert Made(e) == {};
      IssuedDownClosed(n, init, front);
      NothingDropped(n, init, front);
      CountingStep(Run(init, front), e, Issued(init, front));
    }
  }

  /** If no more than one batch was ever out at once, the handles ever handed out are exactly
      the `peak` smallest of the constructor's batch, for every sequence of calls. */
  lemma WorkingSet(n: nat, init: PoolState, es: seq<Event>)
    requires n > 0 && Start(n, init) && LegalRun(n, init, es) && Peak(init, es) <= n
    ensures Issued(init, es) == Smallest(init.free, Peak(init, es))
  {
    IssuedCountsPeak(n, init, es);
    IssuedDownClosed(n, init, es);
    DownClosedIsSmallest(Issued(init, es), init.free);
  }
}

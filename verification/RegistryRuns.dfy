/** What whole runs of the registry keep: how many users it admits, how large its pool gets,
    and what a recycled item still carries. */
module RegistryRuns {
  import opened Numbers
  import opened Handles
  import opened RegistrySpec
  import P = PoolSpec

  // ----- Capacity

  /** The pool calls behind one registry event. */
  function PoolCalls(n: nat, s: Registry, e: Event): seq<P.Event> {
    match e
    case Activate(id, batch) => if AsksPool(n, s, id) then [P.Get(batch)] else []
    case Remove(id) => if id in s.users then [P.Free(s.users[id])] else []
    case _ => []
  }

  function PoolRun(n: nat, init: Registry, es: seq<Event>): seq<P.Event> {
    if es == [] then []
    else
      var front := es[..|es| - 1];
      PoolRun(n, init, front) + PoolCalls(n, Run(n, init, front), es[|es| - 1])
  }

  /** The largest number of users the index ever held. */
  function UserPeak(n: nat, init: Registry, es: seq<Event>): nat {
    if es == [] then |init.users|
    else Max(UserPeak(n, init, es[..|es| - 1]), |Run(n, init, es).users|)
  }

  lemma PoolRunSnoc(n: nat, init: P.PoolState, ps: seq<P.Event>, p: P.Event)
    requires P.LegalRun(n, init, ps) && P.Legal(n, P.Run(init, ps), p)
    ensures P.LegalRun(n, init, ps + [p])
    ensures P.Run(init, ps + [p]) == P.Apply(P.Run(init, ps), p)
    ensures P.Peak(init, ps + [p]) == Max(P.Peak(init, ps), |P.Run(init, ps + [p]).busy|)
  {
  }

  lemma SizeAdd<K, V>(m: map<K, V>, k: K, v: V)
    ensures |m[k := v]| == if k in m then |m| else |m| + 1
    ensures m[k := v].Keys == m.Keys + {k}
  {
  }

  lemma {:induction false} InjectiveSize(users: map<string, Handle>)
    requires Injective(users)
    ensures |users.Values| == |users|
    decreases |users|
  {
    if users == map[] {
      assert users.Values == {};
    } else {
      var id :| id in users;
      var h := users[id];
      ValuesDrop(users, id);
      InjectiveSize(users - {id});
      assert |users.Values - {h}| == |users.Values| - 1;
    }
  }

  lemma CallsFollowEvent(n: nat, s: Registry, e: Event)
    requires n > 0 && Agrees(s) && Legal(n, s, e)
    ensures var ps, s' := PoolCalls(n, s, e), Apply(n, s, e);
      && |ps| <= 1
      && (if ps == [] then s'.pool == s.pool && s'.users == s.users
          else P.Legal(n, s.pool, ps[0]) && s'.pool == P.Apply(s.pool, ps[0]))
  {
  }

  /** The registry's pool runs a legal sequence of pool calls whose peak is the peak number of
      users. */
  lemma {:induction false} PoolBehindRegistry(n: nat, init: Registry, es: seq<Event>)
    requires n > 0 && Start(n, init) && LegalRun(n, init, es)
    ensures var ps := PoolRun(n, init, es);
      && P.LegalRun(n, init.pool, ps) && P.Run(init.pool, ps) == Run(n, init, es).pool
      && P.Peak(init.pool, ps) == UserPeak(n, init, es)
  {
    if es != [] {
      var front, e := es[..|es| - 1], es[|es| - 1];
      PoolBehindRegistry(n, init, front);
      IndexAgreement(n, init, front);
      IndexAgreement(n, init, es);
      var s, ps := Run(n, init, front), PoolRun(n, init, front);
      CallsFollowEvent(n, s, e);
      InjectiveSize(s.users);
      InjectiveSize(Run(n, init, es).users);
      var calls := PoolCalls(n, s, e);
      if calls == [] {
        assert ps + [] == ps;
      } else {
        PoolRunSnoc(n, init.pool, ps, calls[0]);
      }
    }
  }

  /** The registry makes items in batches of `MAX_USER_COUNT`, as many as the peak number of
      users needs: its size follows the pool's growth, not the limit it tests. */
  lemma CapacityFollowsPeak(n: nat, init: Registry, es: seq<Event>)
    requires n > 0 && Start(n, init) && LegalRun(n, init, es)
    ensures |Run(n, init, es).items| == n * Max(1, P.CeilDiv(UserPeak(n, init, es), n))
  {
    PoolBehindRegistry(n, init, es);
    IndexAgreement(n, init, es);
    P.GrowthFormula(n, init.pool, PoolRun(n, init, es));
  }

  // ----- Admission

  lemma ActivationAdds(n: nat, s: Registry, id: string, batch: set<Handle>) returns (h: Handle)
    requires n > 0 && Agrees(s) && Legal(n, s, Activate(id, batch))
    ensures Apply(n, s, Activate(id, batch)).users == s.users[id := h]
  {
    h := Activated(n, s, id, batch).value;
  }

  lemma ActivationCounts(n: nat, s: Registry, id: string, batch: set<Handle>)
    requires n > 0 && Agrees(s) && Legal(n, s, Activate(id, batch))
    ensures |Apply(n, s, Activate(id, batch)).users| == if id in s.users then |s.users| else |s.users| + 1
    ensures Apply(n, s, Activate(id, batch)).users.Keys == s.users.Keys + {id}
  {
    var h := ActivationAdds(n, s, id, batch);
    SizeAdd(s.users, id, h);
  }

  /** An activation keeps the number of users within the limit exactly when the user is known
      or there is room: the test the code makes on its counter does not. */
  lemma LimitKeptIff(n: nat, s: Registry, id: string, batch: set<Handle>)
    requires n > 0 && Agrees(s) && Legal(n, s, Activate(id, batch)) && |s.users| <= n
    ensures |Apply(n, s, Activate(id, batch)).users| <= n <==> id in s.users || |s.users| < n
  {
  }

  lemma {:induction false} FreshBatch(n: nat, s: set<Handle>) returns (b: set<Handle>)
    ensures |b| == n && b !! s
  {
    if n == 0 {
      b := {};
    } else {
      var rest := FreshBatch(n - 1, s);
      b := rest + {Fresh(s + rest)};
    }
  }

  function NthId(k: nat): string { seq(k + 1, _ => 'u') }

  /** From any consistent state one more user is admitted. */
  lemma AdmitOne(n: nat, s: Registry, id: string) returns (e: Event)
    requires n > 0 && Agrees(s) && id != "" && id !in s.users
    ensures Legal(n, s, e) && |Apply(n, s, e).users| == |s.users| + 1
    ensures Apply(n, s, e).users.Keys == s.users.Keys + {id}
  {
    var batch := SomeBatch(n, s.pool);
    e := Activate(id, batch);
    ActivationCounts(n, s, id, batch);
  }

  /** The factory can always answer. */
  lemma SomeBatch(n: nat, pool: P.PoolState) returns (batch: set<Handle>)
    ensures P.Legal(n, pool, P.Get(batch))
  {
    batch := {};
    if pool.free == {} {
      batch := FreshBatch(n, pool.busy);
    }
  }

  lemma RunSnoc(n: nat, init: Registry, es: seq<Event>, e: Event)
    requires LegalRun(n, init, es) && Legal(n, Run(n, init, es), e)
    ensures LegalRun(n, init, es + [e]) && Run(n, init, es + [e]) == Apply(n, Run(n, init, es), e)
  {
  }

  lemma {:induction false} AdmitMany(n: nat, init: Registry, k: nat) returns (es: seq<Event>)
    requires n > 0 && Start(n, init)
    ensures LegalRun(n, init, es) && |Run(n, init, es).users| == k
    ensures forall id | id in Run(n, init, es).users :: |id| <= k
  {
    if k == 0 {
      es := [];
    } else {
      var front := AdmitMany(n, init, k - 1);
      IndexAgreement(n, init, front);
      var e := AdmitOne(n, Run(n, init, front), NthId(k - 1));
      RunSnoc(n, init, front, e);
      es := front + [e];
    }
  }

  /** There is no number of users the registry stops at. */
  lemma LimitNeverBinds(n: nat, init: Registry, k: nat)
    requires n > 0 && Start(n, init)
    ensures exists es :: LegalRun(n, init, es) && |Run(n, init, es).users| == k
  {
    var es := AdmitMany(n, init, k);
  }

  // ----- Recycled items

  /** The fields of item `h` after the writes of its holders, from a new item on. */
  function Written(es: seq<Event>, h: Handle): Item {
    if es == [] then NEW_ITEM
    else
      var before := Written(es[..|es| - 1], h);
      match es[|es| - 1]
      case Reset(g) => if g == h then Item(false, "") else before
      case SetId(g, c) => if g == h then before.(clientUniqueId := c) else before
      case _ => before
  }

  /** One event of the registry and what the holders wrote so far. */
  lemma WrittenStep(n: nat, s: Registry, e: Event, h: Handle, w: Item, w': Item)
    requires n > 0 && Agrees(s) && Legal(n, s, e)
    requires if h in s.items then s.items[h] == w else w == NEW_ITEM
    requires w' == match e
                   case Reset(g) => if g == h then Item(false, "") else w
                   case SetId(g, c) => if g == h then w.(clientUniqueId := c) else w
                   case _ => w
    ensures var s' := Apply(n, s, e);
      if h in s'.items then s'.items[h] == w' else w' == NEW_ITEM
  {
  }

  /** Neither the registry nor the pool writes an item: its fields are what its holders wrote,
      from its making on, through any number of users. */
  lemma {:induction false} ItemsKeepWrites(n: nat, init: Registry, es: seq<Event>, h: Handle)
    requires n > 0 && Start(n, init) && LegalRun(n, init, es)
    ensures var s := Run(n, init, es);
      if h in s.items then s.items[h] == Written(es, h) else Written(es, h) == NEW_ITEM
  {
    if es != [] {
      var front, e := es[..|es| - 1], es[|es| - 1];
      ItemsKeepWrites(n, init, front, h);
      IndexAgreement(n, init, front);
      WrittenStep(n, Run(n, init, front), e, h, Written(front, h), Written(es, h));
    }
  }

  /** The last write to `h`, if there was one. */
  function LastWrite(es: seq<Event>, h: Handle): Option<Event> {
    if es == [] then None
    else
      var e := es[|es| - 1];
      if (e.Reset? || e.SetId?) && e.handle == h then Some(e) else LastWrite(es[..|es| - 1], h)
  }

  lemma {:induction false} WrittenByLast(es: seq<Event>, h: Handle)
    ensures !Written(es, h).isRobot
    ensures Written(es, h).IsActivity()
       <==> LastWrite(es, h).Some? && LastWrite(es, h).value.SetId? && LastWrite(es, h).value.clientId != ""
  {
    if es != [] {
      WrittenByLast(es[..|es| - 1], h);
    }
  }

  /** The item a user is given, new or not, is never a robot, and it is active from the start
      exactly when the last write of an earlier holder left an id in it. */
  lemma IssuedItemState(n: nat, init: Registry, es: seq<Event>, id: string, batch: set<Handle>)
    requires n > 0 && Start(n, init) && LegalRun(n, init, es)
    requires Legal(n, Run(n, init, es), Activate(id, batch))
    ensures var s := Run(n, init, es);
      var s', r := Apply(n, s, Activate(id, batch)), Activated(n, s, id, batch);
      && r.Some? && r.value in s'.items && !s'.items[r.value].isRobot
      && (s'.items[r.value].IsActivity() <==>
            var w := LastWrite(es, r.value);
            w.Some? && w.value.SetId? && w.value.clientId != "")
  {
    var s := Run(n, init, es);
    IndexAgreement(n, init, es);
    ActivateExtendsIndex(n, s, id, batch);
    var h := Activated(n, s, id, batch).value;
    ItemsKeepWrites(n, init, es, h);
    WrittenStep(n, s, Activate(id, batch), h, Written(es, h), Written(es, h));
    WrittenByLast(es, h);
  }

  /** A new user sets an id in its item and is removed; the next new user is handed the same
      item, active and with the id of the one before. */
  lemma RecycledItemStaysActive(n: nat, s: Registry, a: string, c: string, b: string)
    requires n > 0 && Agrees(s) && s.pool.free != {}
    requires a != "" && b != "" && c != "" && a !in s.users && b !in s.users
    ensures var h := Least(s.pool.free);
      var left := Apply(n, Apply(n, Apply(n, s, Activate(a, {})), SetId(h, c)), Remove(a));
      && Legal(n, left, Activate(b, {})) && Activated(n, left, b, {}) == Some(h)
      && h in left.items && left.items[h].clientUniqueId == c && left.items[h].IsActivity()
      && Apply(n, left, Activate(b, {})).items == left.items
  {
    var h := NewUser(n, s, a, {});
    var s1 := Apply(n, s, Activate(a, {}));
    NewUserWrites(n, s, s1, a, h, c);
    var left := Apply(n, Apply(n, s1, SetId(h, c)), Remove(a));
    NextIsSame(n, left, b, h);
    NothingMade(n, left, b);
  }

  lemma NewUserWrites(n: nat, s: Registry, s1: Registry, a: string, h: Handle, c: string)
    requires Agrees(s) && Joined(s, s1, a, {}, h) && h !in s.pool.busy && a !in s.users
    ensures var left := Apply(n, Apply(n, s1, SetId(h, c)), Remove(a));
      && left.users == s.users && left.userCount == 0
      && h in left.pool.free && left.pool.free == s.pool.free
      && h in left.items && left.items[h].clientUniqueId == c
  {
    var s2 := Apply(n, s1, SetId(h, c));
    assert s2.users - {a} == s.users;
  }

  lemma NothingMade(n: nat, s: Registry, b: string)
    ensures Apply(n, s, Activate(b, {})).items == s.items
  {
    assert WithNew(s.items, {}) == s.items;
  }
}

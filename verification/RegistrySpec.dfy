/** The user registry as an atomic machine: an index from user ids to pooled items, and the
    fields the items carry from one user to the next. `n` is `MAX_USER_COUNT`, both the batch
    size of the pool and the limit the registry tests. */
module RegistrySpec {
  import opened Handles
  import P = PoolSpec

  datatype Item = Item(isRobot: bool, clientUniqueId: string) {
    predicate IsActivity() { clientUniqueId != "" }
  }

  const NEW_ITEM := Item(false, "")

  /** `items` gives the fields of every item the pool has made. */
  datatype Registry = Registry(pool: P.PoolState, users: map<string, Handle>, userCount: nat,
                               items: map<Handle, Item>)

  /** `Reset` and `SetId` are what the holder of an item does to it. */
  datatype Event =
    | Activate(id: string, batch: set<Handle>)
    | Remove(id: string)
    | Reset(handle: Handle)
    | SetId(handle: Handle, clientId: string)

  /** Whether `activity_user` gets as far as asking the pool. */
  predicate AsksPool(n: nat, s: Registry, id: string) {
    s.userCount < n && id !in s.users
  }

  ghost predicate Legal(n: nat, s: Registry, e: Event) {
    match e
    case Activate(id, batch) =>
      id != "" && if AsksPool(n, s, id) then P.Legal(n, s.pool, P.Get(batch)) else batch == {}
    case Remove(id) => id != ""
    case Reset(h) => h in s.items
    case SetId(h, _) => h in s.items
  }

  function Activated(n: nat, s: Registry, id: string, batch: set<Handle>): Option<Handle> {
    if s.userCount >= n then None
    else if id in s.users then Some(s.users[id])
    else P.Taken(s.pool, batch)
  }

  function WithNew(items: map<Handle, Item>, batch: set<Handle>): map<Handle, Item> {
    items + map h | h in batch :: NEW_ITEM
  }

  function Apply(n: nat, s: Registry, e: Event): Registry {
    match e
    case Activate(id, batch) =>
      if !AsksPool(n, s, id) then s
      else
        var s' := s.(pool := P.Apply(s.pool, P.Get(batch)), items := WithNew(s.items, batch));
        if P.Taken(s.pool, batch) == None then s'
        else s'.(users := s.users[id := P.Taken(s.pool, batch).value])
    case Remove(id) =>
      if id !in s.users then s
      else s.(pool := P.Apply(s.pool, P.Free(s.users[id])), users := s.users - {id})
    case Reset(h) => s.(items := s.items[h := Item(false, "")])
    case SetId(h, c) => if h in s.items then s.(items := s.items[h := s.items[h].(clientUniqueId := c)]) else s
  }

  lemma ActivateAsks(n: nat, s: Registry, id: string, batch: set<Handle>)
    requires AsksPool(n, s, id)
    ensures var r := P.Taken(s.pool, batch);
      Apply(n, s, Activate(id, batch)) ==
        Registry(P.Apply(s.pool, P.Get(batch)), if r == None then s.users else s.users[id := r.value],
                 s.userCount, WithNew(s.items, batch))
  {
  }

  /** The test of the counter as it is coded, for every state: with the counter at the limit nobody
      gets an item, not even a known user, and nothing changes. */
  lemma FullCounterRefuses(n: nat, s: Registry, id: string, batch: set<Handle>)
    requires s.userCount >= n
    ensures Activated(n, s, id, batch) == None && Apply(n, s, Activate(id, batch)) == s
  {
  }

  function Run(n: nat, init: Registry, es: seq<Event>): Registry {
    if es == [] then init else Apply(n, Run(n, init, es[..|es| - 1]), es[|es| - 1])
  }

  ghost predicate LegalRun(n: nat, init: Registry, es: seq<Event>) {
    es == [] ||
    (LegalRun(n, init, es[..|es| - 1]) && Legal(n, Run(n, init, es[..|es| - 1]), es[|es| - 1]))
  }

  ghost predicate Start(n: nat, s: Registry) {
    && P.Start(n, s.pool) && s.users == map[] && s.userCount == 0
    && s.items.Keys == s.pool.free
    && forall h | h in s.items :: s.items[h] == NEW_ITEM
  }

  // ----- Agreement of the index and the pool

  ghost predicate Injective(users: map<string, Handle>) {
    forall a, b | a in users && b in users && users[a] == users[b] :: a == b
  }

  ghost predicate Agrees(s: Registry) {
    && s.pool.Valid()
    && Injective(s.users)
    && s.users.Values == s.pool.busy
    && s.userCount == 0
    && s.items.Keys == s.pool.All()
  }

  /** `s'` is `s` with the new user `id`, who got the least free handle, of a new batch if
      need be. */
  ghost predicate Joined(s: Registry, s': Registry, id: string, batch: set<Handle>, h: Handle) {
    && h in s.pool.free + batch && (forall x | x in s.pool.free + batch :: h <= x)
    && s'.users == s.users[id := h] && s'.userCount == 0
    && s'.pool == P.PoolState(s.pool.free + batch - {h}, s.pool.busy + {h})
    && s'.items == WithNew(s.items, batch)
  }

  lemma NewUser(n: nat, s: Registry, id: string, batch: set<Handle>) returns (h: Handle)
    requires n > 0 && Agrees(s) && Legal(n, s, Activate(id, batch)) && id !in s.users
    ensures batch !! s.pool.busy
    ensures Activated(n, s, id, batch) == Some(h) && h !in s.pool.busy
    ensures Joined(s, Apply(n, s, Activate(id, batch)), id, batch, h)
  {
    h := Least(s.pool.free + batch);
  }

  lemma JoinedAgrees(s: Registry, s': Registry, id: string, batch: set<Handle>, h: Handle)
    requires Agrees(s) && Joined(s, s', id, batch, h) && id !in s.users && h !in s.pool.busy && batch !! s.pool.busy
    ensures Agrees(s')
  {
    ValuesAdd(s.users, id, h);
  }

  /** Activation hands out the user's own item, or a free one for a new user; it never refuses,
      since the counter it tests stays at zero. */
  lemma ActivateExtendsIndex(n: nat, s: Registry, id: string, batch: set<Handle>)
    requires n > 0 && Agrees(s) && Legal(n, s, Activate(id, batch))
    ensures Agrees(Apply(n, s, Activate(id, batch)))
    ensures var s', r := Apply(n, s, Activate(id, batch)), Activated(n, s, id, batch);
      && r.Some? && s'.users == s.users[id := r.value]
      && (if id in s.users then s' == s
          else r.value !in s.users.Values && s'.pool.busy == s.pool.busy + {r.value})
  {
    if id in s.users {
    } else {
      var h := NewUser(n, s, id, batch);
      JoinedAgrees(s, Apply(n, s, Activate(id, batch)), id, batch, h);
    }
  }

  lemma WithNewExact(before: map<Handle, Item>, after: map<Handle, Item>, batch: set<Handle>)
    requires after.Keys == before.Keys + batch && before.Keys !! batch
    requires forall h | h in before :: after[h] == before[h]
    requires forall h | h in batch :: after[h] == NEW_ITEM
    ensures after == WithNew(before, batch)
  {
  }

  lemma ValuesAdd(users: map<string, Handle>, id: string, h: Handle)
    requires id !in users && Injective(users) && h !in users.Values
    ensures users[id := h].Values == users.Values + {h} && Injective(users[id := h])
  {
    var users' := users[id := h];
    forall v | v in users.Values + {h} ensures v in users'.Values {
      if v == h {
        assert users'[id] == h;
      } else {
        var k :| k in users && users[k] == v;
        assert users'[k] == v;
      }
    }
    forall a | a in users ensures users[a] in users.Values {}
  }

  lemma ValuesDrop(users: map<string, Handle>, id: string)
    requires id in users && Injective(users)
    ensures (users - {id}).Values == users.Values - {users[id]} && Injective(users - {id})
  {
    var users' := users - {id};
    forall v | v in users.Values - {users[id]} ensures v in users'.Values {
      var k :| k in users && users[k] == v;
      assert k in users' && users'[k] == v;
    }
    forall v | v in users'.Values ensures v in users.Values - {users[id]} {
      var k :| k in users' && users'[k] == v;
    }
  }

  lemma RemoveShrinksIndex(n: nat, s: Registry, id: string)
    requires Agrees(s)
    ensures var s' := Apply(n, s, Remove(id));
      && Agrees(s') && s'.users == s.users - {id} && s'.items == s.items
      && s'.pool.All() == s.pool.All()
      && (id in s.users ==> s'.pool.free == s.pool.free + {s.users[id]})
  {
    if id in s.users {
      ValuesDrop(s.users, id);
    } else {
      assert s.users - {id} == s.users;
    }
  }

  lemma ApplyKeepsAgreement(n: nat, s: Registry, e: Event)
    requires n > 0 && Agrees(s) && Legal(n, s, e)
    ensures Agrees(Apply(n, s, e))
  {
    match e
    case Activate(id, batch) => ActivateExtendsIndex(n, s, id, batch);
    case Remove(id) => RemoveShrinksIndex(n, s, id);
    case Reset(h) => assert s.items[h := Item(false, "")].Keys == s.items.Keys;
    case SetId(h, c) => assert s.items[h := s.items[h].(clientUniqueId := c)].Keys == s.items.Keys;
  }

  /** In every reachable state the index is injective and its items are exactly the busy ones. */
  lemma {:induction false} IndexAgreement(n: nat, init: Registry, es: seq<Event>)
    requires n > 0 && Start(n, init) && LegalRun(n, init, es)
    ensures Agrees(Run(n, init, es))
  {
    if es != [] {
      IndexAgreement(n, init, es[..|es| - 1]);
      ApplyKeepsAgreement(n, Run(n, init, es[..|es| - 1]), es[|es| - 1]);
    }
  }

  // ----- Stability

  /** As long as nobody removes a user, every `activity_user` with its id answers the same
      item, whatever else happens and however the pool grows. */
  lemma {:induction false} UserKeepsItem(n: nat, s: Registry, es: seq<Event>, id: string)
    requires n > 0 && Agrees(s) && LegalRun(n, s, es)
    requires id in s.users && Remove(id) !in es
    ensures Agrees(Run(n, s, es))
    ensures Activated(n, Run(n, s, es), id, {}) == Some(s.users[id])
    ensures id in Run(n, s, es).users
  {
    if es != [] {
      var front, e := es[..|es| - 1], es[|es| - 1];
      UserKeepsItem(n, s, front, id);
      ApplyKeepsAgreement(n, Run(n, s, front), e);
    }
  }

  // ----- Reuse

  /** Activating a new user and removing it again restores the index and the busy set, and the
      free set up to the batch that was made; the next new user, whoever it is, gets the very
      same item. */
  lemma ReuseIsDeterministic(n: nat, s: Registry, a: string, batch: set<Handle>, b: string)
    requires n > 0 && Agrees(s) && Legal(n, s, Activate(a, batch)) && a !in s.users
    requires b != "" && b !in s.users
    ensures var s' := Apply(n, Apply(n, s, Activate(a, batch)), Remove(a));
      && s'.users == s.users && s'.pool == P.PoolState(s.pool.free + batch, s.pool.busy)
      && Legal(n, s', Activate(b, {}))
      && Activated(n, s', b, {}) == Activated(n, s, a, batch)
  {
    var h := NewUser(n, s, a, batch);
    var s' := Apply(n, s, Activate(a, batch));
    JoinedThenLeft(n, s, s', a, batch, h);
    NextIsSame(n, Apply(n, s', Remove(a)), b, h);
  }

  lemma JoinedThenLeft(n: nat, s: Registry, s': Registry, a: string, batch: set<Handle>, h: Handle)
    requires Joined(s, s', a, batch, h) && a !in s.users && h !in s.pool.busy
    ensures var left := Apply(n, s', Remove(a));
      left.users == s.users && left.pool == P.PoolState(s.pool.free + batch, s.pool.busy) && left.userCount == 0
  {
  }

  lemma NextIsSame(n: nat, s: Registry, b: string, h: Handle)
    requires n > 0 && s.userCount == 0 && b !in s.users && b != ""
    requires h in s.pool.free && forall x | x in s.pool.free :: h <= x
    ensures Legal(n, s, Activate(b, {})) && Activated(n, s, b, {}) == Some(h)
  {
  }

  function RemoveAll(n: nat, s: Registry, ids: seq<string>): Registry {
    if ids == [] then s else Apply(n, RemoveAll(n, s, ids[..|ids| - 1]), Remove(ids[|ids| - 1]))
  }

  function ItemsOf(users: map<string, Handle>, ids: set<string>): set<Handle> {
    set a | a in ids && a in users :: users[a]
  }

  function IdSet(ids: seq<string>): set<string> { set a | a in ids }

  /** The registry without a set of users, whatever the order they left in. */
  function Without(s: Registry, ids: set<string>): Registry {
    s.(users := s.users - ids,
    pool := P.PoolState(s.pool.free + ItemsOf(s.users, ids), s.pool.busy - ItemsOf(s.users, ids)))
  }

  lemma RemoveOneMore(n: nat, s: Registry, ids: set<string>, id: string)
    requires Agrees(s)
    ensures Apply(n, Without(s, ids), Remove(id)) == Without(s, ids + {id})
  {
    var t := Without(s, ids);
    if id in t.users {
      var h := s.users[id];
      assert ItemsOf(s.users, ids + {id}) == ItemsOf(s.users, ids) + {h};
      assert t.users - {id} == s.users - (ids + {id});
      assert t.pool.busy - {h} == s.pool.busy - ItemsOf(s.users, ids + {id});
      assert t.pool.free + {h} == s.pool.free + ItemsOf(s.users, ids + {id});
    } else {
      assert ItemsOf(s.users, ids + {id}) == ItemsOf(s.users, ids);
      assert s.users - (ids + {id}) == s.users - ids;
    }
  }

  /** The order of removals does not matter, nor do repeats and unknown ids: only the set of
      removed users does. */
  lemma {:induction false} RemovalOrderIrrelevant(n: nat, s: Registry, ids: seq<string>)
    requires Agrees(s)
    ensures RemoveAll(n, s, ids) == Without(s, IdSet(ids))
  {
    if ids == [] {
      assert s.users - {} == s.users;
      assert ItemsOf(s.users, {}) == {};
      assert IdSet(ids) == {};
    } else {
      var front, id := ids[..|ids| - 1], ids[|ids| - 1];
      RemovalOrderIrrelevant(n, s, front);
      RemoveOneMore(n, s, IdSet(front), id);
      assert IdSet(ids) == IdSet(front) + {id};
    }
  }
}

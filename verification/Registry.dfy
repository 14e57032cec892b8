/** The registry as it is written: a map changed in place, over a pool, over items whose fields
    their holders change. Each method is one event of `RegistrySpec`. */
module Registry {
  import opened Handles
  import opened Pool
  import P = PoolSpec
  import R = RegistrySpec

  const MAX_USER_COUNT: nat := 300

  class ServerUserItem {
    var isRobot: bool
    var clientUniqueId: string

    constructor ()
      ensures Value() == R.NEW_ITEM && !IsActivity()
      ensures !isRobot && clientUniqueId == ""
    {
      isRobot, clientUniqueId := false, "";
    }

    ghost function Value(): R.Item
      reads this
    {
      R.Item(isRobot, clientUniqueId)
    }

    method Reset()
      modifies this
      ensures Value() == R.NEW_ITEM && !IsActivity()
      ensures !isRobot && clientUniqueId == ""
    {
      isRobot := false;
      clientUniqueId := "";
    }

    predicate IsActivity()
      reads this
      ensures IsActivity() <==> Value().IsActivity()
    {
      clientUniqueId != ""
    }

    method SetClientUniqueId(uniqueId: string)
      modifies this
      ensures Value() == old(Value()).(clientUniqueId := uniqueId)
      ensures IsActivity() <==> uniqueId != ""
      ensures clientUniqueId == uniqueId && isRobot == old(isRobot)
    {
      clientUniqueId := uniqueId;
    }
  }

  /** A handle is the value of a `shared_ptr`; `items` says which object it points to. */
  class ServerUserManager {
    const userPool: ObjectPool
    var users: map<string, Handle>
    var userCount: nat
    var items: map<Handle, ServerUserItem>

    ghost predicate Valid()
      reads this, userPool
    {
      && userPool.Valid() && userPool.nextSize == MAX_USER_COUNT
      && items.Keys == userPool.State().All()
      && forall h, g | h in items && g in items && items[h] == items[g] :: h == g
    }

    ghost function State(): R.Registry
      reads this, userPool, items.Values
    {
      R.Registry(userPool.State(), users, userCount, Fields())
    }

    ghost function Fields(): map<Handle, R.Item>
      reads `items, items.Values
    {
      map h | h in items :: items[h].Value()
    }

    constructor ()
      ensures Valid() && fresh(userPool) && R.Start(MAX_USER_COUNT, State())
    {
      userPool := new ObjectPool(MAX_USER_COUNT);
      users := map[];
      userCount := 0;
      items := map[];
      new;
      AddItems();
    }

    /** The objects behind the handles a growth of the pool has just made. */
    method AddItems()
      requires userPool.Valid() && userPool.nextSize == MAX_USER_COUNT
      requires items.Keys <= userPool.State().All()
      requires forall h, g | h in items && g in items && items[h] == items[g] :: h == g
      modifies `items
      ensures Valid()
      ensures forall h | h in old(items) :: items[h] == old(items[h])
      ensures Fields() == R.WithNew(old(Fields()), userPool.State().All() - old(items.Keys))
    {
      var missing := userPool.freeList + userPool.busyList - items.Keys;
      while missing != {}
        invariant items.Keys + missing == userPool.State().All() && items.Keys !! missing
        invariant old(items.Keys) <= items.Keys
        invariant forall h | h in old(items) :: items[h] == old(items[h])
        invariant forall h | h in items && h !in old(items) :: fresh(items[h]) && items[h].Value() == R.NEW_ITEM
        invariant forall h, g | h in items && g in items && items[h] == items[g] :: h == g
        decreases missing
      {
        var h := Least(missing);
        var item := new ServerUserItem();
        items := items[h := item];
        missing := missing - {h};
      }
      R.WithNewExact(old(Fields()), Fields(), userPool.State().All() - old(items.Keys));
    }

    /** `user_pool_->get()`, with the objects its factory makes. */
    method TakeItem() returns (r: Option<Handle>, ghost batch: set<Handle>)
      requires Valid()
      modifies `items, userPool
      ensures Valid()
      ensures P.Legal(MAX_USER_COUNT, old(userPool.State()), P.Get(batch))
      ensures r == P.Taken(old(userPool.State()), batch)
      ensures userPool.State() == P.Apply(old(userPool.State()), P.Get(batch))
      ensures Fields() == R.WithNew(old(Fields()), batch)
      ensures forall h | h in old(items) :: h in items && items[h] == old(items[h])
    {
      ghost var before := userPool.State();
      r, batch := userPool.Get();
      assert userPool.State().All() == before.All() + batch && batch !! before.All() by {
        P.ApplyKeepsPartition(MAX_USER_COUNT, before, P.Get(batch));
      }
      AddItems();
    }

    /** The part of `activity_user` after both tests: a user that is not in the index. */
    method NewUser(uniqueId: string) returns (r: Option<Handle>, ghost batch: set<Handle>)
      requires Valid()
      modifies `users, `items, userPool
      ensures Valid()
      ensures P.Legal(MAX_USER_COUNT, old(userPool.State()), P.Get(batch))
      ensures r == P.Taken(old(userPool.State()), batch)
      ensures userPool.State() == P.Apply(old(userPool.State()), P.Get(batch))
      ensures Fields() == R.WithNew(old(Fields()), batch)
      ensures users == if r == None then old(users) else old(users)[uniqueId := r.value]
      ensures forall h | h in old(items) :: h in items && items[h] == old(items[h])
    {
      r, batch := TakeItem();
      if r == None {
        return;
      }
      users := users[uniqueId := r.value];
    }

    method ActivityUser(uniqueId: string) returns (r: Option<Handle>, ghost batch: set<Handle>)
      requires Valid() && uniqueId != ""
      modifies `users, `items, userPool
      ensures Valid()
      ensures R.Legal(MAX_USER_COUNT, old(State()), R.Activate(uniqueId, batch))
      ensures State() == R.Apply(MAX_USER_COUNT, old(State()), R.Activate(uniqueId, batch))
      ensures r == R.Activated(MAX_USER_COUNT, old(State()), uniqueId, batch)
      ensures userCount >= MAX_USER_COUNT ==>
        r == None && users == old(users) && items == old(items) && userPool.State() == old(userPool.State())
      ensures userCount < MAX_USER_COUNT && uniqueId in old(users) ==>
        r == Some(old(users)[uniqueId]) && users == old(users) && items == old(items)
        && userPool.State() == old(userPool.State())
      ensures userCount < MAX_USER_COUNT && uniqueId !in old(users) ==>
        r.Some? && users == old(users)[uniqueId := r.value]
        && r.value in userPool.busyList && r.value !in old(userPool.busyList)
      ensures forall h | h in old(items) :: h in items && items[h] == old(items[h])
    {
      batch := {};
      if userCount >= MAX_USER_COUNT {
        return None, batch;
      }
      if uniqueId in users {
        return Some(users[uniqueId]), batch;
      }
      r, batch := NewUser(uniqueId);
      R.ActivateAsks(MAX_USER_COUNT, old(State()), uniqueId, batch);
    }

    method RemoveUser(uniqueId: string) returns (removed: bool)
      requires Valid() && uniqueId != ""
      modifies `users, userPool
      ensures Valid()
      ensures State() == R.Apply(MAX_USER_COUNT, old(State()), R.Remove(uniqueId))
      ensures removed == (uniqueId in old(users))
      ensures users == old(users) - {uniqueId}
      ensures removed ==> userPool.busyList == old(userPool.busyList) - {old(users)[uniqueId]}
      ensures !removed ==> userPool.State() == old(userPool.State())
    {
      if uniqueId !in users {
        return false;
      }
      var called := userPool.Free(users[uniqueId]);
      users := users - {uniqueId};
      removed := true;
    }
  }
}

/** What every run of buffer calls keeps. */
module BufferGuarantees {
  import opened Collections
  import opened DocaResult
  import opened BufferChains
  import opened BufferStore
  import opened BufferCalls

  ghost predicate Enabled(s: Store, c: Call)
  {
    && Allowed(s, c) && Answer(s, c) == Done
    && (c.Get? || c.Duplicate? || c.Convert? ==> Allocated(s, c.inventory, Demand(s, c), c.ids))
  }

  /** A refused call leaves the store as it is. */
  ghost function Step(s: Store, c: Call): Store
    requires Sound(s)
  {
    if Enabled(s, c) then After(s, c) else s
  }

  /* Every call keeps the store sound. */

  lemma SameBooks(s: Store, t: Store)
    requires Booked(s) && t.elements == s.elements && t.free == s.free && t.owner == s.owner
    requires t.refcount == s.refcount && t.users == s.users && t.pool == s.pool && t.pools == s.pools
    ensures Booked(t)
  {
    SameStock(s, t);
    SameAccounts(s, t);
  }

  lemma SameStock(s: Store, t: Store)
    requires Stocked(s) && t.elements.Keys == s.elements.Keys && t.free == s.free && t.owner == s.owner
    ensures Stocked(t)
  {
    forall id
      ensures StockAt(t, id)
    {
      assert StockAt(s, id);
    }
    forall v, id
      ensures ShelfAt(t, v, id)
    {
      assert ShelfAt(s, v, id);
    }
  }

  lemma SameAccounts(s: Store, t: Store)
    requires Accounted(s) && t.refcount == s.refcount && t.users == s.users && t.pool == s.pool && t.pools == s.pools
    requires t.elements.Keys == s.elements.Keys
    requires forall id :: id in s.elements ==> t.elements[id].mbuf == s.elements[id].mbuf
    ensures Accounted(t)
  {
    forall id
      ensures KnownMbuf(t, id)
    {
      assert KnownMbuf(s, id);
    }
    forall m
      ensures CountAt(t, m)
    {
      assert CountAt(s, m);
      assert Holders(t.elements, m) == Holders(s.elements, m);
    }
  }

  lemma AvailableIsFresh(s: Store, ids: seq<Id>)
    requires Shaped(s) && Stocked(s) && AllAvailable(s, ids)
    ensures Fresh(s.chains, ids)
    ensures forall i :: 0 <= i < |ids| ==> ids[i] !in s.elements
  {
    forall i | 0 <= i < |ids|
      ensures ids[i] !in s.elements
    {
      assert StockAt(s, ids[i]);
    }
  }

  lemma NewListShaped(s: Store, ids: seq<Id>, es: seq<Element>)
    requires Shaped(s) && Stocked(s) && |ids| == |es| > 0 && AllAvailable(s, ids)
    ensures Shaped(NewList(s, ids, es))
  {
    AvailableIsFresh(s, ids);
    AddedValid(s.chains, ids);
    TakeAllKeys(s, ids, es);
  }

  lemma NewListSound(s: Store, ids: seq<Id>, es: seq<Element>)
    requires Sound(s) && |ids| == |es| > 0 && AllAvailable(s, ids) && AllUsable(s, es)
    ensures Sound(NewList(s, ids, es))
  {
    NewListShaped(s, ids, es);
    TakeAllBooked(s, ids, es);
    SameBooks(TakeAll(s, ids, es), NewList(s, ids, es));
  }

  lemma DroppedShaped(s: Store, h: Id)
    requires Shaped(s) && h in s.chains.lists && AllReturnable(s, s.chains.lists[h])
    ensures Shaped(Dropped(s, h))
  {
    RemovedValid(s.chains, h);
    ReturnAllElements(s, s.chains.lists[h]);
  }

  lemma DroppedSound(s: Store, h: Id)
    requires Sound(s) && h in s.chains.lists && AllReturnable(s, s.chains.lists[h])
    ensures Sound(Dropped(s, h))
  {
    DroppedShaped(s, h);
    ReturnAllBooked(s, s.chains.lists[h]);
    SameBooks(ReturnAll(s, s.chains.lists[h]), Dropped(s, h));
  }

  lemma ContentsUsable(s: Store, ids: seq<Id>)
    requires Booked(s) && forall i :: 0 <= i < |ids| ==> ids[i] in s.elements
    ensures AllUsable(s, Contents(s, ids))
  {
    forall i | 0 <= i < |ids|
      ensures Usable(s, Contents(s, ids)[i])
    {
      assert KnownMbuf(s, ids[i]);
    }
  }

  /** Segments that are in a memory pool that exists can be used. */
  lemma SegmentsUsable(s: Store, c: Call)
    requires Allowed(s, c) && c.Convert? && Answer(s, c) == Done
    ensures AllUsable(s, c.segments)
  {
    forall i | 0 <= i < |c.segments|
      ensures Usable(s, c.segments[i])
    {
      assert InPool(s, c.from, c.segments[i]);
    }
  }

  lemma TakingSound(s: Store, c: Call)
    requires Sound(s) && Enabled(s, c) && (c.Get? || c.Duplicate? || c.Convert?)
    ensures Sound(After(s, c))
  {
    match c
    case Get(_, w, ids) => NewListSound(s, ids, [Element(w, None)]);
    case Duplicate(_, source, ids) =>
      ListIsLive(s, source);
      ContentsUsable(s, s.chains.lists[source]);
      NewListSound(s, ids, Contents(s, s.chains.lists[source]));
    case Convert(_, _, segments, ids) =>
      SegmentsUsable(s, c);
      NewListSound(s, ids, segments);
  }

  lemma ChainSound(s: Store, list1: Id, list2: Id)
    requires Sound(s) && IsHead(s, list1) && IsHead(s, list2) && list1 != list2
    ensures Sound(Appended(s, list1, list2))
  {
    ChainedValid(s.chains, list1, list2);
    SameBooks(s, Appended(s, list1, list2));
  }

  lemma UnchainSound(s: Store, h: Id, k: nat)
    requires Sound(s) && IsHead(s, h) && 0 < k < |s.chains.lists[h]|
    ensures Sound(Separated(s, h, k))
  {
    UnchainedValid(s.chains, h, k);
    SameBooks(s, Separated(s, h, k));
  }

  lemma CountSound(s: Store, h: Id, n: nat)
    requires Sound(s) && IsHead(s, h) && 1 <= n <= MAX_REFCOUNT
    ensures Sound(s.(refs := s.refs[h := n]))
  {
    SameBooks(s, s.(refs := s.refs[h := n]));
  }

  lemma WindowSound(s: Store, buf: Id, w: Window)
    requires Booked(s) && buf in s.elements && InBounds(w)
    ensures Booked(s.(elements := s.elements[buf := s.elements[buf].(window := w)]))
  {
    var t := s.(elements := s.elements[buf := s.elements[buf].(window := w)]);
    SameStock(s, t);
    SameAccounts(s, t);
  }

  lemma UserBooked(s: Store, m: Mbuf, n: nat, r: nat)
    requires Booked(s) && m in s.users && m in s.refcount && r + s.users[m] == s.refcount[m] + n
    ensures Booked(UserHolds(s, m, n, r))
  {
    var t := UserHolds(s, m, n, r);
    SameStock(s, t);
    forall id
      ensures KnownMbuf(t, id)
    {
      assert KnownMbuf(s, id);
    }
    forall k
      ensures CountAt(t, k)
    {
      assert CountAt(s, k);
    }
  }

  lemma UserSound(s: Store, m: Mbuf, n: nat, r: nat)
    requires Sound(s) && m in s.users && m in s.refcount && r + s.users[m] == s.refcount[m] + n
    ensures Sound(UserHolds(s, m, n, r))
  {
    UserBooked(s, m, n, r);
  }

  lemma DecreaseSound(s: Store, c: Call)
    requires Sound(s) && Enabled(s, c) && c.Decrease?
    ensures Sound(After(s, c))
  {
    ListIsLive(s, c.buf);
    if s.refs[c.buf] > 1 {
      CountSound(s, c.buf, s.refs[c.buf] - 1);
    } else {
      DroppedSound(s, c.buf);
    }
  }

  lemma UnchainCallSound(s: Store, c: Call)
    requires Sound(s) && Enabled(s, c) && c.Unchain?
    ensures Sound(After(s, c))
  {
    PartIsInner(s, c.list1, c.list2);
    UnchainSound(s, s.chains.at[c.list2].head, s.chains.at[c.list2].index);
  }

  lemma StartedSound(s: Store, started: set<Inventory>)
    requires Sound(s)
    ensures Sound(s.(started := started))
  {
    SameBooks(s, s.(started := started));
  }

  lemma SetDataSound(s: Store, c: Call)
    requires Sound(s) && Enabled(s, c) && c.SetData?
    ensures Sound(After(s, c))
  {
    WindowSound(s, c.buf, s.elements[c.buf].window.(data := c.data, dataLen := c.dataLen));
  }

  lemma ListCallSound(s: Store, c: Call)
    requires Sound(s) && Enabled(s, c) && (c.Increase? || c.Decrease? || c.Chain? || c.Unchain?)
    ensures Sound(After(s, c))
  {
    match c
    case Increase(buf) => CountSound(s, buf, s.refs[buf] + 1);
    case Decrease(_) => DecreaseSound(s, c);
    case Chain(list1, list2) => ChainSound(s, list1, list2);
    case Unchain(_, _) => UnchainCallSound(s, c);
  }

  lemma OtherCallSound(s: Store, c: Call)
    requires Sound(s) && Enabled(s, c)
    requires c.Start? || c.Stop? || c.SetData?
    ensures Sound(After(s, c))
  {
    match c
    case Start(v) => StartedSound(s, s.started + {v});
    case Stop(v) => StartedSound(s, s.started - {v});
    case SetData(_, _, _) => SetDataSound(s, c);
  }

  lemma UserRetainSound(s: Store, c: Call)
    requires Sound(s) && Enabled(s, c) && c.UserRetain?
    ensures Sound(After(s, c))
  {
    UserSound(s, c.mbuf, s.users[c.mbuf] + 1, s.refcount[c.mbuf] + 1);
  }

  lemma UserReleaseSound(s: Store, c: Call)
    requires Sound(s) && Enabled(s, c) && c.UserRelease?
    ensures Sound(After(s, c))
  {
    UserSound(s, c.mbuf, s.users[c.mbuf] - 1, s.refcount[c.mbuf] - 1);
  }

  lemma ClosedSound(s: Store, v: Inventory)
    requires Sound(s) && v in s.free && |s.free[v]| >= |Slots(s.owner, v)|
    ensures Sound(Closed(s, v))
  {
    StockAddsUp(s, v);
    assert Out(s, v) == {};
    var t := Closed(s, v);
    forall id
      ensures StockAt(t, id)
    {
      assert StockAt(s, id) && id !in Out(s, v);
    }
    forall w, id
      ensures ShelfAt(t, w, id)
    {
      assert ShelfAt(s, w, id);
    }
    SameAccounts(s, t);
  }

  /** An mbuf with a live descriptor has a reference that its users do not account for. */
  lemma LiveIsCounted(s: Store, id: Id)
    requires Accounted(s) && id in s.elements && s.elements[id].mbuf.Some?
    ensures var m := s.elements[id].mbuf.value;
            m in s.refcount && m in s.users && m in s.pool && s.pool[m] in s.pools && s.refcount[m] > s.users[m]
  {
    var m := s.elements[id].mbuf.value;
    assert KnownMbuf(s, id) && CountAt(s, m);
    assert id in Holders(s.elements, m);
    assert |Holders(s.elements, m)| > 0;
  }

  lemma MempoolSound(s: Store, p: Pool)
    requires Sound(s) && !PoolInUse(s, p)
    ensures Sound(s.(pools := s.pools - {p}))
  {
    var t := s.(pools := s.pools - {p});
    SameStock(s, t);
    forall id
      ensures KnownMbuf(t, id)
    {
      assert KnownMbuf(s, id);
      if id in s.elements && s.elements[id].mbuf.Some? {
        LiveIsCounted(s, id);
      }
    }
    forall m
      ensures CountAt(t, m)
    {
      assert CountAt(s, m);
    }
  }

  lemma DestroySound(s: Store, c: Call)
    requires Sound(s) && Enabled(s, c) && (c.DestroyInventory? || c.DestroyMempool?)
    ensures Sound(After(s, c))
  {
    match c
    case DestroyInventory(v) => ClosedSound(s, v);
    case DestroyMempool(p) => MempoolSound(s, p);
  }

  /** Every call keeps the store sound. */
  lemma StepSound(s: Store, c: Call)
    requires Sound(s)
    ensures Sound(Step(s, c))
  {
    if Enabled(s, c) {
      if c.Get? || c.Duplicate? || c.Convert? {
        TakingSound(s, c);
      } else if c.Increase? || c.Decrease? || c.Chain? || c.Unchain? {
        ListCallSound(s, c);
      } else if c.UserRetain? {
        UserRetainSound(s, c);
      } else if c.UserRelease? {
        UserReleaseSound(s, c);
      } else if c.DestroyInventory? || c.DestroyMempool? {
        DestroySound(s, c);
      } else {
        OtherCallSound(s, c);
      }
    }
  }

  ghost function Run(s: Store, calls: seq<Call>): (t: Store)
    requires Sound(s)
    ensures Sound(t)
    decreases |calls|
  {
    if |calls| == 0 then s
    else
      var t := Run(s, calls[..|calls| - 1]);
      StepSound(t, calls[|calls| - 1]);
      Step(t, calls[|calls| - 1])
  }

  /** The store when nothing has been taken yet: every descriptor is free in its inventory. */
  ghost function Created(
      inventories: set<Inventory>, owner: map<Id, Inventory>, pools: set<Pool>, pool: map<Mbuf, Pool>,
      users: map<Mbuf, nat>): Store
  {
    Store(Chains(map[], map[]), map[], map[], owner,
          map v | v in inventories :: set id | id in owner && owner[id] == v,
          {}, pools, pool, users, users)
  }

  lemma CreatedSound(
      inventories: set<Inventory>, owner: map<Id, Inventory>, pools: set<Pool>, pool: map<Mbuf, Pool>,
      users: map<Mbuf, nat>)
    requires forall id :: id in owner ==> owner[id] in inventories
    requires pool.Keys == users.Keys
    ensures Sound(Created(inventories, owner, pools, pool, users))
  {
    var s := Created(inventories, owner, pools, pool, users);
    forall m
      ensures CountAt(s, m)
    {
      assert Holders(s.elements, m) == {};
    }
  }

  /* Lists and reference counts. */

  /** In every reachable store the lists are disjoint and without repetition and hold exactly the
      live descriptors; a descriptor that is not the head of its list has no reference count of its
      own; the counts of heads are in 1..65535; and data lies inside its region. */
  lemma RunShape(s: Store, calls: seq<Call>)
    requires Sound(s)
    ensures var t := Run(s, calls);
            && (forall g, h, i: nat, j: nat ::
                  (g in t.chains.lists && h in t.chains.lists
                   && i < |t.chains.lists[g]| && j < |t.chains.lists[h]|
                   && t.chains.lists[g][i] == t.chains.lists[h][j]) ==> g == h && i == j)
            && (forall id :: id in t.elements ==>
                  var w := t.elements[id].window;
                  && id in t.chains.at && Seated(t.chains, id)
                  && w.head <= w.data && w.data + w.dataLen <= w.head + w.len
                  && (id in t.refs <==> t.chains.at[id].index == 0)
                  && (id in t.refs ==> 1 <= t.refs[id] <= 65535))
  {
    var t := Run(s, calls);
    forall g, h, i: nat, j: nat | g in t.chains.lists && h in t.chains.lists
        && i < |t.chains.lists[g]| && j < |t.chains.lists[h]| && t.chains.lists[g][i] == t.chains.lists[h][j]
      ensures g == h && i == j
    {
      OnePlace(t.chains, g, i, h, j);
    }
    forall id | id in t.elements
      ensures id in t.refs <==> t.chains.at[id].index == 0
    {
      HeadIsFirst(t.chains, id);
    }
  }

  /* Conservation. */

  ghost function Out(s: Store, v: Inventory): set<Id>
  {
    set id | id in s.elements && id in s.owner && s.owner[id] == v
  }

  /** No inventory was added, and those that are left have the descriptors they had. */
  ghost predicate OwnersKept(s: Store, t: Store)
  {
    forall v :: v in t.free ==> v in s.free && Slots(t.owner, v) == Slots(s.owner, v)
  }

  lemma TakingKeepsOwners(s: Store, c: Call)
    requires Sound(s) && Enabled(s, c) && (c.Get? || c.Duplicate? || c.Convert?)
    ensures After(s, c).owner == s.owner && After(s, c).free.Keys == s.free.Keys
  {
  }

  lemma DecreaseKeepsOwners(s: Store, c: Call)
    requires Sound(s) && Enabled(s, c) && c.Decrease?
    ensures After(s, c).owner == s.owner && After(s, c).free.Keys == s.free.Keys
  {
    ListIsLive(s, c.buf);
  }

  lemma ClosedKeepsOwners(s: Store, v: Inventory, w: Inventory)
    requires w != v
    ensures Slots(Closed(s, v).owner, w) == Slots(s.owner, w)
  {
  }

  lemma StepKeepsOwners(s: Store, c: Call)
    requires Sound(s)
    ensures OwnersKept(s, Step(s, c))
    ensures forall v :: v in s.free && c != DestroyInventory(v) ==> v in Step(s, c).free
  {
    if Enabled(s, c) {
      if c.Get? || c.Duplicate? || c.Convert? {
        TakingKeepsOwners(s, c);
      } else if c.Decrease? {
        DecreaseKeepsOwners(s, c);
      } else if c.DestroyInventory? {
        forall v | v != c.inventory
          ensures Slots(Closed(s, c.inventory).owner, v) == Slots(s.owner, v)
        {
          ClosedKeepsOwners(s, c.inventory, v);
        }
      }
    }
  }

  lemma {:induction false} RunKeepsOwners(s: Store, calls: seq<Call>)
    requires Sound(s)
    ensures OwnersKept(s, Run(s, calls))
    ensures forall v :: v in s.free && DestroyInventory(v) !in calls ==> v in Run(s, calls).free
    decreases |calls|
  {
    if |calls| > 0 {
      var n := |calls| - 1;
      assert calls == calls[..n] + [calls[n]];
      RunKeepsOwners(s, calls[..n]);
      StepKeepsOwners(Run(s, calls[..n]), calls[n]);
    }
  }

  /** Free and live descriptors of an inventory add up to what it was created with, whatever lists
      mix inventories, for as long as it is not destroyed. */
  lemma Conservation(s: Store, calls: seq<Call>, v: Inventory)
    requires Sound(s) && v in s.free
    ensures var t := Run(s, calls);
            && (DestroyInventory(v) !in calls ==> v in t.free)
            && (v in t.free ==> |t.free[v]| + |Out(t, v)| == |Slots(s.owner, v)|)
  {
    RunKeepsOwners(s, calls);
    if v in Run(s, calls).free {
      StockAddsUp(Run(s, calls), v);
    }
  }

  /** However inventories and memory pools are destroyed, every live descriptor belongs to an
      inventory that exists and refers to an mbuf of a memory pool that exists; and an inventory that
      is gone has no descriptors ever after. */
  lemma LiveIsBacked(s: Store, calls: seq<Call>, id: Id)
    requires Sound(s) && id in Run(s, calls).elements
    ensures var t := Run(s, calls);
            && id in t.owner && t.owner[id] in t.free && t.owner[id] in s.free
            && (t.elements[id].mbuf.Some? ==>
                  t.elements[id].mbuf.value in t.pool && t.pool[t.elements[id].mbuf.value] in t.pools)
  {
    var t := Run(s, calls);
    RunKeepsOwners(s, calls);
    assert StockAt(t, id) && KnownMbuf(t, id);
  }

  lemma StockAddsUp(s: Store, v: Inventory)
    requires Stocked(s) && v in s.free
    ensures |s.free[v]| + |Out(s, v)| == |Slots(s.owner, v)|
  {
    forall id
      ensures id in s.free[v] + Out(s, v) <==> id in Slots(s.owner, v)
      ensures !(id in s.free[v] && id in Out(s, v))
    {
      assert StockAt(s, id) && ShelfAt(s, v, id);
    }
    assert s.free[v] + Out(s, v) == Slots(s.owner, v);
  }

  /** Destroying an inventory, which goes by the number of free elements, is refused exactly when some
      descriptor of it is in a live list. */
  lemma DestroyReportsUse(s: Store, v: Inventory)
    requires Sound(s) && v in s.free
    ensures Answer(s, DestroyInventory(v)) == Refused(InUse) <==> exists id :: id in s.elements && id in s.owner && s.owner[id] == v
  {
    StockAddsUp(s, v);
    if id :| id in s.elements && id in s.owner && s.owner[id] == v {
      assert id in Out(s, v);
    } else {
      assert Out(s, v) == {};
    }
  }

  lemma DroppedShelves(s: Store, h: Id)
    requires Sound(s) && h in s.chains.lists && AllReturnable(s, s.chains.lists[h])
    ensures var t := Dropped(s, h);
            && (forall id :: id in s.chains.lists[h] ==> s.owner[id] in t.free && id in t.free[s.owner[id]])
            && (forall v, id :: v in s.free && id !in s.chains.lists[h] ==>
                  v in t.free && (id in t.free[v] <==> id in s.free[v]))
  {
    var t := Dropped(s, h);
    DroppedSound(s, h);
    ReturnAllElements(s, s.chains.lists[h]);
    forall id | id in s.chains.lists[h]
      ensures s.owner[id] in t.free && id in t.free[s.owner[id]]
    {
      assert StockAt(t, id) && StockAt(s, id);
    }
    forall v, id | v in s.free && id !in s.chains.lists[h]
      ensures v in t.free && (id in t.free[v] <==> id in s.free[v])
    {
      assert StockAt(s, id) && StockAt(t, id) && ShelfAt(s, v, id) && ShelfAt(t, v, id);
    }
  }

  /** Dropping the last reference returns every descriptor of the list, once, to its own inventory,
      and touches nothing else. */
  lemma LastReferenceReturnsAll(s: Store, buf: Id)
    requires Sound(s) && Enabled(s, Decrease(buf)) && s.refs[buf] == 1
    ensures var t := After(s, Decrease(buf));
            && (forall id :: id in s.chains.lists[buf] ==>
                  id !in t.elements && id in s.owner && s.owner[id] in t.free && id in t.free[s.owner[id]])
            && (forall v, id :: v in s.free && id !in s.chains.lists[buf] ==>
                  v in t.free && (id in t.free[v] <==> id in s.free[v]))
            && (forall id :: id in s.elements && id !in s.chains.lists[buf] ==>
                  id in t.elements && t.elements[id] == s.elements[id])
  {
    ListIsLive(s, buf);
    ReturnAllElements(s, s.chains.lists[buf]);
    DroppedShelves(s, buf);
  }

  /* Mbufs. */

  /** Destroying a memory pool is refused exactly while some descriptor lives on one of its mbufs. */
  lemma PoolInUseIff(s: Store, p: Pool)
    requires Accounted(s)
    ensures PoolInUse(s, p) <==> SomeoneIn(s, p)
  {
    if PoolInUse(s, p) {
      var m :| m in s.pool && s.pool[m] == p && m in s.refcount && m in s.users && s.refcount[m] > s.users[m];
      assert CountAt(s, m);
      assert Holders(s.elements, m) != {};
      var id :| id in Holders(s.elements, m);
      assert InPool(s, p, s.elements[id]);
    }
    if id :| id in s.elements && InPool(s, p, s.elements[id]) {
      LiveIsCounted(s, id);
    }
  }

  /** The library holds one reference to an mbuf per live descriptor on it. */
  ghost predicate OneReferenceEach(s: Store)
  {
    && (forall m :: m in s.refcount ==> m in s.users && s.refcount[m] == s.users[m] + |Holders(s.elements, m)|)
    && (forall id :: id in s.elements && s.elements[id].mbuf.Some? ==>
          s.elements[id].mbuf.value in s.refcount && s.refcount[s.elements[id].mbuf.value] > 0)
  }

  ghost predicate SomeoneIn(s: Store, p: Pool)
  {
    exists id :: id in s.elements && InPool(s, p, s.elements[id])
  }

  /** After any run, the library holds one reference to an mbuf per live descriptor on it, so an
      mbuf with a live descriptor is never recycled; and destroying the memory pool is refused
      exactly while some descriptor lives on one of its mbufs. */
  lemma MbufAccounting(s: Store, calls: seq<Call>, p: Pool)
    requires Sound(s)
    ensures OneReferenceEach(Run(s, calls))
    ensures Answer(Run(s, calls), DestroyMempool(p)) == Refused(InUse) <==> SomeoneIn(Run(s, calls), p)
  {
    MbufsExact(Run(s, calls), p);
  }

  lemma MbufsExact(s: Store, p: Pool)
    requires Sound(s)
    ensures OneReferenceEach(s)
    ensures Answer(s, DestroyMempool(p)) == Refused(InUse) <==> SomeoneIn(s, p)
  {
    MbufsCounted(s);
    PoolInUseIff(s, p);
  }

  lemma MbufsCounted(s: Store)
    requires Accounted(s)
    ensures OneReferenceEach(s)
  {
    forall id | id in s.elements && s.elements[id].mbuf.Some?
      ensures s.elements[id].mbuf.value in s.refcount && s.refcount[s.elements[id].mbuf.value] > 0
    {
      LiveIsCounted(s, id);
    }
    forall m | m in s.refcount
      ensures m in s.users && s.refcount[m] == s.users[m] + |Holders(s.elements, m)|
    {
      assert CountAt(s, m);
    }
  }

  /* Chaining and unchaining. */

  /** Unchaining what was just chained restores the whole store: contents, order, data windows and
      reference counts.  The chained list is as long as the two together. */
  lemma ChainThenUnchain(s: Store, list1: Id, list2: Id)
    requires Sound(s) && Enabled(s, Chain(list1, list2))
    ensures var t := Appended(s, list1, list2);
            && t == After(s, Chain(list1, list2))
            && Sound(t) && Allowed(t, Unchain(list1, list2)) && Answer(t, Unchain(list1, list2)) == Done
            && After(t, Unchain(list1, list2)) == s
            && |t.chains.lists[list1]| == |s.chains.lists[list1]| + |s.chains.lists[list2]|
  {
    var t := Appended(s, list1, list2);
    ChainSound(s, list1, list2);
    SeparatedAppended(s, list1, list2);
    ListIsLive(s, list1);
    ListIsLive(s, list2);
  }

  lemma SeparatedAppended(s: Store, list1: Id, list2: Id)
    requires Sound(s) && IsHead(s, list1) && IsHead(s, list2) && list1 != list2 && s.refs[list2] == 1
    ensures var t := Appended(s, list1, list2);
            var k := |s.chains.lists[list1]|;
            && 0 < k < |t.chains.lists[list1]| && Separated(t, list1, k) == s
            && list1 in t.chains.at && t.chains.at[list1] == Position(list1, 0)
            && list2 in t.chains.at && t.chains.at[list2] == Position(list1, k)
  {
    var t := Appended(s, list1, list2);
    var k := |s.chains.lists[list1]|;
    UnchainUndoesChain(s.chains, list1, list2);
    assert Separated(t, list1, k).refs == s.refs;
    ChainedValid(s.chains, list1, list2);
    assert Sits(t.chains, list1, 0) && Sits(t.chains, list1, k);
  }

  /** Chaining back what was just unchained restores the whole store. */
  lemma UnchainThenChain(s: Store, list1: Id, list2: Id)
    requires Sound(s) && Enabled(s, Unchain(list1, list2))
    ensures var t := After(s, Unchain(list1, list2));
            var h := s.chains.at[list1].head;
            && Sound(t) && Allowed(t, Chain(h, list2)) && Answer(t, Chain(h, list2)) == Done
            && After(t, Chain(h, list2)) == s
  {
    PartIsInner(s, list1, list2);
    UnchainCallSound(s, Unchain(list1, list2));
    AppendedSeparated(s, s.chains.at[list2].head, s.chains.at[list2].index);
  }

  lemma AppendedSeparated(s: Store, h: Id, k: nat)
    requires Sound(s) && IsHead(s, h) && 0 < k < |s.chains.lists[h]|
    ensures var t := Separated(s, h, k);
            var list2 := s.chains.lists[h][k];
            h in t.chains.lists && list2 in t.chains.lists && h != list2 && t.refs[list2] == 1
            && Appended(t, h, list2) == s
  {
    InnerIsNoHead(s.chains, h, k);
    ChainUndoesUnchain(s.chains, h, k);
    assert Appended(Separated(s, h, k), h, s.chains.lists[h][k]).refs == s.refs;
  }

  /* Independence of lists. */

  /** The call changes, or drops, the list headed by `h`. */
  predicate Touches(s: Store, c: Call, h: Id)
  {
    match c
    case Increase(buf) => buf == h
    case Decrease(buf) => buf == h
    case SetData(buf, _, _) => buf in s.chains.at && s.chains.at[buf].head == h
    case Chain(list1, list2) => list1 == h || list2 == h
    case Unchain(_, list2) => list2 in s.chains.at && s.chains.at[list2].head == h
    case _ => false
  }

  /** The list headed by `h` has the same descriptors, count and contents in both stores. */
  ghost predicate SameList(s: Store, t: Store, h: Id)
  {
    && h in s.chains.lists && h in t.chains.lists && t.chains.lists[h] == s.chains.lists[h]
    && h in s.refs && h in t.refs && t.refs[h] == s.refs[h]
    && (forall i :: 0 <= i < |s.chains.lists[h]| ==>
          s.chains.lists[h][i] in s.elements && s.chains.lists[h][i] in t.elements &&
          t.elements[s.chains.lists[h][i]] == s.elements[s.chains.lists[h][i]])
  }

  lemma NewListFrame(s: Store, ids: seq<Id>, es: seq<Element>, h: Id)
    requires Sound(s) && h in s.chains.lists && |ids| == |es| > 0 && AllAvailable(s, ids)
    ensures SameList(s, NewList(s, ids, es), h)
  {
    AvailableIsFresh(s, ids);
    AddedValid(s.chains, ids);
    TakeAllElements(s, ids, es);
    ListIsLive(s, h);
  }

  lemma DroppedFrame(s: Store, g: Id, h: Id)
    requires Sound(s) && g in s.chains.lists && h in s.chains.lists && g != h
    requires AllReturnable(s, s.chains.lists[g])
    ensures SameList(s, Dropped(s, g), h)
  {
    ReturnAllElements(s, s.chains.lists[g]);
    ListIsLive(s, h);
    forall i: nat | i < |s.chains.lists[h]|
      ensures s.chains.lists[h][i] !in s.chains.lists[g]
    {
      assert Sits(s.chains, h, i);
      InList(s.chains, g, s.chains.lists[h][i]);
    }
  }

  lemma UnchainFrame(s: Store, list1: Id, list2: Id, h: Id)
    requires Sound(s) && h in s.chains.lists && Enabled(s, Unchain(list1, list2)) && s.chains.at[list2].head != h
    ensures SameList(s, After(s, Unchain(list1, list2)), h)
  {
    PartIsInner(s, list1, list2);
    InnerIsNoHead(s.chains, s.chains.at[list2].head, s.chains.at[list2].index);
    ListIsLive(s, h);
  }

  lemma SetDataFrame(s: Store, c: Call, h: Id)
    requires Sound(s) && h in s.chains.lists && Enabled(s, c) && c.SetData? && !Touches(s, c, h)
    ensures SameList(s, After(s, c), h)
  {
    ListIsLive(s, h);
    forall i: nat | i < |s.chains.lists[h]|
      ensures s.chains.lists[h][i] != c.buf
    {
      assert Sits(s.chains, h, i);
    }
  }

  lemma TakingFrame(s: Store, c: Call, h: Id)
    requires Sound(s) && h in s.chains.lists && Enabled(s, c) && (c.Get? || c.Duplicate? || c.Convert?)
    ensures SameList(s, After(s, c), h)
  {
    match c
    case Get(_, w, ids) => NewListFrame(s, ids, [Element(w, None)], h);
    case Duplicate(_, source, ids) =>
      ListIsLive(s, source);
      NewListFrame(s, ids, Contents(s, s.chains.lists[source]), h);
    case Convert(_, _, segments, ids) => NewListFrame(s, ids, segments, h);
  }

  lemma DecreaseFrame(s: Store, c: Call, h: Id)
    requires Sound(s) && h in s.chains.lists && Enabled(s, c) && c.Decrease? && c.buf != h
    ensures SameList(s, After(s, c), h)
  {
    ListIsLive(s, h);
    ListIsLive(s, c.buf);
    if s.refs[c.buf] == 1 {
      DroppedFrame(s, c.buf, h);
    }
  }

  lemma SameEverywhere(s: Store, t: Store, h: Id)
    requires Shaped(s) && h in s.chains.lists && t.chains == s.chains && t.elements == s.elements
    requires h in t.refs && t.refs[h] == s.refs[h]
    ensures SameList(s, t, h)
  {
    ListIsLive(s, h);
  }

  lemma OtherFrame(s: Store, c: Call, h: Id)
    requires Sound(s) && h in s.chains.lists && Enabled(s, c) && !Touches(s, c, h)
    requires c.Start? || c.Stop? || c.Increase? || c.UserRetain? || c.UserRelease? || c.DestroyInventory? || c.DestroyMempool?
    ensures SameList(s, After(s, c), h)
  {
    SameEverywhere(s, After(s, c), h);
  }

  lemma ChainFrame(s: Store, list1: Id, list2: Id, h: Id)
    requires Sound(s) && h in s.chains.lists && h != list1 && h != list2
    requires list1 in s.chains.lists && list2 in s.chains.lists
    ensures SameList(s, Appended(s, list1, list2), h)
  {
    ListIsLive(s, h);
  }

  lemma StepFrame(s: Store, c: Call, h: Id)
    requires Sound(s) && h in s.chains.lists && !Touches(s, c, h)
    ensures SameList(s, Step(s, c), h)
  {
    if !Enabled(s, c) {
      ListIsLive(s, h);
    } else {
      if c.Get? || c.Duplicate? || c.Convert? {
        TakingFrame(s, c, h);
      } else if c.Decrease? {
        DecreaseFrame(s, c, h);
      } else if c.Unchain? {
        UnchainFrame(s, c.list1, c.list2, h);
      } else if c.SetData? {
        SetDataFrame(s, c, h);
      } else if c.Chain? {
        ChainFrame(s, c.list1, c.list2, h);
      } else {
        OtherFrame(s, c, h);
      }
    }
  }

  ghost predicate TouchedAt(s: Store, calls: seq<Call>, i: nat, h: Id)
    requires Sound(s) && i < |calls|
  {
    Touches(Run(s, calls[..i]), calls[i], h)
  }

  ghost predicate Untouched(s: Store, calls: seq<Call>, h: Id)
    requires Sound(s)
  {
    forall i: nat :: i < |calls| ==> !TouchedAt(s, calls, i, h)
  }

  lemma TouchedEarlier(s: Store, calls: seq<Call>, i: nat, h: Id)
    requires Sound(s) && i < |calls| - 1
    ensures TouchedAt(s, calls[..|calls| - 1], i, h) == TouchedAt(s, calls, i, h)
  {
    assert calls[..|calls| - 1][..i] == calls[..i];
  }

  lemma UntouchedPrefix(s: Store, calls: seq<Call>, h: Id)
    requires Sound(s) && |calls| > 0 && Untouched(s, calls, h)
    ensures Untouched(s, calls[..|calls| - 1], h)
  {
    var front := calls[..|calls| - 1];
    forall i: nat | i < |front|
      ensures !TouchedAt(s, front, i, h)
    {
      TouchedEarlier(s, calls, i, h);
    }
  }

  /** A run of calls none of which is about a list leaves it as it was. */
  lemma {:induction false} RunFrame(s: Store, calls: seq<Call>, h: Id)
    requires Sound(s) && h in s.chains.lists && Untouched(s, calls, h)
    ensures SameList(s, Run(s, calls), h)
    decreases |calls|
  {
    if |calls| == 0 {
      ListIsLive(s, h);
    } else {
      var n := |calls| - 1;
      UntouchedPrefix(s, calls, h);
      RunFrame(s, calls[..n], h);
      assert !TouchedAt(s, calls, n, h);
      StepFrame(Run(s, calls[..n]), calls[n], h);
      SameListTransitive(s, Run(s, calls[..n]), Run(s, calls), h);
    }
  }

  /** The list headed by `h` in `t` has the contents of the one headed by `g` in `s`. */
  ghost predicate Copies(s: Store, g: Id, t: Store, h: Id)
  {
    && g in s.chains.lists && h in t.chains.lists && |t.chains.lists[h]| == |s.chains.lists[g]|
    && forall i :: 0 <= i < |s.chains.lists[g]| ==>
         s.chains.lists[g][i] in s.elements && t.chains.lists[h][i] in t.elements &&
         t.elements[t.chains.lists[h][i]] == s.elements[s.chains.lists[g][i]]
  }

  /** A duplicate is a new list of descriptors that were free, with the contents of the source and
      one reference; the source stays as it is. */
  lemma DuplicateCopies(s: Store, v: Inventory, source: Id, ids: seq<Id>)
    requires Sound(s) && Enabled(s, Duplicate(v, source, ids))
    ensures |ids| > 0
    ensures var t := After(s, Duplicate(v, source, ids));
            && ids[0] !in s.chains.lists && (forall id :: id in ids ==> id !in s.elements)
            && Copies(s, source, t, ids[0]) && t.chains.lists[ids[0]] == ids && t.refs[ids[0]] == 1
            && SameList(s, t, source)
  {
    ListIsLive(s, source);
    var es := Contents(s, s.chains.lists[source]);
    NewListFrame(s, ids, es, source);
    AvailableIsFresh(s, ids);
    NewHeadIsNew(s, ids);
    NewListHolds(s, ids, es);
  }

  lemma NewHeadIsNew(s: Store, ids: seq<Id>)
    requires Shaped(s) && |ids| > 0 && Fresh(s.chains, ids)
    ensures ids[0] !in s.chains.lists
  {
    forall h | h in s.chains.lists
      ensures h in s.chains.at
    {
      assert Sits(s.chains, h, 0);
    }
  }

  lemma NewListHolds(s: Store, ids: seq<Id>, es: seq<Element>)
    requires Shaped(s) && Stocked(s) && |ids| == |es| > 0 && AllAvailable(s, ids)
    ensures var t := NewList(s, ids, es);
            && ids[0] in t.chains.lists && t.chains.lists[ids[0]] == ids && ids[0] in t.refs && t.refs[ids[0]] == 1
            && forall i :: 0 <= i < |ids| ==> ids[i] in t.elements && t.elements[ids[i]] == es[i]
  {
    AvailableIsFresh(s, ids);
    AddedValid(s.chains, ids);
    TakeAllElements(s, ids, es);
  }

  /** From then on each of the two is unaffected by any run of calls that are not about it. */
  lemma DuplicateIsIndependent(s: Store, v: Inventory, source: Id, ids: seq<Id>, calls: seq<Call>)
    requires Sound(s) && Enabled(s, Duplicate(v, source, ids))
    ensures Sound(After(s, Duplicate(v, source, ids))) && |ids| > 0
    ensures var t := After(s, Duplicate(v, source, ids));
            && (Untouched(t, calls, source) ==> SameList(s, Run(t, calls), source))
            && (Untouched(t, calls, ids[0]) ==> Copies(s, source, Run(t, calls), ids[0]))
  {
    TakingSound(s, Duplicate(v, source, ids));
    DuplicateCopies(s, v, source, ids);
    var t := After(s, Duplicate(v, source, ids));
    if Untouched(t, calls, source) {
      RunFrame(t, calls, source);
      SameListTransitive(s, t, Run(t, calls), source);
    }
    if Untouched(t, calls, ids[0]) {
      RunFrame(t, calls, ids[0]);
      CopiesKept(s, source, t, Run(t, calls), ids[0]);
    }
  }

  lemma SameListTransitive(s: Store, t: Store, u: Store, h: Id)
    requires SameList(s, t, h) && SameList(t, u, h)
    ensures SameList(s, u, h)
  {
  }

  lemma CopiesKept(s: Store, g: Id, t: Store, u: Store, h: Id)
    requires Copies(s, g, t, h) && SameList(t, u, h)
    ensures Copies(s, g, u, h)
  {
  }
}

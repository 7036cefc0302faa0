/** The buffer library over descriptors linked by next pointers and updated in place. */
module BufferHeap {
  import opened Collections
  import opened DocaResult
  import opened BufferChains
  import opened BufferStore
  import opened BufferCalls
  import opened BufferGuarantees
  import opened BufferReferences
  import opened BufferEffects

  /** `inner` marks a descriptor that is the next one of some other. */
  datatype Node = Node(window: Window, mbuf: Option<Mbuf>, count: nat, next: Option<Id>, inner: bool)

  /** The successor of a descriptor in its list. */
  function Next(c: Chains, id: Id): Option<Id>
    requires id in c.at && Seated(c, id)
  {
    var p := c.at[id];
    if p.index + 1 < |c.lists[p.head]| then Some(c.lists[p.head][p.index + 1]) else None
  }

  /** The descriptor in memory agrees with the store. */
  ghost predicate NodeAt(s: Store, nodes: map<Id, Node>, id: Id)
  {
    id in s.owner ==>
      && id in nodes
      && (id in s.elements ==>
            && id in s.chains.at && Seated(s.chains, id)
            && nodes[id].window == s.elements[id].window && nodes[id].mbuf == s.elements[id].mbuf
            && nodes[id].next == Next(s.chains, id)
            && nodes[id].inner == (s.chains.at[id].index > 0)
            && nodes[id].count == (if id in s.refs then s.refs[id] else 1))
      && (id !in s.elements ==> nodes[id].count == 0)
  }

  ghost predicate AllNodes(s: Store, nodes: map<Id, Node>)
  {
    forall id :: NodeAt(s, nodes, id)
  }

  /** The free list of an inventory holds its free descriptors, each once. */
  ghost predicate ShelfIs(s: Store, free: map<Inventory, seq<Id>>, v: Inventory)
  {
    && (v in s.free <==> v in free)
    && (v in free ==> Distinct(free[v]) && forall id :: id in free[v] <==> id in s.free[v])
  }

  ghost predicate AllShelves(s: Store, free: map<Inventory, seq<Id>>)
  {
    forall v :: ShelfIs(s, free, v)
  }

  /** The number of elements of an inventory, as it was created. */
  ghost predicate SizeIs(owner: map<Id, Inventory>, sizes: map<Inventory, nat>, v: Inventory)
  {
    v in sizes ==> sizes[v] == |Slots(owner, v)|
  }

  ghost predicate AllSizes(owner: map<Id, Inventory>, sizes: map<Inventory, nat>)
  {
    forall v :: SizeIs(owner, sizes, v)
  }

  class Heap {
    var nodes: map<Id, Node>
    var owner: map<Id, Inventory>
    var free: map<Inventory, seq<Id>>
    var sizes: map<Inventory, nat>
    var started: set<Inventory>
    var pools: set<Pool>
    var pool: map<Mbuf, Pool>
    var users: map<Mbuf, nat>
    var refcount: map<Mbuf, nat>
    ghost var store: Store

    ghost predicate Nodes()
      reads this
    {
      AllNodes(store, nodes)
    }

    ghost predicate Shelves()
      reads this
    {
      AllShelves(store, free)
    }

    ghost predicate Agrees(s: Store)
      reads this
    {
      && owner == s.owner && started == s.started && pools == s.pools && pool == s.pool
      && users == s.users && refcount == s.refcount
      && sizes.Keys == s.free.Keys && AllSizes(owner, sizes)
    }

    ghost predicate Rest()
      reads this
    {
      Agrees(store)
    }

    ghost predicate Valid()
      reads this
    {
      Sound(store) && Nodes() && Shelves() && Rest()
    }

    /** The inventories as created, with all their descriptors on the free lists. */
    constructor (
        free: map<Inventory, seq<Id>>, owner: map<Id, Inventory>, pools: set<Pool>, pool: map<Mbuf, Pool>, users: map<Mbuf, nat>)
      requires forall id :: id in owner ==> owner[id] in free
      requires forall v :: v in free ==> Distinct(free[v])
      requires forall v, id :: v in free ==> (id in free[v] <==> id in owner && owner[id] == v)
      requires pool.Keys == users.Keys
      ensures Valid() && store == Created(free.Keys, owner, pools, pool, users) && this.free == free
      ensures store.elements == map[] && store.chains.lists == map[] && store.refs == map[] && store.started == {}
      ensures store.refcount == users && forall v :: v in free ==> v in store.free && store.free[v] == Members(free[v])
    {
      nodes := map id | id in owner :: Node(Window(0, 0, 0, 0), None, 0, None, false);
      this.owner, this.free, started, this.pools, this.pool := owner, free, {}, pools, pool;
      this.users, refcount := users, users;
      sizes := map v | v in free :: |free[v]|;
      store := Created(free.Keys, owner, pools, pool, users);
      CreatedSound(free.Keys, owner, pools, pool, users);
      new;
      forall v
        ensures SizeIs(owner, sizes, v)
      {
        if v in free {
          DistinctLength(free[v], Slots(owner, v));
        }
      }
      assert forall v :: ShelfIs(store, this.free, v);
      forall v | v in free
        ensures v in store.free && store.free[v] == Members(free[v])
      {
        assert ShelfIs(store, this.free, v);
      }
    }

    /* Queries. */

    method IsFirstInList(buf: Id) returns (first: bool)
      requires Valid() && IsLive(store, buf)
      ensures first <==> IsHead(store, buf)
    {
      LiveNode(buf);
      first := !nodes[buf].inner;
    }

    method IsLastInList(buf: Id) returns (last: bool)
      requires Valid() && IsLive(store, buf)
      ensures var p := store.chains.at[buf]; last <==> p.index + 1 == |store.chains.lists[p.head]|
    {
      LiveNode(buf);
      last := nodes[buf].next.None?;
    }

    method IsInList(buf: Id) returns (inList: bool)
      requires Valid() && IsLive(store, buf)
      ensures inList <==> |store.chains.lists[store.chains.at[buf].head]| > 1
    {
      LiveNode(buf);
      inList := nodes[buf].inner || nodes[buf].next.Some?;
    }

    /** Follows one next pointer. */
    lemma Follow(buf: Id)
      requires Valid() && IsLive(store, buf)
      ensures buf in nodes && buf in store.chains.at && Seated(store.chains, buf)
      ensures var p := store.chains.at[buf];
              && nodes[buf].next == Next(store.chains, buf)
              && (nodes[buf].next.Some? ==>
                    IsLive(store, nodes[buf].next.value) && nodes[buf].next.value in store.chains.at &&
                    store.chains.at[nodes[buf].next.value] == Position(p.head, p.index + 1))
    {
      LiveNode(buf);
      var p := store.chains.at[buf];
      if p.index + 1 < |store.chains.lists[p.head]| {
        assert Sits(store.chains, p.head, p.index + 1);
      }
    }

    method GetLastInList(buf: Id) returns (last: Id)
      requires Valid() && IsLive(store, buf)
      ensures IsLive(store, last) && last in store.chains.at && last in nodes
      ensures var l := store.chains.lists[store.chains.at[buf].head];
              store.chains.at[last] == Position(store.chains.at[buf].head, |l| - 1) && last == l[|l| - 1]
    {
      last := buf;
      Follow(last);
      while nodes[last].next.Some?
        invariant IsLive(store, last) && last in nodes && last in store.chains.at && Seated(store.chains, last)
        invariant store.chains.at[last].head == store.chains.at[buf].head
        invariant nodes[last].next == Next(store.chains, last)
        decreases |store.chains.lists[store.chains.at[buf].head]| - store.chains.at[last].index
      {
        Follow(last);
        last := nodes[last].next.value;
        Follow(last);
      }
    }

    method GetListLength(buf: Id) returns (status: Status, length: nat)
      requires Valid() && IsLive(store, buf)
      ensures status == (if IsHead(store, buf) then Done else Refused(NotPermitted))
      ensures status == Done ==> length == |store.chains.lists[buf]|
    {
      LiveNode(buf);
      if nodes[buf].inner {
        return Refused(NotPermitted), 0;
      }
      assert Sits(store.chains, buf, 0);
      var at := buf;
      length := 1;
      Follow(at);
      while nodes[at].next.Some?
        invariant IsLive(store, at) && at in nodes && at in store.chains.at && Seated(store.chains, at)
        invariant store.chains.at[at] == Position(buf, length - 1) && length > 0
        invariant nodes[at].next == Next(store.chains, at)
        decreases |store.chains.lists[buf]| - length
      {
        Follow(at);
        at, length := nodes[at].next.value, length + 1;
        Follow(at);
      }
      status := Done;
    }

    method GetNumFreeElements(v: Inventory) returns (n: nat)
      requires Valid() && v in store.free
      ensures n == |store.free[v]| && n + |Out(store, v)| == |Slots(store.owner, v)|
    {
      ShelfCount(store, free, v);
      StockAddsUp(store, v);
      n := |free[v]|;
    }

    /* Reference counts. */

    method IncRefcount(buf: Id) returns (status: Status, previous: nat)
      requires Valid() && Allowed(store, Increase(buf))
      modifies this`nodes, this`store
      ensures Valid() && status == old(Answer(store, Increase(buf)))
      ensures store == old(Step(store, Increase(buf)))
      ensures status == Refused(NotPermitted) <==> buf !in old(store.chains.lists)
      ensures buf in old(store.chains.lists) ==> buf in old(store.refs) && previous == old(store.refs)[buf]
      ensures buf in old(store.chains.lists) ==> status == if previous == 65535 then Refused(TooBig) else Done
      ensures store == if status == Done then old(store).(refs := old(store.refs)[buf := previous + 1]) else old(store)
    {
      LiveNode(buf);
      previous := nodes[buf].count;
      if nodes[buf].inner {
        return Refused(NotPermitted), previous;
      }
      HeadNode(buf);
      if previous >= MAX_REFCOUNT {
        return Refused(TooBig), previous;
      }
      Recount(buf, previous + 1);
      status := Done;
    }

    method Recount(buf: Id, n: nat)
      requires Valid() && IsHead(store, buf) && 1 <= n <= MAX_REFCOUNT
      modifies this`nodes, this`store
      ensures Valid() && store == old(store.(refs := store.refs[buf := n]))
    {
      HeadNode(buf);
      CountSound(store, buf, n);
      ghost var t, before := store.(refs := store.refs[buf := n]), nodes;
      nodes := nodes[buf := nodes[buf].(count := n)];
      forall id
        ensures NodeAt(t, nodes, id)
      {
        assert NodeAt(store, before, id);
      }
      SameShelves(store, t, free);
      store := t;
    }

    /** Drops a reference; with the last one, walks the list and returns every descriptor to its
        inventory and its reference on the mbuf. */
    method DecRefcount(buf: Id) returns (status: Status, previous: nat)
      requires Valid() && Allowed(store, Decrease(buf))
      modifies this`nodes, this`free, this`refcount, this`store
      ensures Valid() && status == old(Answer(store, Decrease(buf)))
      ensures store == old(Step(store, Decrease(buf)))
      ensures status == if buf !in old(store.elements) then Refused(BadState)
                        else if buf !in old(store.chains.lists) then Refused(NotPermitted) else Done
      ensures status == Done ==> buf in old(store.refs) && previous == old(store.refs)[buf]
      ensures status == Done && previous > 1 ==> store == old(store).(refs := old(store.refs)[buf := previous - 1])
      ensures status == Done && previous == 1 ==> Gone(old(store), store, buf)
      ensures status != Done ==> store == old(store)
    {
      KnownNode(buf);
      previous := nodes[buf].count;
      if previous == 0 {
        return Refused(BadState), previous;
      }
      LiveNode(buf);
      if nodes[buf].inner {
        return Refused(NotPermitted), previous;
      }
      HeadNode(buf);
      if previous > 1 {
        Recount(buf, previous - 1);
      } else {
        ListIsLive(store, buf);
        DroppedGone(store, buf);
        ReleaseList(buf);
      }
      status := Done;
    }

    lemma KnownNode(buf: Id)
      requires Valid() && buf in store.owner
      ensures buf in nodes && (nodes[buf].count == 0 <==> !IsLive(store, buf))
    {
      assert NodeAt(store, nodes, buf);
      if IsLive(store, buf) {
        LiveNode(buf);
      }
    }

    /** Returns one descriptor; the list it is in is being taken apart. */
    method Release(id: Id, ghost s: Store)
      requires id in nodes && id in owner
      requires Returnable(s, id) && s.owner == owner && s.refcount == refcount
      requires nodes[id].mbuf == s.elements[id].mbuf && Stocked(s)
      requires AllShelves(s, free)
      modifies this`nodes, this`free, this`refcount
      ensures nodes == old(nodes)[id := old(nodes)[id].(count := 0, next := None, inner := false)]
      ensures refcount == Return(s, id).refcount
      ensures AllShelves(Return(s, id), free)
    {
      var v := owner[id];
      assert StockAt(s, id) && ShelfIs(s, free, v);
      ReturnShelves(s, free, id);
      free := free[v := free[v] + [id]];
      var m := nodes[id].mbuf;
      if m.Some? && m.value in refcount && refcount[m.value] > 0 {
        refcount := refcount[m.value := refcount[m.value] - 1];
      }
      nodes := nodes[id := nodes[id].(count := 0, next := None, inner := false)];
    }

    /** The first n descriptors of a list are released. */
    ghost predicate Releasing(before: map<Id, Node>, ids: seq<Id>, n: nat)
      requires n <= |ids|
      reads this
    {
      && AllReturnable(store, ids[..n]) && Stocked(ReturnAll(store, ids[..n]))
      && AllShelves(ReturnAll(store, ids[..n]), free) && refcount == ReturnAll(store, ids[..n]).refcount
      && AllReleased(before, nodes, ids[..n])
    }

    /** Releases the next one; the one after it is found through the link. */
    method ReleaseNext(id: Id, ghost ids: seq<Id>, ghost n: nat, ghost before: map<Id, Node>) returns (next: Option<Id>)
      requires n < |ids| && id == ids[n] && AllReturnable(store, ids) && AllListed(store, before, ids)
      requires owner == store.owner && Releasing(before, ids, n)
      modifies this`nodes, this`free, this`refcount
      ensures next == if n + 1 < |ids| then Some(ids[n + 1]) else None
      ensures Releasing(before, ids, n + 1)
    {
      ghost var s := ReturnAll(store, ids[..n]);
      ReleaseReady(store, s, before, nodes, ids, n);
      next := nodes[id].next;
      ghost var middle := nodes;
      Release(id, s);
      ReleaseStep(store, s, ids, n);
      AllReleasedStep(before, middle, nodes, ids, n);
    }

    /** Walks the list and releases its descriptors one by one. */
    method ReleaseWalk(buf: Id, ghost ids: seq<Id>)
      requires Stocked(store) && AllShelves(store, free) && refcount == store.refcount && owner == store.owner
      requires |ids| > 0 && ids[0] == buf && AllReturnable(store, ids) && AllListed(store, nodes, ids)
      modifies this`nodes, this`free, this`refcount
      ensures AllShelves(ReturnAll(store, ids), free) && refcount == ReturnAll(store, ids).refcount
      ensures AllReleased(old(nodes), nodes, ids)
    {
      ghost var n := 0;
      var at := Some(buf);
      assert AllReleased(nodes, nodes, []);
      while at.Some?
        invariant 0 <= n <= |ids| && at == if n < |ids| then Some(ids[n]) else None
        invariant Releasing(old(nodes), ids, n)
        decreases |ids| - n
      {
        at := ReleaseNext(at.value, ids, n, old(nodes));
        n := n + 1;
      }
      assert ids[..n] == ids;
    }

    method ReleaseList(buf: Id)
      requires Valid() && IsHead(store, buf)
      modifies this`nodes, this`free, this`refcount, this`store
      ensures Valid() && AllReturnable(old(store), old(store.chains.lists[buf]))
      ensures store == old(Dropped(store, buf))
    {
      ListIsLive(store, buf);
      ghost var ids, before := store.chains.lists[buf], nodes;
      ListIsListed(store, nodes, buf);
      ReleaseWalk(buf, ids);
      DroppedNodes(store, before, nodes, buf);
      SameShelves(ReturnAll(store, ids), Dropped(store, buf), free);
      DroppedSound(store, buf);
      Become(Dropped(store, buf));
    }

    /** The store that memory now agrees with, after the same inventories and mbufs. */
    ghost method Become(t: Store)
      requires Sound(t) && AllNodes(t, nodes) && AllShelves(t, free) && Agrees(t)
      modifies this`store
      ensures Valid() && store == t
    {
      store := t;
    }

    /* Taking descriptors. */

    /** Takes a descriptor off the free list and fills it in. */
    method Allocate(v: Inventory, e: Element, inner: bool, ghost s: Store) returns (id: Id)
      requires v in free && |free[v]| > 0 && Stocked(s) && s.owner == owner && s.refcount == refcount
      requires AllShelves(s, free)
      modifies this`nodes, this`free, this`refcount
      ensures Available(s, id) && s.owner[id] == v
      ensures nodes == old(nodes)[id := Node(e.window, e.mbuf, 1, None, inner)]
      ensures v in free && |free[v]| == old(|free[v]|) - 1
      ensures refcount == Take(s, id, e).refcount
      ensures AllShelves(Take(s, id, e), free)
    {
      var n := |free[v]| - 1;
      id := free[v][n];
      assert ShelfIs(s, free, v) && ShelfAt(s, v, id);
      TakeShelves(s, free, v, id, e);
      free := free[v := free[v][..n]];
      if e.mbuf.Some? && e.mbuf.value in refcount {
        refcount := refcount[e.mbuf.value := refcount[e.mbuf.value] + 1];
      }
      nodes := nodes[id := Node(e.window, e.mbuf, 1, None, inner)];
    }

    /** Takes a descriptor and links the last one so far to it. */
    method AllocateNext(v: Inventory, e: Element, ids: seq<Id>, ghost s: Store) returns (id: Id)
      requires v in free && |free[v]| > 0 && Stocked(s) && s.owner == owner && s.refcount == refcount
      requires AllShelves(s, free) && (|ids| > 0 ==> ids[|ids| - 1] in nodes)
      modifies this`nodes, this`free, this`refcount
      ensures Available(s, id) && s.owner[id] == v
      ensures nodes == Grown(old(nodes), ids, e, id)
      ensures v in free && |free[v]| == old(|free[v]|) - 1
      ensures refcount == Take(s, id, e).refcount
      ensures AllShelves(Take(s, id, e), free)
    {
      id := Allocate(v, e, |ids| > 0, s);
      if |ids| > 0 {
        var last := ids[|ids| - 1];
        nodes := nodes[last := nodes[last].(next := Some(id))];
      }
    }

    /** Takes one descriptor per element and links each to the one before. */
    method BuildWalk(v: Inventory, es: seq<Element>) returns (ids: seq<Id>)
      requires Stocked(store) && AllShelves(store, free) && refcount == store.refcount && owner == store.owner
      requires v in free && |es| <= |free[v]|
      modifies this`nodes, this`free, this`refcount
      ensures Allocated(store, v, |es|, ids)
      ensures AllShelves(TakeAll(store, ids, es), free) && refcount == TakeAll(store, ids, es).refcount
      ensures AllBuilt(old(nodes), nodes, ids, es)
    {
      ids := [];
      ghost var s := store;
      assert AllBuilt(nodes, nodes, [], []);
      for i := 0 to |es|
        invariant Allocated(store, v, i, ids) && s == TakeAll(store, ids, es[..i]) && Stocked(s)
        invariant AllShelves(s, free) && refcount == s.refcount
        invariant v in free && |free[v]| == old(|free[v]|) - i
        invariant AllBuilt(old(nodes), nodes, ids, es[..i])
      {
        LastIsBuilt(old(nodes), nodes, ids, es[..i]);
        ghost var middle := nodes;
        var id := AllocateNext(v, es[i], ids, s);
        AllocateStep(store, s, v, ids, es, i, id);
        AllBuiltStep(old(nodes), middle, ids, es, i, id);
        s, ids := Take(s, id, es[i]), ids + [id];
      }
      assert es[..|es|] == es;
    }

    /** Builds a new list of the given elements. */
    method BuildList(v: Inventory, es: seq<Element>) returns (ids: seq<Id>)
      requires Valid() && v in free && 0 < |es| <= |free[v]| && AllUsable(store, es)
      modifies this`nodes, this`free, this`refcount, this`store
      ensures Valid() && Allocated(old(store), v, |es|, ids)
      ensures store == NewList(old(store), ids, es)
    {
      ghost var before := nodes;
      ids := BuildWalk(v, es);
      NewListNodes(store, before, nodes, ids, es);
      SameShelves(TakeAll(store, ids, es), NewList(store, ids, es), free);
      NewListSound(store, ids, es);
      Become(NewList(store, ids, es));
    }

    method GetByArgs(v: Inventory, window: Window) returns (status: Status, ids: seq<Id>)
      requires Valid() && Allowed(store, Get(v, window, []))
      modifies this`nodes, this`free, this`refcount, this`store
      ensures Valid() && status == old(Answer(store, Get(v, window, ids)))
      ensures store == Step(old(store), Get(v, window, ids)) && (status == Done ==> |ids| == 1)
      ensures status == Done ==> Enabled(old(store), Get(v, window, ids))
      ensures status == if v !in old(store.started) then Refused(BadState)
                        else if old(store.free)[v] == {} then Refused(NoMemory) else Done
      ensures if status == Done then Gained(old(store), store, v, ids, [Element(window, None)]) else store == old(store)
    {
      ShelfCount(store, free, v);
      if v !in started {
        return Refused(BadState), [];
      }
      if |free[v]| < 1 {
        return Refused(NoMemory), [];
      }
      ids := BuildList(v, [Element(window, None)]);
      GetMakes(old(store), v, window, ids);
      status := Done;
    }

    /** An empty data window at the start of the region. */
    method GetByAddr(v: Inventory, addr: nat, len: nat) returns (status: Status, ids: seq<Id>)
      requires Valid() && v in store.free
      modifies this`nodes, this`free, this`refcount, this`store
      ensures Valid() && store == Step(old(store), Get(v, Window(addr, len, addr, 0), ids))
      ensures status == old(Answer(store, Get(v, Window(addr, len, addr, 0), ids)))
      ensures status == Done ==> Enabled(old(store), Get(v, Window(addr, len, addr, 0), ids))
      ensures status == if v !in old(store.started) then Refused(BadState)
                        else if old(store.free)[v] == {} then Refused(NoMemory) else Done
      ensures if status == Done then Gained(old(store), store, v, ids, [Element(Window(addr, len, addr, 0), None)]) else store == old(store)
    {
      status, ids := GetByArgs(v, Window(addr, len, addr, 0));
    }

    /** A data window that is the whole region. */
    method GetByData(v: Inventory, data: nat, dataLen: nat) returns (status: Status, ids: seq<Id>)
      requires Valid() && v in store.free
      modifies this`nodes, this`free, this`refcount, this`store
      ensures Valid() && store == Step(old(store), Get(v, Window(data, dataLen, data, dataLen), ids))
      ensures status == old(Answer(store, Get(v, Window(data, dataLen, data, dataLen), ids)))
      ensures status == Done ==> Enabled(old(store), Get(v, Window(data, dataLen, data, dataLen), ids))
      ensures status == if v !in old(store.started) then Refused(BadState)
                        else if old(store.free)[v] == {} then Refused(NoMemory) else Done
      ensures if status == Done then Gained(old(store), store, v, ids, [Element(Window(data, dataLen, data, dataLen), None)]) else store == old(store)
    {
      status, ids := GetByArgs(v, Window(data, dataLen, data, dataLen));
    }

    /** Walks a list and reads off its elements. */
    method ReadList(source: Id) returns (es: seq<Element>)
      requires Valid() && IsHead(store, source)
      ensures AllLive(store, store.chains.lists[source]) && es == Contents(store, store.chains.lists[source])
    {
      ghost var ids := store.chains.lists[source];
      ListIsLive(store, source);
      ListIsListed(store, nodes, source);
      HeadNode(source);
      assert Sits(store.chains, source, 0);
      var at := Some(source);
      es := [];
      while at.Some?
        invariant |es| <= |ids| && at == if |es| < |ids| then Some(ids[|es|]) else None
        invariant es == Contents(store, ids)[..|es|]
        decreases |ids| - |es|
      {
        assert ListedAt(store, nodes, ids, |es|) && NodeAt(store, nodes, ids[|es|]) && StockAt(store, ids[|es|]);
        var node := nodes[at.value];
        es := es + [Element(node.window, node.mbuf)];
        at := node.next;
      }
    }

    /** Copies a list into descriptors of an inventory. */
    method BufDup(v: Inventory, source: Id) returns (status: Status, ids: seq<Id>)
      requires Valid() && Allowed(store, Duplicate(v, source, []))
      modifies this`nodes, this`free, this`refcount, this`store
      ensures Valid() && status == old(Answer(store, Duplicate(v, source, ids)))
      ensures store == Step(old(store), Duplicate(v, source, ids))
      ensures status == Done ==> Enabled(old(store), Duplicate(v, source, ids))
      ensures status == if v !in old(store.started) then Refused(BadState)
                        else if source !in old(store.chains.lists) then Refused(NotPermitted)
                        else if |old(store.free)[v]| < |old(store.chains.lists)[source]| then Refused(NoMemory) else Done
      ensures status == Done ==> Copied(old(store), store, v, source, ids)
      ensures status != Done ==> store == old(store)
    {
      ShelfCount(store, free, v);
      if v !in started {
        return Refused(BadState), [];
      }
      LiveNode(source);
      if nodes[source].inner {
        return Refused(NotPermitted), [];
      }
      var es := ReadList(source);
      if |free[v]| < |es| {
        return Refused(NoMemory), [];
      }
      ids := CopyList(v, source, es);
      status := Done;
    }

    method CopyList(v: Inventory, ghost source: Id, es: seq<Element>) returns (ids: seq<Id>)
      requires Valid() && v in store.free && v in free && v in store.started && IsHead(store, source)
      requires |es| <= |free[v]| && AllLive(store, store.chains.lists[source])
      requires es == Contents(store, store.chains.lists[source]) && |es| <= |store.free[v]|
      modifies this`nodes, this`free, this`refcount, this`store
      ensures Valid() && Enabled(old(store), Duplicate(v, source, ids))
      ensures store == After(old(store), Duplicate(v, source, ids))
      ensures Copied(old(store), store, v, source, ids)
    {
      ListIsLive(store, source);
      HeadNode(source);
      ContentsUsable(store, store.chains.lists[source]);
      ids := BuildList(v, es);
      DuplicateBuilds(old(store), v, source, ids);
      DuplicateMakes(old(store), v, source, ids);
    }

    /** Looks for a segment whose mbuf is not of the memory pool. */
    method AllFrom(from: Pool, segments: seq<Element>) returns (good: bool)
      requires Valid()
      ensures good <==> forall i :: 0 <= i < |segments| ==> InPool(store, from, segments[i])
    {
      for i := 0 to |segments|
        invariant forall j :: 0 <= j < i ==> InPool(store, from, segments[j])
      {
        var m := segments[i].mbuf;
        if m.None? || m.value !in pool || pool[m.value] != from {
          assert !InPool(store, from, segments[i]);
          return false;
        }
      }
      good := true;
    }

    /** Wraps the segments of an mbuf in descriptors of an inventory: one list, in the order of the
        segments, with the metadata of each and a reference on the mbuf of each. */
    method MbufToBuf(from: Pool, v: Inventory, segments: seq<Element>) returns (status: Status, ids: seq<Id>)
      requires Valid() && Allowed(store, Convert(from, v, segments, []))
      modifies this`nodes, this`free, this`refcount, this`store
      ensures Valid() && status == old(Answer(store, Convert(from, v, segments, ids)))
      ensures store == Step(old(store), Convert(from, v, segments, ids))
      ensures status == Done ==> Enabled(old(store), Convert(from, v, segments, ids))
      ensures status == Refused(InvalidValue) <==>
                exists i :: 0 <= i < |segments| && Foreign(old(store.pool), from, segments[i].mbuf)
      ensures status != Refused(InvalidValue) ==>
                status == if |old(store.free)[v]| < |segments| then Refused(NoMemory) else Done
      ensures if status == Done then Gained(old(store), store, v, ids, segments) else store == old(store)
    {
      ShelfCount(store, free, v);
      var good := AllFrom(from, segments);
      ForeignIff(store, from, segments);
      if !good {
        return Refused(InvalidValue), [];
      }
      if |free[v]| < |segments| {
        return Refused(NoMemory), [];
      }
      ids := WrapSegments(from, v, segments);
      status := Done;
    }

    method WrapSegments(ghost from: Pool, v: Inventory, segments: seq<Element>) returns (ids: seq<Id>)
      requires Valid() && Allowed(store, Convert(from, v, segments, [])) && v in free
      requires Answer(store, Convert(from, v, segments, [])) == Done && |segments| <= |free[v]|
      modifies this`nodes, this`free, this`refcount, this`store
      ensures Valid() && Enabled(old(store), Convert(from, v, segments, ids))
      ensures store == After(old(store), Convert(from, v, segments, ids))
      ensures Gained(old(store), store, v, ids, segments)
    {
      SegmentsUsable(store, Convert(from, v, segments, []));
      ids := BuildList(v, segments);
      ConvertBuilds(old(store), from, v, segments, ids);
      ConvertMakes(old(store), from, v, segments, ids);
    }

    method SetBufData(buf: Id, data: nat, dataLen: nat)
      requires Valid() && Allowed(store, SetData(buf, data, dataLen))
      modifies this`nodes, this`store
      ensures Valid() && store == old(Step(store, SetData(buf, data, dataLen)))
      ensures Windowed(old(store), store, buf, data, dataLen)
    {
      LiveNode(buf);
      ghost var t := Step(store, SetData(buf, data, dataLen));
      WindowNodes(store, nodes, buf, nodes[buf].window.(data := data, dataLen := dataLen));
      nodes := nodes[buf := nodes[buf].(window := nodes[buf].window.(data := data, dataLen := dataLen))];
      StepSound(store, SetData(buf, data, dataLen));
      Adopt(t);
    }

    /* Inventories and mbufs. */

    method StartInventory(v: Inventory)
      requires Valid() && v in store.free
      modifies this`started, this`store
      ensures Valid() && store == old(Step(store, BufferCalls.Start(v)))
      ensures store == old(store).(started := old(store.started) + {v})
    {
      StartedSound(store, store.started + {v});
      SameNodes(store, store.(started := store.started + {v}), nodes);
      SameShelves(store, store.(started := store.started + {v}), free);
      started := started + {v};
      store := store.(started := store.started + {v});
    }

    method StopInventory(v: Inventory)
      requires Valid() && v in store.free
      modifies this`started, this`store
      ensures Valid() && store == old(Step(store, BufferCalls.Stop(v)))
      ensures store == old(store).(started := old(store.started) - {v})
    {
      StartedSound(store, store.started - {v});
      SameNodes(store, store.(started := store.started - {v}), nodes);
      SameShelves(store, store.(started := store.started - {v}), free);
      started := started - {v};
      store := store.(started := store.started - {v});
    }

    /** Compares the number of free elements with the number there were. */
    method DestroyInv(v: Inventory) returns (status: Status)
      requires Valid() && v in store.free
      modifies this`free, this`started, this`owner, this`sizes, this`store
      ensures Valid() && status == old(Answer(store, DestroyInventory(v)))
      ensures store == old(Step(store, DestroyInventory(v)))
      ensures status == if SomeoneOf(old(store), v) then Refused(InUse) else Done
      ensures if status == Done then Vanished(old(store), store, v) else store == old(store)
    {
      DestroyReportsUse(store, v);
      ShelfCount(store, free, v);
      assert v in sizes && SizeIs(owner, sizes, v);
      if |free[v]| < sizes[v] {
        return Refused(InUse);
      }
      CloseInv(v);
      status := Done;
    }

    method CloseInv(v: Inventory)
      requires Valid() && v in store.free && |store.free[v]| >= |Slots(store.owner, v)|
      modifies this`free, this`started, this`owner, this`sizes, this`store
      ensures Valid() && store == old(Closed(store, v))
    {
      ClosedNodes(store, nodes, v);
      ClosedShelves(store, free, v);
      ClosedSizes(store, sizes, v);
      free, started, sizes := free - {v}, started - {v}, sizes - {v};
      owner := map id | id in owner && owner[id] != v :: owner[id];
      ClosedSound(store, v);
      Become(Closed(store, v));
    }

    method DestroyPool(p: Pool) returns (status: Status)
      requires Valid() && p in store.pools
      modifies this`pools, this`store
      ensures Valid() && status == old(Answer(store, DestroyMempool(p)))
      ensures store == old(Step(store, DestroyMempool(p)))
      ensures status == if SomeoneIn(old(store), p) then Refused(InUse) else Done
      ensures store == if status == Done then old(store).(pools := old(store.pools) - {p}) else old(store)
    {
      PoolInUseIff(store, p);
      if exists m :: m in pool && pool[m] == p && m in refcount && m in users && refcount[m] > users[m] {
        assert PoolInUse(store, p);
        return Refused(InUse);
      }
      assert !PoolInUse(store, p);
      ClosePool(p);
      status := Done;
    }

    method ClosePool(p: Pool)
      requires Valid() && !PoolInUse(store, p)
      modifies this`pools, this`store
      ensures Valid() && store == old(store).(pools := old(store.pools) - {p})
    {
      ghost var t := store.(pools := store.pools - {p});
      SameNodes(store, t, nodes);
      SameShelves(store, t, free);
      pools := pools - {p};
      MempoolSound(store, p);
      Become(t);
    }

    /** A user of the mbuf outside the library takes a reference to it. */
    method RetainMbuf(m: Mbuf)
      requires Valid() && Allowed(store, UserRetain(m))
      modifies this`users, this`refcount, this`store
      ensures Valid() && store == old(Step(store, UserRetain(m)))
      ensures store == old(store).(
                users := old(store.users)[m := old(store.users)[m] + 1],
                refcount := old(store.refcount)[m := old(store.refcount)[m] + 1])
    {
      HoldMbuf(m, users[m] + 1, refcount[m] + 1);
    }

    /** Such a user gives its reference back. */
    method ReleaseMbuf(m: Mbuf)
      requires Valid() && Allowed(store, UserRelease(m))
      modifies this`users, this`refcount, this`store
      ensures Valid() && store == old(Step(store, UserRelease(m)))
      ensures store == old(store).(
                users := old(store.users)[m := old(store.users)[m] - 1],
                refcount := old(store.refcount)[m := old(store.refcount)[m] - 1])
    {
      HoldMbuf(m, users[m] - 1, refcount[m] - 1);
    }

    method HoldMbuf(m: Mbuf, n: nat, r: nat)
      requires Valid() && m in store.users && m in store.refcount && r + store.users[m] == store.refcount[m] + n
      modifies this`users, this`refcount, this`store
      ensures Valid() && store == old(UserHolds(store, m, n, r))
    {
      UserSound(store, m, n, r);
      SameNodes(store, UserHolds(store, m, n, r), nodes);
      SameShelves(store, UserHolds(store, m, n, r), free);
      users, refcount := users[m := n], refcount[m := r];
      store := UserHolds(store, m, n, r);
    }

    /* Chaining. */

    method ChainList(list1: Id, list2: Id) returns (status: Status)
      requires Valid() && Allowed(store, Chain(list1, list2))
      modifies this`nodes, this`store
      ensures Valid() && status == old(Answer(store, Chain(list1, list2)))
      ensures store == old(Step(store, Chain(list1, list2)))
      ensures status == if list2 in old(store.refs) && old(store.refs)[list2] == 1 then Done else Refused(NotPermitted)
      ensures if status == Done then Joined(old(store), store, list1, list2) else store == old(store)
    {
      HeadNode(list1);
      HeadNode(list2);
      if nodes[list2].count != 1 {
        return Refused(NotPermitted);
      }
      var last := GetLastInList(list1);
      AppendedNodes(store, nodes, list1, list2, last);
      nodes := nodes[last := nodes[last].(next := Some(list2))];
      nodes := nodes[list2 := nodes[list2].(inner := true)];
      ChainSound(store, list1, list2);
      Adopt(Appended(store, list1, list2));
      status := Done;
    }

    lemma HeadNode(h: Id)
      requires Valid() && IsHead(store, h)
      ensures IsLive(store, h) && h in nodes && !nodes[h].inner && h in store.refs && nodes[h].count == store.refs[h]
      ensures h in store.chains.at && store.chains.at[h] == Position(h, 0)
    {
      ListIsLive(store, h);
      assert Sits(store.chains, h, 0);
      LiveNode(h);
    }

    /** Walks from list1 to the descriptor just before list2. */
    method FindBefore(list1: Id, list2: Id) returns (found: bool, before: Id)
      requires Valid() && Allowed(store, Unchain(list1, list2))
      ensures found <==> PartOf(store.chains, list1, list2)
      ensures found ==>
                && before in nodes && before in store.chains.at && list2 in store.chains.at
                && store.chains.at[before].head == store.chains.at[list2].head
                && store.chains.at[before].index + 1 == store.chains.at[list2].index
    {
      before := list1;
      Follow(before);
      Follow(list2);
      while nodes[before].next.Some? && nodes[before].next.value != list2
        invariant IsLive(store, before) && before in nodes && before in store.chains.at && Seated(store.chains, before)
        invariant store.chains.at[before].head == store.chains.at[list1].head
        invariant store.chains.at[list1].index <= store.chains.at[before].index
        invariant nodes[before].next == Next(store.chains, before)
        invariant PartOf(store.chains, list1, list2) ==> store.chains.at[before].index < store.chains.at[list2].index
        decreases |store.chains.lists[store.chains.at[list1].head]| - store.chains.at[before].index
      {
        Follow(before);
        before := nodes[before].next.value;
        Follow(before);
      }
      Follow(before);
      found := nodes[before].next.Some?;
    }

    method UnchainList(list1: Id, list2: Id) returns (status: Status)
      requires Valid() && Allowed(store, Unchain(list1, list2))
      modifies this`nodes, this`store
      ensures Valid() && status == old(Answer(store, Unchain(list1, list2)))
      ensures store == old(Step(store, Unchain(list1, list2)))
      ensures list1 in old(store.chains.at) && list2 in old(store.chains.at)
      ensures var p, q := old(store.chains.at)[list1], old(store.chains.at)[list2];
              && status == (if p.head == q.head && p.index < q.index then Done else Refused(InvalidValue))
              && q.head in old(store.chains.lists) && q.index < |old(store.chains.lists)[q.head]|
              && (if status == Done then Parted(old(store), store, q.head, q.index) else store == old(store))
    {
      LiveNode(list1);
      LiveNode(list2);
      var found, last := FindBefore(list1, list2);
      if !found {
        return Refused(InvalidValue);
      }
      PartIsInner(store, list1, list2);
      Unlink(store.chains.at[list2].head, store.chains.at[list2].index, last, list2);
      status := Done;
    }

    /** Cuts the link from `last` to `next`, which are neighbours in the list headed by `h`. */
    method Unlink(ghost h: Id, ghost k: nat, last: Id, next: Id)
      requires Valid() && IsHead(store, h) && 0 < k < |store.chains.lists[h]| && next == store.chains.lists[h][k]
      requires next in nodes && last in nodes
      requires last in store.chains.at && store.chains.at[last] == Position(h, k - 1)
      modifies this`nodes, this`store
      ensures Valid() && store == old(Separated(store, h, k))
    {
      SeparatedNodes(store, nodes, h, k, last, next);
      nodes := nodes[last := nodes[last].(next := None)];
      nodes := nodes[next := nodes[next].(inner := false)];
      UnchainSound(store, h, k);
      Adopt(Separated(store, h, k));
    }

    /** The lists have changed; who owns what has not. */
    ghost method Adopt(t: Store)
      requires Sound(t) && AllNodes(t, nodes) && Shelves() && Rest()
      requires t.free == store.free && t.owner == store.owner && t.started == store.started && t.pools == store.pools
      requires t.pool == store.pool && t.users == store.users && t.refcount == store.refcount
      modifies this`store
      ensures Valid() && store == t
    {
      SameShelves(store, t, free);
      store := t;
    }

    lemma LiveNode(buf: Id)
      requires Valid() && IsLive(store, buf)
      ensures buf in nodes && NodeAt(store, nodes, buf) && buf in store.chains.at && Seated(store.chains, buf)
      ensures buf in store.owner
      ensures IsHead(store, buf) <==> store.chains.at[buf].index == 0
    {
      assert StockAt(store, buf) && NodeAt(store, nodes, buf);
      HeadIsFirst(store.chains, buf);
    }
  }

  /** The mbuf is not one of the memory pool. */
  predicate Foreign(pool: map<Mbuf, Pool>, from: Pool, m: Option<Mbuf>)
  {
    m.None? || m.value !in pool || pool[m.value] != from
  }

  lemma ForeignIff(s: Store, from: Pool, segments: seq<Element>)
    ensures (exists i :: 0 <= i < |segments| && Foreign(s.pool, from, segments[i].mbuf))
       <==> !forall i :: 0 <= i < |segments| ==> InPool(s, from, segments[i])
  {
    if i :| 0 <= i < |segments| && !InPool(s, from, segments[i]) {
      assert Foreign(s.pool, from, segments[i].mbuf);
    }
  }

  ghost predicate AllLive(s: Store, ids: seq<Id>)
  {
    forall i :: 0 <= i < |ids| ==> ids[i] in s.elements
  }

  /** The length of a free list is the number of free descriptors. */
  lemma ShelfCount(s: Store, free: map<Inventory, seq<Id>>, v: Inventory)
    requires AllShelves(s, free) && v in s.free
    ensures v in free && |free[v]| == |s.free[v]|
  {
    assert ShelfIs(s, free, v);
    DistinctLength(free[v], s.free[v]);
  }

  lemma SameNodes(s: Store, t: Store, nodes: map<Id, Node>)
    requires AllNodes(s, nodes) && t.owner == s.owner && t.elements == s.elements && t.chains == s.chains && t.refs == s.refs
    ensures AllNodes(t, nodes)
  {
    forall id
      ensures NodeAt(t, nodes, id)
    {
      assert NodeAt(s, nodes, id);
    }
  }

  lemma ClosedNodes(s: Store, nodes: map<Id, Node>, v: Inventory)
    requires AllNodes(s, nodes)
    ensures AllNodes(Closed(s, v), nodes)
  {
    forall id
      ensures NodeAt(Closed(s, v), nodes, id)
    {
      assert NodeAt(s, nodes, id);
    }
  }

  lemma ClosedShelves(s: Store, free: map<Inventory, seq<Id>>, v: Inventory)
    requires AllShelves(s, free)
    ensures AllShelves(Closed(s, v), free - {v})
  {
    forall w
      ensures ShelfIs(Closed(s, v), free - {v}, w)
    {
      assert ShelfIs(s, free, w);
    }
  }

  lemma ClosedSizes(s: Store, sizes: map<Inventory, nat>, v: Inventory)
    requires AllSizes(s.owner, sizes)
    ensures AllSizes(Closed(s, v).owner, sizes - {v})
  {
    forall w
      ensures SizeIs(Closed(s, v).owner, sizes - {v}, w)
    {
      assert SizeIs(s.owner, sizes, w);
      if w != v {
        ClosedKeepsOwners(s, v, w);
      }
    }
  }

  lemma WindowNodes(s: Store, nodes: map<Id, Node>, buf: Id, w: Window)
    requires AllNodes(s, nodes) && buf in s.elements && buf in nodes
    ensures AllNodes(s.(elements := s.elements[buf := s.elements[buf].(window := w)]), nodes[buf := nodes[buf].(window := w)])
  {
    var t, after := s.(elements := s.elements[buf := s.elements[buf].(window := w)]), nodes[buf := nodes[buf].(window := w)];
    forall id
      ensures NodeAt(t, after, id)
    {
      assert NodeAt(s, nodes, id);
    }
  }

  lemma SameShelves(s: Store, t: Store, free: map<Inventory, seq<Id>>)
    requires AllShelves(s, free) && t.free == s.free
    ensures AllShelves(t, free)
  {
    forall v
      ensures ShelfIs(t, free, v)
    {
      assert ShelfIs(s, free, v);
    }
  }

  function Linked(nodes: map<Id, Node>, last: Id, next: Id): map<Id, Node>
    requires last in nodes && next in nodes
  {
    var after := nodes[last := nodes[last].(next := Some(next))];
    after[next := after[next].(inner := true)]
  }

  function Cut(nodes: map<Id, Node>, last: Id, next: Id): map<Id, Node>
    requires last in nodes && next in nodes
  {
    var after := nodes[last := nodes[last].(next := None)];
    after[next := after[next].(inner := false)]
  }

  lemma AppendedNext(c: Chains, list1: Id, list2: Id, id: Id)
    requires Valid(c) && list1 in c.lists && list2 in c.lists && list1 != list2 && id in c.at
    requires Valid(Chained(c, list1, list2))
    ensures Seated(c, id) && id in Chained(c, list1, list2).at && Seated(Chained(c, list1, list2), id)
    ensures Next(Chained(c, list1, list2), id)
         == if c.at[id] == Position(list1, |c.lists[list1]| - 1) then Some(list2) else Next(c, id)
    ensures Chained(c, list1, list2).at[id].index > 0 <==> c.at[id].index > 0 || id == list2
  {
    assert Seated(c, id) && Seated(Chained(c, list1, list2), id);
    assert Sits(c, list1, 0) && Sits(c, list2, 0);
  }

  lemma AppendedNodes(s: Store, nodes: map<Id, Node>, list1: Id, list2: Id, last: Id)
    requires Sound(s) && IsHead(s, list1) && IsHead(s, list2) && list1 != list2 && s.refs[list2] == 1
    requires AllNodes(s, nodes) && last in nodes && list2 in nodes
    requires last in s.chains.at && s.chains.at[last] == Position(list1, |s.chains.lists[list1]| - 1)
    ensures AllNodes(Appended(s, list1, list2), Linked(nodes, last, list2))
  {
    ChainedValid(s.chains, list1, list2);
    assert Sits(s.chains, list2, 0);
    assert Seated(s.chains, last);
    forall id
      ensures NodeAt(Appended(s, list1, list2), Linked(nodes, last, list2), id)
    {
      assert NodeAt(s, nodes, id);
      if id in s.elements {
        AppendedNext(s.chains, list1, list2, id);
        HeadIsFirst(s.chains, id);
      }
    }
  }

  lemma SeparatedNext(c: Chains, h: Id, k: nat, id: Id)
    requires Valid(c) && h in c.lists && 0 < k < |c.lists[h]| && id in c.at
    requires Valid(Unchained(c, h, k))
    ensures Seated(c, id) && id in Unchained(c, h, k).at && Seated(Unchained(c, h, k), id)
    ensures Next(Unchained(c, h, k), id) == if c.at[id] == Position(h, k - 1) then None else Next(c, id)
    ensures Unchained(c, h, k).at[id].index > 0 <==> c.at[id].index > 0 && c.at[id] != Position(h, k)
  {
    assert Seated(c, id) && Seated(Unchained(c, h, k), id);
    InnerIsNoHead(c, h, k);
  }

  lemma SeparatedNodes(s: Store, nodes: map<Id, Node>, h: Id, k: nat, last: Id, list2: Id)
    requires Sound(s) && IsHead(s, h) && 0 < k < |s.chains.lists[h]| && list2 == s.chains.lists[h][k]
    requires AllNodes(s, nodes) && last in nodes && list2 in nodes
    requires last in s.chains.at && s.chains.at[last] == Position(h, k - 1)
    ensures AllNodes(Separated(s, h, k), Cut(nodes, last, list2))
  {
    UnchainedValid(s.chains, h, k);
    assert Sits(s.chains, h, k);
    assert Seated(s.chains, last);
    forall id
      ensures NodeAt(Separated(s, h, k), Cut(nodes, last, list2), id)
    {
      assert NodeAt(s, nodes, id);
      if id in s.elements {
        SeparatedNext(s.chains, h, k, id);
        SeparatedCount(s, h, k, id);
      }
    }
  }

  lemma SeparatedCount(s: Store, h: Id, k: nat, id: Id)
    requires Shaped(s) && IsHead(s, h) && 0 < k < |s.chains.lists[h]| && id in s.elements
    ensures var t := Separated(s, h, k);
            (if id in t.refs then t.refs[id] else 1) == (if id in s.refs then s.refs[id] else 1)
  {
    InnerIsNoHead(s.chains, h, k);
  }

  lemma ReturnShelves(s: Store, free: map<Inventory, seq<Id>>, id: Id)
    requires Stocked(s) && Returnable(s, id) && s.owner[id] in free && AllShelves(s, free)
    ensures AllShelves(Return(s, id), free[s.owner[id] := free[s.owner[id]] + [id]])
  {
    var t, after := Return(s, id), free[s.owner[id] := free[s.owner[id]] + [id]];
    assert StockAt(s, id);
    forall v
      ensures ShelfIs(t, after, v)
    {
      assert ShelfIs(s, free, v);
    }
  }

  /** The given descriptors are released, all others are as before. */
  ghost predicate ReleasedAt(before: map<Id, Node>, nodes: map<Id, Node>, ids: seq<Id>, id: Id)
  {
    id in before ==> id in nodes && (if id in ids then nodes[id].count == 0 else nodes[id] == before[id])
  }

  ghost predicate AllReleased(before: map<Id, Node>, nodes: map<Id, Node>, ids: seq<Id>)
  {
    forall id :: ReleasedAt(before, nodes, ids, id)
  }

  /** Descriptor n of a list as it is in memory. */
  ghost predicate ListedAt(s: Store, nodes: map<Id, Node>, ids: seq<Id>, n: nat)
    requires n < |ids|
  {
    && ids[n] in nodes && ids[n] in s.elements && nodes[ids[n]].mbuf == s.elements[ids[n]].mbuf
    && nodes[ids[n]].next == if n + 1 < |ids| then Some(ids[n + 1]) else None
  }

  ghost predicate AllListed(s: Store, nodes: map<Id, Node>, ids: seq<Id>)
  {
    forall n: nat :: n < |ids| ==> ListedAt(s, nodes, ids, n)
  }

  lemma ListIsListed(s: Store, nodes: map<Id, Node>, h: Id)
    requires Sound(s) && AllNodes(s, nodes) && IsHead(s, h)
    ensures AllListed(s, nodes, s.chains.lists[h])
  {
    ListIsLive(s, h);
    var ids := s.chains.lists[h];
    forall n: nat | n < |ids|
      ensures ListedAt(s, nodes, ids, n)
    {
      assert Sits(s.chains, h, n) && NodeAt(s, nodes, ids[n]) && StockAt(s, ids[n]);
    }
  }

  /** The next descriptor to be released is untouched so far. */
  lemma ReleaseReady(store: Store, s: Store, before: map<Id, Node>, nodes: map<Id, Node>, ids: seq<Id>, n: nat)
    requires AllReturnable(store, ids) && n < |ids| && AllListed(store, before, ids)
    requires AllReturnable(store, ids[..n]) && s == ReturnAll(store, ids[..n])
    requires AllReleased(before, nodes, ids[..n])
    ensures ids[n] in nodes && ids[n] in store.owner
    ensures Returnable(s, ids[n]) && nodes[ids[n]].mbuf == s.elements[ids[n]].mbuf
    ensures nodes[ids[n]].next == if n + 1 < |ids| then Some(ids[n + 1]) else None
  {
    assert ids[n] !in ids[..n];
    assert ListedAt(store, before, ids, n);
    assert ReleasedAt(before, nodes, ids[..n], ids[n]);
    ReturnAllElements(store, ids[..n]);
  }

  lemma ReleaseStep(store: Store, s: Store, ids: seq<Id>, n: nat)
    requires AllReturnable(store, ids) && n < |ids|
    requires AllReturnable(store, ids[..n]) && s == ReturnAll(store, ids[..n])
    requires Returnable(s, ids[n]) && Stocked(s)
    ensures AllReturnable(store, ids[..n + 1]) && Return(s, ids[n]) == ReturnAll(store, ids[..n + 1])
    ensures Stocked(Return(s, ids[n]))
  {
    assert ids[..n + 1][..n] == ids[..n];
    ReturnStocked(s, ids[n]);
  }

  lemma AllReleasedStep(before: map<Id, Node>, middle: map<Id, Node>, nodes: map<Id, Node>, ids: seq<Id>, n: nat)
    requires n < |ids| && ids[n] in middle && AllReleased(before, middle, ids[..n])
    requires nodes == middle[ids[n] := middle[ids[n]].(count := 0, next := None, inner := false)]
    ensures AllReleased(before, nodes, ids[..n + 1])
  {
    var upto := ids[..n + 1];
    assert upto == ids[..n] + [ids[n]];
    forall id
      ensures ReleasedAt(before, nodes, upto, id)
    {
      assert ReleasedAt(before, middle, ids[..n], id);
    }
  }

  lemma DroppedNodes(s: Store, before: map<Id, Node>, nodes: map<Id, Node>, h: Id)
    requires Sound(s) && IsHead(s, h) && AllNodes(s, before) && AllReturnable(s, s.chains.lists[h])
    requires AllReleased(before, nodes, s.chains.lists[h])
    ensures AllNodes(Dropped(s, h), nodes)
  {
    var t := Dropped(s, h);
    RemovedValid(s.chains, h);
    ReturnAllElements(s, s.chains.lists[h]);
    forall id
      ensures NodeAt(t, nodes, id)
    {
      assert NodeAt(s, before, id) && ReleasedAt(before, nodes, s.chains.lists[h], id) && StockAt(s, id);
      if id in t.elements {
        assert Seated(s.chains, id) && Seated(t.chains, id);
      }
    }
  }

  lemma TakeShelves(s: Store, free: map<Inventory, seq<Id>>, v: Inventory, id: Id, e: Element)
    requires Stocked(s) && Available(s, id) && s.owner[id] == v && AllShelves(s, free)
    requires v in free && |free[v]| > 0 && free[v][|free[v]| - 1] == id
    ensures AllShelves(Take(s, id, e), free[v := free[v][..|free[v]| - 1]])
  {
    var t, n := Take(s, id, e), |free[v]| - 1;
    var after := free[v := free[v][..n]];
    assert free[v] == free[v][..n] + [id];
    forall w
      ensures ShelfIs(t, after, w)
    {
      assert ShelfIs(s, free, w) && ShelfIs(s, free, v);
    }
  }

  /** Descriptor k of a list under construction, and all descriptors outside it. */
  ghost predicate BuiltAt(nodes: map<Id, Node>, ids: seq<Id>, es: seq<Element>, k: nat)
    requires |ids| == |es| && k < |ids|
  {
    ids[k] in nodes &&
    nodes[ids[k]] == Node(es[k].window, es[k].mbuf, 1, if k + 1 < |ids| then Some(ids[k + 1]) else None, k > 0)
  }

  ghost predicate KeptAt(before: map<Id, Node>, nodes: map<Id, Node>, ids: seq<Id>, id: Id)
  {
    id in before && id !in ids ==> id in nodes && nodes[id] == before[id]
  }

  ghost predicate AllBuilt(before: map<Id, Node>, nodes: map<Id, Node>, ids: seq<Id>, es: seq<Element>)
    requires |ids| == |es|
  {
    (forall k: nat :: k < |ids| ==> BuiltAt(nodes, ids, es, k)) && (forall id :: KeptAt(before, nodes, ids, id))
  }

  lemma TakeOneMore(store: Store, ids: seq<Id>, es: seq<Element>, id: Id, e: Element)
    requires |ids| == |es| && AllAvailable(store, ids) && Available(store, id) && id !in ids
    ensures AllAvailable(store, ids + [id]) && Available(TakeAll(store, ids, es), id)
    ensures TakeAll(store, ids + [id], es + [e]) == Take(TakeAll(store, ids, es), id, e)
  {
    assert (ids + [id])[..|ids|] == ids && (es + [e])[..|es|] == es;
  }

  lemma AllocateStep(store: Store, s: Store, v: Inventory, ids: seq<Id>, es: seq<Element>, i: nat, id: Id)
    requires Stocked(store) && Allocated(store, v, i, ids) && i < |es|
    requires s == TakeAll(store, ids, es[..i]) && Stocked(s) && Available(s, id) && s.owner[id] == v
    ensures id !in ids && Allocated(store, v, i + 1, ids + [id])
    ensures Take(s, id, es[i]) == TakeAll(store, ids + [id], es[..i + 1]) && Stocked(Take(s, id, es[i]))
  {
    AllocatedIsNew(store, s, ids, es[..i], id);
    TakeOneMore(store, ids, es[..i], id, es[i]);
    assert es[..i + 1] == es[..i] + [es[i]];
    TakeStocked(s, id, es[i]);
  }

  lemma AllocatedIsNew(store: Store, s: Store, ids: seq<Id>, es: seq<Element>, id: Id)
    requires Stocked(store) && |ids| == |es| && AllAvailable(store, ids)
    requires s == TakeAll(store, ids, es) && Stocked(s) && Available(s, id)
    ensures id !in ids && Available(store, id)
  {
    TakeAllElements(store, ids, es);
    assert StockAt(s, id) && StockAt(store, id);
  }

  /** A descriptor is added to a list under construction. */
  function Grown(nodes: map<Id, Node>, ids: seq<Id>, e: Element, id: Id): map<Id, Node>
    requires |ids| > 0 ==> ids[|ids| - 1] in nodes
  {
    var more := nodes[id := Node(e.window, e.mbuf, 1, None, |ids| > 0)];
    if |ids| == 0 then more else more[ids[|ids| - 1] := more[ids[|ids| - 1]].(next := Some(id))]
  }

  lemma LastIsBuilt(before: map<Id, Node>, nodes: map<Id, Node>, ids: seq<Id>, es: seq<Element>)
    requires |ids| == |es| && AllBuilt(before, nodes, ids, es)
    ensures |ids| > 0 ==> ids[|ids| - 1] in nodes
  {
    if |ids| > 0 {
      assert BuiltAt(nodes, ids, es, |ids| - 1);
    }
  }

  lemma AllBuiltStep(before: map<Id, Node>, nodes: map<Id, Node>, ids: seq<Id>, es: seq<Element>, i: nat, id: Id)
    requires i < |es| && |ids| == i && id !in ids && Distinct(ids)
    requires AllBuilt(before, nodes, ids, es[..i])
    ensures i > 0 ==> ids[i - 1] in nodes
    ensures AllBuilt(before, Grown(nodes, ids, es[i], id), ids + [id], es[..i + 1])
  {
    LastIsBuilt(before, nodes, ids, es[..i]);
    var more, upto, after := ids + [id], es[..i + 1], Grown(nodes, ids, es[i], id);
    forall k: nat | k < |more|
      ensures BuiltAt(after, more, upto, k)
    {
      if k < i {
        assert BuiltAt(nodes, ids, es[..i], k);
      }
    }
    forall d
      ensures KeptAt(before, after, more, d)
    {
      assert KeptAt(before, nodes, ids, d);
    }
  }

  lemma NewNode(c: Chains, ids: seq<Id>, k: nat)
    requires Valid(c) && |ids| > 0 && Fresh(c, ids) && k < |ids| && Valid(Added(c, ids))
    ensures ids[k] in Added(c, ids).at && Seated(Added(c, ids), ids[k])
    ensures Added(c, ids).at[ids[k]] == Position(ids[0], k)
    ensures Next(Added(c, ids), ids[k]) == if k + 1 < |ids| then Some(ids[k + 1]) else None
  {
    assert Sits(Added(c, ids), ids[0], k);
  }

  lemma OldNode(c: Chains, ids: seq<Id>, id: Id)
    requires Valid(c) && |ids| > 0 && Fresh(c, ids) && Valid(Added(c, ids)) && id in c.at
    ensures Seated(c, id) && id in Added(c, ids).at && Seated(Added(c, ids), id)
    ensures Added(c, ids).at[id] == c.at[id] && Next(Added(c, ids), id) == Next(c, id)
  {
    assert Seated(c, id);
    SeatsOf(ids, ids[0], 0);
    AddedValid(c, ids);
  }

  lemma NewListNodes(s: Store, before: map<Id, Node>, nodes: map<Id, Node>, ids: seq<Id>, es: seq<Element>)
    requires Sound(s) && AllNodes(s, before) && |ids| == |es| > 0 && AllAvailable(s, ids)
    requires AllBuilt(before, nodes, ids, es)
    ensures AllNodes(NewList(s, ids, es), nodes)
  {
    var t := NewList(s, ids, es);
    AvailableIsFresh(s, ids);
    AddedValid(s.chains, ids);
    TakeAllElements(s, ids, es);
    forall id
      ensures NodeAt(t, nodes, id)
    {
      assert NodeAt(s, before, id) && KeptAt(before, nodes, ids, id);
      if id in ids {
        var k :| 0 <= k < |ids| && ids[k] == id;
        NewNode(s.chains, ids, k);
        HeadIsFirst(s.chains, id);
        assert BuiltAt(nodes, ids, es, k);
      } else if id in s.elements {
        OldNode(s.chains, ids, id);
      }
    }
  }

  /** A duplicate is made and released at once; the heap is what it was. */
  method DuplicateAndDrop(heap: Heap, v: Inventory, source: Id)
    requires heap.Valid() && IsHead(heap.store, source) && v in heap.store.started && v in heap.store.free
    requires |heap.store.chains.lists[source]| <= |heap.store.free[v]|
    modifies heap
    ensures heap.Valid() && heap.store == old(heap.store)
  {
    heap.HeadNode(source);
    var status, copy := heap.BufDup(v, source);
    assert status == Done;
    ReleaseUndoesTaking(old(heap.store), Duplicate(v, source, copy));
    var _, _ := heap.DecRefcount(copy[0]);
  }

  /** A client: a buffer is taken, duplicated, and both are released; every call succeeds, and the
      heap is back to what it was when the inventory was started. */
  method DuplicateAndRelease(heap: Heap, v: Inventory, data: nat, dataLen: nat)
    requires heap.Valid() && v in heap.store.free && |heap.store.free[v]| >= 2
    modifies heap
    ensures heap.Valid() && heap.store == old(Step(heap.store, BufferCalls.Start(v)))
  {
    heap.StartInventory(v);
    TakeAndDrop(heap, v, data, dataLen);
  }

  method TakeAndDrop(heap: Heap, v: Inventory, data: nat, dataLen: nat)
    requires heap.Valid() && v in heap.store.free && v in heap.store.started && |heap.store.free[v]| >= 2
    modifies heap
    ensures heap.Valid() && heap.store == old(heap.store)
  {
    var status, ids := heap.GetByData(v, data, dataLen);
    assert status == Done;
    ghost var get := Get(v, Window(data, dataLen, data, dataLen), ids);
    OneLess(old(heap.store), get);
    DuplicateAndDrop(heap, v, ids[0]);
    ReleaseUndoesTaking(old(heap.store), get);
    var _, _ := heap.DecRefcount(ids[0]);
  }

  lemma OneLess(s: Store, c: Call)
    requires Sound(s) && Enabled(s, c) && c.Get? && |s.free[c.inventory]| >= 2
    ensures var t := After(s, c);
            && c.inventory in t.started && c.inventory in t.free && |t.free[c.inventory]| >= 1
            && IsLive(t, c.ids[0]) && IsHead(t, c.ids[0]) && t.chains.lists[c.ids[0]] == c.ids
  {
    var ids, e := c.ids, Element(c.window, None);
    NewListHolds(s, ids, [e]);
    assert TakeAll(s, ids[..0], [e][..0]) == s;
    assert TakeAll(s, ids, [e]) == Take(s, ids[0], [e][0]);
  }

  /** The client on a heap of its own, with one inventory of two descriptors. */
  method DuplicateFromScratch(data: nat, dataLen: nat) returns (free: nat)
    ensures free == 2
  {
    var heap := new Heap(map[0 := [0, 1]], map[0 := 0, 1 := 0], {}, map[], map[]);
    TwoDescriptors(heap.store, heap.free, 0);
    DuplicateAndRelease(heap, 0, data, dataLen);
    free := heap.GetNumFreeElements(0);
  }

  lemma TwoDescriptors(s: Store, free: map<Inventory, seq<Id>>, v: Inventory)
    requires AllShelves(s, free) && v in free && |free[v]| == 2
    ensures v in s.free && |s.free[v]| == 2
  {
    assert ShelfIs(s, free, v);
    ShelfCount(s, free, v);
  }

  /** A client: from a stopped inventory nothing is handed out any more. */
  method StoppedRefuses(heap: Heap, v: Inventory, source: Id, data: nat, dataLen: nat) returns (get: Status, dup: Status)
    requires heap.Valid() && v in heap.store.free && IsLive(heap.store, source)
    modifies heap
    ensures heap.Valid() && get == Refused(BadState) && dup == Refused(BadState)
    ensures heap.store.elements == old(heap.store.elements)
  {
    heap.StopInventory(v);
    var ids;
    get, ids := heap.GetByData(v, data, dataLen);
    dup, ids := heap.BufDup(v, source);
  }
}

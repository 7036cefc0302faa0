/** Buffer descriptors, their lists, the inventories they come from and the DPDK mbufs they refer
    to, as a value. */
module BufferStore {
  import opened Collections
  import opened BufferChains

  type Inventory = nat
  type Mbuf = nat
  type Pool = nat

  const MAX_REFCOUNT := 65535

  /** A memory region and the data inside it. */
  datatype Window = Window(head: nat, len: nat, data: nat, dataLen: nat)

  predicate InBounds(w: Window)
  {
    w.head <= w.data && w.data + w.dataLen <= w.head + w.len
  }

  /** What a live descriptor describes; `mbuf` is the direct mbuf that holds the memory, if any. */
  datatype Element = Element(window: Window, mbuf: Option<Mbuf>)

  /** `refs` is keyed by list heads; `elements` by the live descriptors.  `owner` is the inventory a
      descriptor belongs to.  `free` is keyed by the inventories that exist, and `pools` are the
      memory pools that do; `pool` is the one an mbuf comes from.  `users` counts the references to an mbuf held outside
      the library and `refcount` is its reference count. */
  datatype Store = Store(
    chains: Chains,
    refs: map<Id, nat>,
    elements: map<Id, Element>,
    owner: map<Id, Inventory>,
    free: map<Inventory, set<Id>>,
    started: set<Inventory>,
    pools: set<Pool>,
    pool: map<Mbuf, Pool>,
    users: map<Mbuf, nat>,
    refcount: map<Mbuf, nat>)

  /* Invariants. */

  /** The lists together hold the live descriptors. */
  ghost predicate Shaped(s: Store)
  {
    Valid(s.chains) && s.refs.Keys == s.chains.lists.Keys && s.chains.at.Keys == s.elements.Keys
  }

  ghost predicate Counted(s: Store)
  {
    forall h :: h in s.refs ==> 1 <= s.refs[h] <= MAX_REFCOUNT
  }

  ghost predicate Bounded(s: Store)
  {
    forall id :: id in s.elements ==> InBounds(s.elements[id].window)
  }

  /** A descriptor is free in its own inventory exactly when it is not live. */
  ghost predicate StockAt(s: Store, id: Id)
  {
    && (id in s.elements ==> id in s.owner)
    && (id in s.owner ==> s.owner[id] in s.free && (id in s.free[s.owner[id]] <==> id !in s.elements))
  }

  /** An inventory stocks only its own descriptors. */
  ghost predicate ShelfAt(s: Store, v: Inventory, id: Id)
  {
    v in s.free && id in s.free[v] ==> id in s.owner && s.owner[id] == v
  }

  ghost predicate Stocked(s: Store)
  {
    (forall id :: StockAt(s, id)) && (forall v, id :: ShelfAt(s, v, id))
  }

  /** The live descriptors that refer to an mbuf. */
  ghost function Holders(elements: map<Id, Element>, m: Mbuf): set<Id>
  {
    set id | id in elements && elements[id].mbuf == Some(m)
  }

  /** The mbuf is known and its memory pool exists. */
  predicate Backed(s: Store, m: Option<Mbuf>)
  {
    m.Some? ==> m.value in s.refcount && m.value in s.pool && s.pool[m.value] in s.pools
  }

  ghost predicate KnownMbuf(s: Store, id: Id)
  {
    id in s.elements ==> Backed(s, s.elements[id].mbuf)
  }

  /** The reference count of an mbuf is what its users hold plus one per live descriptor. */
  ghost predicate CountAt(s: Store, m: Mbuf)
  {
    m in s.refcount ==> m in s.users && m in s.pool && s.refcount[m] == s.users[m] + |Holders(s.elements, m)|
  }

  ghost predicate Accounted(s: Store)
  {
    (forall id :: KnownMbuf(s, id)) && (forall m :: CountAt(s, m))
  }

  /* Taking one descriptor from its inventory, and putting it back. */

  function Retained(refcount: map<Mbuf, nat>, m: Option<Mbuf>): map<Mbuf, nat>
  {
    if m.Some? && m.value in refcount then refcount[m.value := refcount[m.value] + 1] else refcount
  }

  function Released(refcount: map<Mbuf, nat>, m: Option<Mbuf>): map<Mbuf, nat>
  {
    if m.Some? && m.value in refcount && refcount[m.value] > 0
    then refcount[m.value := refcount[m.value] - 1] else refcount
  }

  predicate Available(s: Store, id: Id)
  {
    id in s.owner && s.owner[id] in s.free && id in s.free[s.owner[id]]
  }

  function Take(s: Store, id: Id, e: Element): Store
    requires Available(s, id)
  {
    s.(elements := s.elements[id := e],
       free := s.free[s.owner[id] := s.free[s.owner[id]] - {id}],
       refcount := Retained(s.refcount, e.mbuf))
  }

  function Return(s: Store, id: Id): Store
    requires id in s.elements && id in s.owner && s.owner[id] in s.free
  {
    s.(elements := s.elements - {id},
       free := s.free[s.owner[id] := s.free[s.owner[id]] + {id}],
       refcount := Released(s.refcount, s.elements[id].mbuf))
  }

  lemma HoldersTaken(elements: map<Id, Element>, id: Id, e: Element, m: Mbuf)
    requires id !in elements
    ensures |Holders(elements[id := e], m)| == |Holders(elements, m)| + (if e.mbuf == Some(m) then 1 else 0)
  {
    if e.mbuf == Some(m) {
      assert Holders(elements[id := e], m) == Holders(elements, m) + {id};
    } else {
      assert Holders(elements[id := e], m) == Holders(elements, m);
    }
  }

  lemma HoldersReturned(elements: map<Id, Element>, id: Id, m: Mbuf)
    requires id in elements
    ensures |Holders(elements, m)| == |Holders(elements - {id}, m)| + (if elements[id].mbuf == Some(m) then 1 else 0)
  {
    if elements[id].mbuf == Some(m) {
      assert Holders(elements, m) == Holders(elements - {id}, m) + {id};
    } else {
      assert Holders(elements, m) == Holders(elements - {id}, m);
    }
  }

  /** What inventories and mbufs record agrees with the live descriptors. */
  ghost predicate Booked(s: Store)
  {
    Stocked(s) && Accounted(s) && Bounded(s)
  }

  ghost predicate Sound(s: Store)
  {
    Shaped(s) && Counted(s) && Booked(s)
  }

  predicate Usable(s: Store, e: Element)
  {
    InBounds(e.window) && Backed(s, e.mbuf)
  }

  lemma TakeStocked(s: Store, id: Id, e: Element)
    requires Stocked(s) && Available(s, id)
    ensures Stocked(Take(s, id, e))
  {
    var t := Take(s, id, e);
    forall d
      ensures StockAt(t, d)
    {
      assert StockAt(s, d);
    }
    forall v, d
      ensures ShelfAt(t, v, d)
    {
      assert ShelfAt(s, v, d);
    }
  }

  lemma TakeAccounted(s: Store, id: Id, e: Element)
    requires Accounted(s) && Available(s, id) && id !in s.elements && Usable(s, e)
    ensures Accounted(Take(s, id, e))
  {
    var t := Take(s, id, e);
    forall d
      ensures KnownMbuf(t, d)
    {
      assert KnownMbuf(s, d);
    }
    forall m
      ensures CountAt(t, m)
    {
      assert CountAt(s, m);
      HoldersTaken(s.elements, id, e, m);
    }
  }

  lemma TakeBooked(s: Store, id: Id, e: Element)
    requires Booked(s) && Available(s, id) && Usable(s, e)
    ensures Booked(Take(s, id, e))
  {
    assert StockAt(s, id);
    TakeStocked(s, id, e);
    TakeAccounted(s, id, e);
  }

  lemma ReturnStocked(s: Store, id: Id)
    requires Stocked(s) && Returnable(s, id)
    ensures Stocked(Return(s, id))
  {
    var t := Return(s, id);
    forall d
      ensures StockAt(t, d)
    {
      assert StockAt(s, d);
    }
    forall v, d
      ensures ShelfAt(t, v, d)
    {
      assert ShelfAt(s, v, d);
    }
  }

  lemma ReturnAccounted(s: Store, id: Id)
    requires Accounted(s) && Returnable(s, id)
    ensures Accounted(Return(s, id))
  {
    var t := Return(s, id);
    forall d
      ensures KnownMbuf(t, d)
    {
      assert KnownMbuf(s, d);
    }
    forall m
      ensures CountAt(t, m)
    {
      assert CountAt(s, m);
      HoldersReturned(s.elements, id, m);
    }
  }

  lemma ReturnBooked(s: Store, id: Id)
    requires Booked(s) && Returnable(s, id)
    ensures Booked(Return(s, id))
  {
    ReturnStocked(s, id);
    ReturnAccounted(s, id);
  }

  /* Many descriptors at a time. */

  ghost predicate AllAvailable(s: Store, ids: seq<Id>)
  {
    Distinct(ids) && forall i :: 0 <= i < |ids| ==> Available(s, ids[i])
  }

  ghost predicate AllUsable(s: Store, es: seq<Element>)
  {
    forall i :: 0 <= i < |es| ==> Usable(s, es[i])
  }

  /** Takes one descriptor per element, in order. */
  function TakeAll(s: Store, ids: seq<Id>, es: seq<Element>): (t: Store)
    requires |ids| == |es| && AllAvailable(s, ids)
    ensures t == s.(elements := t.elements, free := t.free, refcount := t.refcount)
    ensures t.free.Keys == s.free.Keys
    ensures forall id :: Available(s, id) && id !in ids ==> Available(t, id)
    decreases |ids|
  {
    if |ids| == 0 then s
    else
      var n := |ids| - 1;
      assert ids == ids[..n] + [ids[n]];
      Take(TakeAll(s, ids[..n], es[..n]), ids[n], es[n])
  }

  predicate Returnable(s: Store, id: Id)
  {
    id in s.elements && id in s.owner && s.owner[id] in s.free
  }

  ghost predicate AllReturnable(s: Store, ids: seq<Id>)
  {
    Distinct(ids) && forall i :: 0 <= i < |ids| ==> Returnable(s, ids[i])
  }

  /** Returns the descriptors, in order. */
  function ReturnAll(s: Store, ids: seq<Id>): (t: Store)
    requires AllReturnable(s, ids)
    ensures t == s.(elements := t.elements, free := t.free, refcount := t.refcount)
    ensures t.free.Keys == s.free.Keys
    ensures forall id :: Returnable(s, id) && id !in ids ==> Returnable(t, id)
    decreases |ids|
  {
    if |ids| == 0 then s
    else
      var n := |ids| - 1;
      assert ids == ids[..n] + [ids[n]];
      Return(ReturnAll(s, ids[..n]), ids[n])
  }

  lemma {:induction false} TakeAllBooked(s: Store, ids: seq<Id>, es: seq<Element>)
    requires Booked(s) && |ids| == |es| && AllAvailable(s, ids) && AllUsable(s, es)
    ensures Booked(TakeAll(s, ids, es)) && TakeAll(s, ids, es).refcount.Keys == s.refcount.Keys
    decreases |ids|
  {
    if |ids| > 0 {
      var n := |ids| - 1;
      TakeAllBooked(s, ids[..n], es[..n]);
      TakeBooked(TakeAll(s, ids[..n], es[..n]), ids[n], es[n]);
    }
  }

  lemma {:induction false} ReturnAllBooked(s: Store, ids: seq<Id>)
    requires Booked(s) && AllReturnable(s, ids)
    ensures Booked(ReturnAll(s, ids)) && ReturnAll(s, ids).refcount.Keys == s.refcount.Keys
    decreases |ids|
  {
    if |ids| > 0 {
      var n := |ids| - 1;
      ReturnAllBooked(s, ids[..n]);
      ReturnBooked(ReturnAll(s, ids[..n]), ids[n]);
    }
  }

  lemma {:induction false} TakeAllElements(s: Store, ids: seq<Id>, es: seq<Element>)
    requires |ids| == |es| && AllAvailable(s, ids)
    ensures forall i :: 0 <= i < |ids| ==>
              ids[i] in TakeAll(s, ids, es).elements && TakeAll(s, ids, es).elements[ids[i]] == es[i]
    ensures forall id :: id !in ids ==>
              (id in TakeAll(s, ids, es).elements <==> id in s.elements) &&
              (id in s.elements ==> TakeAll(s, ids, es).elements[id] == s.elements[id])
    decreases |ids|
  {
    if |ids| > 0 {
      var n := |ids| - 1;
      assert ids == ids[..n] + [ids[n]];
      TakeAllElements(s, ids[..n], es[..n]);
    }
  }

  lemma TakeAllKeys(s: Store, ids: seq<Id>, es: seq<Element>)
    requires |ids| == |es| && AllAvailable(s, ids)
    ensures TakeAll(s, ids, es).elements.Keys == s.elements.Keys + (set id | id in ids)
  {
    TakeAllElements(s, ids, es);
    var t := TakeAll(s, ids, es);
    forall id
      ensures id in t.elements <==> id in s.elements || id in ids
    {
    }
  }

  lemma {:induction false} ReturnAllElements(s: Store, ids: seq<Id>)
    requires AllReturnable(s, ids)
    ensures forall id :: id in ReturnAll(s, ids).elements <==> id in s.elements && id !in ids
    ensures forall id :: id in ReturnAll(s, ids).elements ==> ReturnAll(s, ids).elements[id] == s.elements[id]
    decreases |ids|
  {
    if |ids| > 0 {
      var n := |ids| - 1;
      assert ids == ids[..n] + [ids[n]];
      ReturnAllElements(s, ids[..n]);
    }
  }
}

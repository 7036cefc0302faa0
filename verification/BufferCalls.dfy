/** The calls of the buffer, inventory and DPDK bridge libraries on the store. */
module BufferCalls {
  import opened Collections
  import opened DocaResult
  import opened BufferChains
  import opened BufferStore

  datatype Call =
    | Start(inventory: Inventory)
    | Stop(inventory: Inventory)
    | Get(inventory: Inventory, window: Window, ids: seq<Id>)
    | Duplicate(inventory: Inventory, source: Id, ids: seq<Id>)
    | Convert(from: Pool, inventory: Inventory, segments: seq<Element>, ids: seq<Id>)
    | Increase(buf: Id)
    | Decrease(buf: Id)
    | Chain(list1: Id, list2: Id)
    | Unchain(list1: Id, list2: Id)
    | SetData(buf: Id, data: nat, dataLen: nat)
    | UserRetain(mbuf: Mbuf)
    | UserRelease(mbuf: Mbuf)
    | DestroyInventory(inventory: Inventory)
    | DestroyMempool(from: Pool)

  predicate IsLive(s: Store, id: Id)
  {
    id in s.elements
  }

  predicate IsHead(s: Store, id: Id)
  {
    id in s.chains.lists
  }

  /** The contents of a list, in order. */
  function Contents(s: Store, ids: seq<Id>): (es: seq<Element>)
    requires forall i :: 0 <= i < |ids| ==> ids[i] in s.elements
    ensures |es| == |ids|
  {
    seq(|ids|, i requires 0 <= i < |ids| => s.elements[ids[i]])
  }

  /** All descriptors of an inventory. */
  function Slots(owner: map<Id, Inventory>, v: Inventory): set<Id>
  {
    set id | id in owner && owner[id] == v
  }

  /** How many descriptors a call takes. */
  function Demand(s: Store, c: Call): nat
  {
    match c
    case Get(_, _, _) => 1
    case Duplicate(_, source, _) => if source in s.chains.lists then |s.chains.lists[source]| else 0
    case Convert(_, _, segments, _) => |segments|
    case _ => 0
  }

  /** `ids` are what the allocator of the inventory hands out: the right number of different free
      descriptors of that inventory. */
  ghost predicate Allocated(s: Store, v: Inventory, n: nat, ids: seq<Id>)
  {
    |ids| == n && AllAvailable(s, ids) && forall i :: 0 <= i < |ids| ==> s.owner[ids[i]] == v
  }

  /** What the headers demand of the caller, on pain of undefined behaviour; and that list1 and
      list2 differ when chaining. */
  ghost predicate Allowed(s: Store, c: Call)
  {
    match c
    case Start(v) => v in s.free
    case Stop(v) => v in s.free
    case Get(v, w, ids) => v in s.free && InBounds(w)
    case Duplicate(v, source, ids) => v in s.free && IsLive(s, source)
    case Convert(from, v, segments, ids) =>
      from in s.pools && v in s.started && v in s.free && |segments| > 0 &&
      forall i :: 0 <= i < |segments| ==>
        InBounds(segments[i].window) && segments[i].mbuf.Some? && segments[i].mbuf.value in s.refcount
    case Increase(buf) => IsLive(s, buf)
    case Decrease(buf) => buf in s.owner
    case Chain(list1, list2) => IsHead(s, list1) && IsHead(s, list2) && list1 != list2
    case Unchain(list1, list2) => IsLive(s, list1) && IsLive(s, list2) && list1 != list2
    case SetData(buf, data, dataLen) =>
      IsLive(s, buf) && InBounds(s.elements[buf].window.(data := data, dataLen := dataLen))
    case UserRetain(m) => m in s.users && m in s.refcount
    case UserRelease(m) => m in s.users && m in s.refcount && s.users[m] > 0 && s.refcount[m] > 0
    case DestroyInventory(v) => v in s.free
    case DestroyMempool(p) => p in s.pools
  }

  /** list2 comes after list1 in one list. */
  predicate PartOf(c: Chains, list1: Id, list2: Id)
  {
    list1 in c.at && list2 in c.at && c.at[list1].head == c.at[list2].head && c.at[list1].index < c.at[list2].index
  }

  /** What the call returns. */
  function Answer(s: Store, c: Call): Status
  {
    match c
    case Get(v, _, _) =>
      if v !in s.started || v !in s.free then Refused(BadState)
      else if |s.free[v]| < 1 then Refused(NoMemory) else Done
    case Duplicate(v, source, _) =>
      if v !in s.started || v !in s.free then Refused(BadState)
      else if !IsHead(s, source) then Refused(NotPermitted)
      else if |s.free[v]| < Demand(s, c) then Refused(NoMemory) else Done
    case Convert(from, v, segments, _) =>
      if exists i :: 0 <= i < |segments| && !InPool(s, from, segments[i]) then Refused(InvalidValue)
      else if v !in s.free || |s.free[v]| < |segments| then Refused(NoMemory) else Done
    case Increase(buf) =>
      if !IsHead(s, buf) || buf !in s.refs then Refused(NotPermitted)
      else if s.refs[buf] >= MAX_REFCOUNT then Refused(TooBig) else Done
    case Decrease(buf) =>
      if !IsLive(s, buf) then Refused(BadState) else if !IsHead(s, buf) then Refused(NotPermitted) else Done
    case Chain(_, list2) => if list2 !in s.refs || s.refs[list2] != 1 then Refused(NotPermitted) else Done
    case Unchain(list1, list2) => if !PartOf(s.chains, list1, list2) then Refused(InvalidValue) else Done
    case DestroyInventory(v) =>
      if v in s.free && |s.free[v]| < |Slots(s.owner, v)| then Refused(InUse) else Done
    case DestroyMempool(p) => if PoolInUse(s, p) then Refused(InUse) else Done
    case _ => Done
  }

  /** The library goes by the references that users of an mbuf do not account for. */
  predicate PoolInUse(s: Store, p: Pool)
  {
    exists m :: m in s.pool && s.pool[m] == p && m in s.refcount && m in s.users && s.refcount[m] > s.users[m]
  }

  predicate InPool(s: Store, p: Pool, e: Element)
  {
    e.mbuf.Some? && e.mbuf.value in s.pool && s.pool[e.mbuf.value] == p
  }

  /** A new list of freshly taken descriptors, with one reference. */
  function NewList(s: Store, ids: seq<Id>, es: seq<Element>): Store
    requires |ids| == |es| > 0 && AllAvailable(s, ids)
  {
    TakeAll(s, ids, es).(chains := Added(s.chains, ids), refs := s.refs[ids[0] := 1])
  }

  /** All descriptors of a list go back to their inventories. */
  function Dropped(s: Store, h: Id): Store
    requires h in s.chains.lists && AllReturnable(s, s.chains.lists[h])
  {
    ReturnAll(s, s.chains.lists[h]).(chains := Removed(s.chains, h), refs := s.refs - {h})
  }

  function Appended(s: Store, list1: Id, list2: Id): Store
    requires list1 in s.chains.lists && list2 in s.chains.lists
  {
    s.(chains := Chained(s.chains, list1, list2), refs := s.refs - {list2})
  }

  /** The list headed by `h` is cut before position `k`; the second part has one reference. */
  function Separated(s: Store, h: Id, k: nat): Store
    requires h in s.chains.lists && 0 < k < |s.chains.lists[h]|
  {
    s.(chains := Unchained(s.chains, h, k), refs := s.refs[s.chains.lists[h][k] := 1])
  }

  /** The inventory is gone, and its descriptors with it. */
  function Closed(s: Store, v: Inventory): Store
  {
    s.(free := s.free - {v}, started := s.started - {v},
       owner := map id | id in s.owner && s.owner[id] != v :: s.owner[id])
  }

  function UserHolds(s: Store, m: Mbuf, users: nat, refcount: nat): Store
  {
    s.(users := s.users[m := users], refcount := s.refcount[m := refcount])
  }

  /** What a call that succeeds makes of the store. */
  ghost function After(s: Store, c: Call): Store
    requires Sound(s) && Allowed(s, c) && Answer(s, c) == Done
    requires c.Get? || c.Duplicate? || c.Convert? ==> Allocated(s, c.inventory, Demand(s, c), c.ids)
  {
    match c
    case Start(v) => s.(started := s.started + {v})
    case Stop(v) => s.(started := s.started - {v})
    case Get(_, w, ids) => NewList(s, ids, [Element(w, None)])
    case Duplicate(_, source, ids) =>
      ListIsLive(s, source);
      NewList(s, ids, Contents(s, s.chains.lists[source]))
    case Convert(_, _, segments, ids) => NewList(s, ids, segments)
    case Increase(buf) => s.(refs := s.refs[buf := s.refs[buf] + 1])
    case Decrease(buf) =>
      if s.refs[buf] > 1 then s.(refs := s.refs[buf := s.refs[buf] - 1])
      else ListIsLive(s, buf); Dropped(s, buf)
    case Chain(list1, list2) => Appended(s, list1, list2)
    case Unchain(list1, list2) =>
      PartIsInner(s, list1, list2);
      Separated(s, s.chains.at[list2].head, s.chains.at[list2].index)
    case SetData(buf, data, dataLen) =>
      var e := s.elements[buf];
      s.(elements := s.elements[buf := e.(window := e.window.(data := data, dataLen := dataLen))])
    case UserRetain(m) => UserHolds(s, m, s.users[m] + 1, s.refcount[m] + 1)
    case UserRelease(m) => UserHolds(s, m, s.users[m] - 1, s.refcount[m] - 1)
    case DestroyInventory(v) => Closed(s, v)
    case DestroyMempool(p) => s.(pools := s.pools - {p})
  }

  lemma ListIsLive(s: Store, h: Id)
    requires Shaped(s) && h in s.chains.lists
    ensures h in s.refs && |s.chains.lists[h]| > 0
    ensures forall i :: 0 <= i < |s.chains.lists[h]| ==> s.chains.lists[h][i] in s.elements
    ensures Stocked(s) ==> AllReturnable(s, s.chains.lists[h])
  {
    forall i: nat | i < |s.chains.lists[h]|
      ensures s.chains.lists[h][i] in s.elements
      ensures Stocked(s) ==> Returnable(s, s.chains.lists[h][i])
    {
      assert Sits(s.chains, h, i);
      if Stocked(s) {
        assert StockAt(s, s.chains.lists[h][i]);
      }
    }
    forall i, j | 0 <= i < j < |s.chains.lists[h]|
      ensures s.chains.lists[h][i] != s.chains.lists[h][j]
    {
      assert Sits(s.chains, h, i) && Sits(s.chains, h, j);
    }
  }

  lemma PartIsInner(s: Store, list1: Id, list2: Id)
    requires Shaped(s) && PartOf(s.chains, list1, list2)
    ensures var p := s.chains.at[list2];
            p.head in s.chains.lists && 0 < p.index < |s.chains.lists[p.head]| && s.chains.lists[p.head][p.index] == list2
  {
    assert Seated(s.chains, list2);
  }
}

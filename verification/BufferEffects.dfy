/** What buffer calls do, in terms of the lists, contents and counts that a caller sees. */
module BufferEffects {
  import opened Collections
  import opened DocaResult
  import opened BufferChains
  import opened BufferStore
  import opened BufferCalls
  import opened BufferGuarantees

  /** How many of the elements refer to an mbuf. */
  function OnMbuf(es: seq<Element>, m: Mbuf): nat
  {
    if |es| == 0 then 0
    else OnMbuf(es[..|es| - 1], m) + if es[|es| - 1].mbuf == Some(m) then 1 else 0
  }

  /** The elements of the new descriptors, in order; all other descriptors have what they had. */
  ghost predicate Filled(s: Store, t: Store, ids: seq<Id>, es: seq<Element>)
    requires |ids| == |es|
  {
    && (forall i :: 0 <= i < |ids| ==> ids[i] !in s.elements && ids[i] in t.elements && t.elements[ids[i]] == es[i])
    && (forall id :: id !in ids ==>
          (id in t.elements <==> id in s.elements) && (id in s.elements ==> t.elements[id] == s.elements[id]))
  }

  /** The references that descriptors with these elements add. */
  ghost predicate ReferencesAdded(s: Store, t: Store, es: seq<Element>)
  {
    && t.refcount.Keys == s.refcount.Keys
    && forall m :: m in s.refcount ==> t.refcount[m] == s.refcount[m] + OnMbuf(es, m)
  }

  /** One more list: `ids`, taken from inventory `v`, which holds `es` in order and has one reference. */
  ghost predicate Gained(s: Store, t: Store, v: Inventory, ids: seq<Id>, es: seq<Element>)
  {
    && |ids| == |es| > 0 && Distinct(ids) && v in s.free
    && ids[0] !in s.chains.lists && t.chains.lists == s.chains.lists[ids[0] := ids] && t.refs == s.refs[ids[0] := 1]
    && (forall i :: 0 <= i < |ids| ==> ids[i] in s.free[v])
    && t.free == s.free[v := s.free[v] - Members(ids)]
    && Filled(s, t, ids, es) && ReferencesAdded(s, t, es)
    && t.owner == s.owner && t.started == s.started && t.pools == s.pools && t.pool == s.pool && t.users == s.users
  }

  lemma TakeLast(s: Store, v: Inventory, ids: seq<Id>, es: seq<Element>)
    requires |ids| == |es| > 0 && AllAvailable(s, ids) && s.owner[ids[|ids| - 1]] == v
    ensures var n := |ids| - 1;
            var front := TakeAll(s, ids[..n], es[..n]).free;
            v in front && TakeAll(s, ids, es).free == front[v := front[v] - {ids[n]}]
  {
    assert ids == ids[..|ids| - 1] + [ids[|ids| - 1]];
  }

  lemma {:induction false} TakeAllFree(s: Store, v: Inventory, ids: seq<Id>, es: seq<Element>)
    requires |ids| == |es| && AllAvailable(s, ids) && v in s.free
    requires forall i :: 0 <= i < |ids| ==> s.owner[ids[i]] == v
    ensures TakeAll(s, ids, es).free == s.free[v := s.free[v] - Members(ids)]
    decreases |ids|
  {
    if |ids| == 0 {
      assert s.free[v] - Members(ids) == s.free[v];
    } else {
      var n := |ids| - 1;
      TakeAllFree(s, v, ids[..n], es[..n]);
      TakeLast(s, v, ids, es);
      MembersMore(ids[..n], ids[n]);
      assert ids == ids[..n] + [ids[n]];
      assert s.free[v] - Members(ids) == s.free[v] - Members(ids[..n]) - {ids[n]};
    }
  }

  lemma {:induction false} TakeAllReferences(s: Store, ids: seq<Id>, es: seq<Element>)
    requires |ids| == |es| && AllAvailable(s, ids)
    ensures ReferencesAdded(s, TakeAll(s, ids, es), es)
    decreases |ids|
  {
    if |ids| > 0 {
      var n := |ids| - 1;
      assert ids == ids[..n] + [ids[n]];
      TakeAllReferences(s, ids[..n], es[..n]);
    }
  }

  /** Taking descriptors and linking them gives one more list with the elements in order. */
  lemma NewListGained(s: Store, v: Inventory, ids: seq<Id>, es: seq<Element>)
    requires Sound(s) && |es| > 0 && Allocated(s, v, |es|, ids)
    ensures Gained(s, NewList(s, ids, es), v, ids, es)
  {
    AvailableIsFresh(s, ids);
    NewHeadIsNew(s, ids);
    TakeAllElements(s, ids, es);
    TakeAllFree(s, v, ids, es);
    TakeAllReferences(s, ids, es);
  }

  /** The list and its contents are gone: the descriptors are free in their own inventories again, and
      the references they had on mbufs are given back. */
  ghost predicate Gone(s: Store, t: Store, h: Id)
  {
    && h in s.chains.lists && t.chains.lists == s.chains.lists - {h} && t.refs == s.refs - {h}
    && AllReturnable(s, s.chains.lists[h])
    && (forall id :: id in t.elements <==> id in s.elements && id !in s.chains.lists[h])
    && (forall id :: id in t.elements ==> t.elements[id] == s.elements[id])
    && (forall id :: id in s.chains.lists[h] ==> s.owner[id] in t.free && id in t.free[s.owner[id]])
    && (forall v, id :: v in s.free && id !in s.chains.lists[h] ==> v in t.free && (id in t.free[v] <==> id in s.free[v]))
    && ReferencesAdded(t, s, Contents(s, s.chains.lists[h]))
    && t.owner == s.owner && t.started == s.started && t.pools == s.pools && t.pool == s.pool && t.users == s.users
  }

  /** Those of the descriptors that refer to an mbuf. */
  ghost function HoldersAmong(elements: map<Id, Element>, ids: seq<Id>, m: Mbuf): set<Id>
  {
    set id | id in ids && id in elements && elements[id].mbuf == Some(m)
  }

  lemma HoldersMore(elements: map<Id, Element>, ids: seq<Id>, id: Id, m: Mbuf)
    requires id in elements && id !in ids
    ensures |HoldersAmong(elements, ids + [id], m)|
         == |HoldersAmong(elements, ids, m)| + if elements[id].mbuf == Some(m) then 1 else 0
  {
    if elements[id].mbuf == Some(m) {
      assert HoldersAmong(elements, ids + [id], m) == HoldersAmong(elements, ids, m) + {id};
    } else {
      assert HoldersAmong(elements, ids + [id], m) == HoldersAmong(elements, ids, m);
    }
  }

  lemma {:induction false} OnMbufHolders(elements: map<Id, Element>, ids: seq<Id>, es: seq<Element>, m: Mbuf)
    requires |ids| == |es| && Distinct(ids)
    requires forall i :: 0 <= i < |ids| ==> ids[i] in elements && elements[ids[i]] == es[i]
    ensures |HoldersAmong(elements, ids, m)| == OnMbuf(es, m)
  {
    if |ids| > 0 {
      var n := |ids| - 1;
      OnMbufHolders(elements, ids[..n], es[..n], m);
      HoldersMore(elements, ids[..n], ids[n], m);
      assert ids == ids[..n] + [ids[n]];
    } else {
      assert HoldersAmong(elements, ids, m) == {};
    }
  }

  /** The holders of an mbuf are those left and those that are dropped. */
  lemma HoldersSplit(s: Store, t: Store, ids: seq<Id>, m: Mbuf)
    requires forall id :: id in t.elements <==> id in s.elements && id !in ids
    requires forall id :: id in t.elements ==> t.elements[id] == s.elements[id]
    ensures |Holders(s.elements, m)| == |Holders(t.elements, m)| + |HoldersAmong(s.elements, ids, m)|
  {
    assert Holders(s.elements, m) == Holders(t.elements, m) + HoldersAmong(s.elements, ids, m);
    assert Holders(t.elements, m) !! HoldersAmong(s.elements, ids, m);
  }

  lemma DroppedReferences(s: Store, h: Id)
    requires Sound(s) && h in s.chains.lists && AllReturnable(s, s.chains.lists[h])
    ensures ReferencesAdded(Dropped(s, h), s, Contents(s, s.chains.lists[h]))
  {
    var ids, t := s.chains.lists[h], ReturnAll(s, s.chains.lists[h]);
    ReturnAllElements(s, ids);
    ReturnAllBooked(s, ids);
    forall m | m in s.refcount
      ensures s.refcount[m] == t.refcount[m] + OnMbuf(Contents(s, ids), m)
    {
      assert CountAt(s, m) && CountAt(t, m);
      OnMbufHolders(s.elements, ids, Contents(s, ids), m);
      HoldersSplit(s, t, ids, m);
    }
  }

  lemma DroppedGone(s: Store, h: Id)
    requires Sound(s) && h in s.chains.lists && s.refs[h] == 1 && AllReturnable(s, s.chains.lists[h])
    ensures Gone(s, Dropped(s, h), h)
  {
    DroppedReferences(s, h);
    ReturnAllElements(s, s.chains.lists[h]);
    DroppedShelves(s, h);
  }

  /* The calls. */

  /** A new buffer has the window that was asked for. */
  lemma GetMakes(s: Store, v: Inventory, w: Window, ids: seq<Id>)
    requires Sound(s) && Enabled(s, Get(v, w, ids))
    ensures Gained(s, After(s, Get(v, w, ids)), v, ids, [Element(w, None)])
  {
    NewListGained(s, v, ids, [Element(w, None)]);
  }

  /** The segments of an mbuf become one list, in their order, each with its own metadata and with a
      reference on its mbuf. */
  lemma ConvertMakes(s: Store, from: Pool, v: Inventory, segments: seq<Element>, ids: seq<Id>)
    requires Sound(s) && Enabled(s, Convert(from, v, segments, ids))
    ensures Gained(s, After(s, Convert(from, v, segments, ids)), v, ids, segments)
  {
    NewListGained(s, v, ids, segments);
  }

  /** Building the list is what the call does. */
  lemma ConvertBuilds(s: Store, from: Pool, v: Inventory, segments: seq<Element>, ids: seq<Id>)
    requires Sound(s) && Allowed(s, Convert(from, v, segments, [])) && Answer(s, Convert(from, v, segments, [])) == Done
    requires Allocated(s, v, |segments|, ids)
    ensures Enabled(s, Convert(from, v, segments, ids))
    ensures After(s, Convert(from, v, segments, ids)) == NewList(s, ids, segments)
  {
  }

  lemma DuplicateBuilds(s: Store, v: Inventory, source: Id, ids: seq<Id>)
    requires Sound(s) && v in s.free && v in s.started && source in s.chains.lists && source in s.elements
    requires |s.chains.lists[source]| <= |s.free[v]| && Allocated(s, v, |s.chains.lists[source]|, ids)
    ensures Enabled(s, Duplicate(v, source, ids))
    ensures forall i :: 0 <= i < |s.chains.lists[source]| ==> s.chains.lists[source][i] in s.elements
    ensures |ids| > 0 && After(s, Duplicate(v, source, ids)) == NewList(s, ids, Contents(s, s.chains.lists[source]))
  {
    ListIsLive(s, source);
  }

  /** list1 goes on with list2, and list2 is no list of its own any more. */
  ghost predicate Joined(s: Store, t: Store, list1: Id, list2: Id)
    requires list1 in s.chains.lists && list2 in s.chains.lists
  {
    && t.chains.lists == (s.chains.lists - {list2})[list1 := s.chains.lists[list1] + s.chains.lists[list2]]
    && t == s.(chains := t.chains, refs := s.refs - {list2})
  }

  lemma ChainJoins(s: Store, list1: Id, list2: Id)
    requires Sound(s) && Enabled(s, Chain(list1, list2))
    ensures Joined(s, After(s, Chain(list1, list2)), list1, list2)
  {
  }

  /** The list headed by `h` ends before its element `k`, which heads the rest, with one reference. */
  ghost predicate Parted(s: Store, t: Store, h: Id, k: nat)
    requires h in s.chains.lists && k < |s.chains.lists[h]|
  {
    && t.chains.lists == s.chains.lists[h := s.chains.lists[h][..k]][s.chains.lists[h][k] := s.chains.lists[h][k..]]
    && t == s.(chains := t.chains, refs := s.refs[s.chains.lists[h][k] := 1])
  }

  lemma UnchainParts(s: Store, list1: Id, list2: Id)
    requires Sound(s) && Enabled(s, Unchain(list1, list2))
    ensures var p := s.chains.at[list2];
            && p.head in s.chains.lists && 0 < p.index < |s.chains.lists[p.head]|
            && Parted(s, After(s, Unchain(list1, list2)), p.head, p.index)
  {
    PartIsInner(s, list1, list2);
  }

  /** Only the data window of this descriptor changes. */
  ghost predicate Windowed(s: Store, t: Store, buf: Id, data: nat, dataLen: nat)
    requires buf in s.elements
  {
    var e := s.elements[buf];
    t == s.(elements := s.elements[buf := Element(Window(e.window.head, e.window.len, data, dataLen), e.mbuf)])
  }

  lemma SetDataMoves(s: Store, buf: Id, data: nat, dataLen: nat)
    requires Sound(s) && Enabled(s, SetData(buf, data, dataLen))
    ensures Windowed(s, After(s, SetData(buf, data, dataLen)), buf, data, dataLen)
  {
  }

  /** One more list, as long as the source, each element of which is that of the source. */
  ghost predicate Copied(s: Store, t: Store, v: Inventory, source: Id, ids: seq<Id>)
    requires source in s.chains.lists
  {
    var from := s.chains.lists[source];
    && |ids| == |from| && (forall i :: 0 <= i < |from| ==> from[i] in s.elements)
    && (forall i :: 0 <= i < |from| ==> ids[i] in t.elements && t.elements[ids[i]] == s.elements[from[i]])
    && exists es :: Gained(s, t, v, ids, es)
  }

  lemma GainedCopies(s: Store, t: Store, v: Inventory, source: Id, ids: seq<Id>, es: seq<Element>)
    requires Shaped(s) && source in s.chains.lists && Gained(s, t, v, ids, es)
    requires |es| == |s.chains.lists[source]|
    requires forall i :: 0 <= i < |es| ==>
               s.chains.lists[source][i] in s.elements && es[i] == s.elements[s.chains.lists[source][i]]
    ensures Copied(s, t, v, source, ids)
  {
  }

  /** A duplicate is one more list with the elements of the source, in order. */
  lemma DuplicateMakes(s: Store, v: Inventory, source: Id, ids: seq<Id>)
    requires Sound(s) && Enabled(s, Duplicate(v, source, ids))
    ensures Copied(s, After(s, Duplicate(v, source, ids)), v, source, ids)
  {
    DuplicateBuilds(s, v, source, ids);
    NewListCopies(s, v, source, ids, Contents(s, s.chains.lists[source]));
  }

  lemma NewListCopies(s: Store, v: Inventory, source: Id, ids: seq<Id>, es: seq<Element>)
    requires Sound(s) && source in s.chains.lists && |es| == |s.chains.lists[source]| > 0 && Allocated(s, v, |es|, ids)
    requires forall i :: 0 <= i < |es| ==>
               s.chains.lists[source][i] in s.elements && es[i] == s.elements[s.chains.lists[source][i]]
    ensures Copied(s, NewList(s, ids, es), v, source, ids)
  {
    NewListGained(s, v, ids, es);
    GainedCopies(s, NewList(s, ids, es), v, source, ids, es);
  }

  /** Some descriptor of the inventory is live. */
  ghost predicate SomeoneOf(s: Store, v: Inventory)
  {
    exists id :: id in s.elements && id in s.owner && s.owner[id] == v
  }

  /** The inventory does not exist any more, nor do its descriptors; everything else stays. */
  ghost predicate Vanished(s: Store, t: Store, v: Inventory)
  {
    && t.free == s.free - {v} && t.started == s.started - {v}
    && (forall id :: id in t.owner <==> id in s.owner && s.owner[id] != v)
    && (forall id :: id in t.owner ==> t.owner[id] == s.owner[id])
    && t == s.(free := t.free, started := t.started, owner := t.owner)
  }
}

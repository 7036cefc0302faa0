/** References to buffer lists: who gives and who takes them. */
module BufferReferences {
  import opened Collections
  import opened BufferChains
  import opened BufferStore
  import opened BufferCalls
  import opened BufferGuarantees

  /** The references held on the list headed by `h`; none if there is no such list. */
  function References(s: Store, h: Id): nat
  {
    if h in s.refs then s.refs[h] else 0
  }

  /** A caller gets a reference to `h` from the call that creates its list, by increasing the count,
      and by separating the list that starts at `h`. */
  ghost function Gain(s: Store, c: Call, h: Id): nat
  {
    if !Enabled(s, c) then 0
    else match c
      case Get(_, _, ids) => if |ids| > 0 && ids[0] == h then 1 else 0
      case Duplicate(_, _, ids) => if |ids| > 0 && ids[0] == h then 1 else 0
      case Convert(_, _, _, ids) => if |ids| > 0 && ids[0] == h then 1 else 0
      case Increase(buf) => if buf == h then 1 else 0
      case Unchain(_, list2) => if list2 == h then 1 else 0
      case _ => 0
  }

  /** It gives one up by decreasing the count, and by appending the list to another. */
  ghost function Loss(s: Store, c: Call, h: Id): nat
  {
    if !Enabled(s, c) then 0
    else match c
      case Decrease(buf) => if buf == h then 1 else 0
      case Chain(_, list2) => if list2 == h then 1 else 0
      case _ => 0
  }

  lemma NewListReferences(s: Store, ids: seq<Id>, es: seq<Element>, h: Id)
    requires Sound(s) && |ids| == |es| > 0 && AllAvailable(s, ids)
    ensures References(NewList(s, ids, es), h) == References(s, h) + if ids[0] == h then 1 else 0
  {
    AvailableIsFresh(s, ids);
    NewHeadIsNew(s, ids);
  }

  lemma TakingReferences(s: Store, c: Call, h: Id)
    requires Sound(s) && Enabled(s, c) && (c.Get? || c.Duplicate? || c.Convert?)
    ensures References(After(s, c), h) == References(s, h) + Gain(s, c, h)
  {
    match c
    case Get(_, w, ids) => NewListReferences(s, ids, [Element(w, None)], h);
    case Duplicate(_, source, ids) =>
      ListIsLive(s, source);
      NewListReferences(s, ids, Contents(s, s.chains.lists[source]), h);
    case Convert(_, _, segments, ids) => NewListReferences(s, ids, segments, h);
  }

  lemma UnchainReferences(s: Store, c: Call, h: Id)
    requires Sound(s) && Enabled(s, c) && c.Unchain?
    ensures References(After(s, c), h) == References(s, h) + Gain(s, c, h)
  {
    PartIsInner(s, c.list1, c.list2);
    InnerIsNoHead(s.chains, s.chains.at[c.list2].head, s.chains.at[c.list2].index);
  }

  lemma DecreaseReferences(s: Store, c: Call, h: Id)
    requires Sound(s) && Enabled(s, c) && c.Decrease?
    ensures References(After(s, c), h) + Loss(s, c, h) == References(s, h)
  {
    ListIsLive(s, c.buf);
  }

  lemma StepReferences(s: Store, c: Call, h: Id)
    requires Sound(s)
    ensures References(Step(s, c), h) + Loss(s, c, h) == References(s, h) + Gain(s, c, h)
  {
    if Enabled(s, c) {
      if c.Get? || c.Duplicate? || c.Convert? {
        TakingReferences(s, c, h);
      } else if c.Unchain? {
        UnchainReferences(s, c, h);
      } else if c.Decrease? {
        DecreaseReferences(s, c, h);
      }
    }
  }

  ghost function Gains(s: Store, calls: seq<Call>, h: Id): nat
    requires Sound(s)
    decreases |calls|
  {
    if |calls| == 0 then 0
    else
      var n := |calls| - 1;
      Gains(s, calls[..n], h) + Gain(Run(s, calls[..n]), calls[n], h)
  }

  ghost function Losses(s: Store, calls: seq<Call>, h: Id): nat
    requires Sound(s)
    decreases |calls|
  {
    if |calls| == 0 then 0
    else
      var n := |calls| - 1;
      Losses(s, calls[..n], h) + Loss(Run(s, calls[..n]), calls[n], h)
  }

  /** After any run the references on a list are those gained minus those lost; so a descriptor heads
      a live list exactly as long as some reference to it has not been given up. */
  lemma {:induction false} ReferencesAddUp(s: Store, calls: seq<Call>, h: Id)
    requires Sound(s)
    ensures References(Run(s, calls), h) + Losses(s, calls, h) == References(s, h) + Gains(s, calls, h)
    ensures h in Run(s, calls).chains.lists <==> References(s, h) + Gains(s, calls, h) > Losses(s, calls, h)
    decreases |calls|
  {
    if |calls| > 0 {
      var n := |calls| - 1;
      ReferencesAddUp(s, calls[..n], h);
      StepReferences(Run(s, calls[..n]), calls[n], h);
    }
    HeadsHaveReferences(Run(s, calls), h);
  }

  lemma HeadsHaveReferences(s: Store, h: Id)
    requires Sound(s)
    ensures h in s.chains.lists <==> References(s, h) > 0
  {
  }

  /* Giving up a new list. */

  /** What is free and how often mbufs are referenced follows from the live descriptors. */
  lemma BooksDetermined(s: Store, t: Store)
    requires Booked(s) && Booked(t) && t.elements == s.elements && t.owner == s.owner && t.users == s.users
    requires t.free.Keys == s.free.Keys && t.refcount.Keys == s.refcount.Keys
    ensures t.free == s.free && t.refcount == s.refcount
  {
    forall v | v in s.free
      ensures t.free[v] == s.free[v]
    {
      forall id
        ensures id in t.free[v] <==> id in s.free[v]
      {
        assert ShelfAt(s, v, id) && ShelfAt(t, v, id) && StockAt(s, id) && StockAt(t, id);
      }
    }
    forall m | m in s.refcount
      ensures t.refcount[m] == s.refcount[m]
    {
      assert CountAt(s, m) && CountAt(t, m);
    }
  }

  lemma NewListReturnable(s: Store, ids: seq<Id>, es: seq<Element>)
    requires Sound(s) && |ids| == |es| > 0 && AllAvailable(s, ids) && AllUsable(s, es)
    ensures var t := NewList(s, ids, es);
            Sound(t) && ids[0] in t.chains.lists && t.chains.lists[ids[0]] == ids && t.refs[ids[0]] == 1 && AllReturnable(t, ids)
  {
    NewListSound(s, ids, es);
    NewListHolds(s, ids, es);
    ListIsLive(NewList(s, ids, es), ids[0]);
  }

  lemma DroppedElements(s: Store, ids: seq<Id>, es: seq<Element>)
    requires Sound(s) && |ids| == |es| > 0 && AllAvailable(s, ids)
    requires ids[0] in NewList(s, ids, es).chains.lists && NewList(s, ids, es).chains.lists[ids[0]] == ids
    requires AllReturnable(NewList(s, ids, es), ids)
    ensures Dropped(NewList(s, ids, es), ids[0]).elements == s.elements
  {
    var t := NewList(s, ids, es);
    TakeAllElements(s, ids, es);
    ReturnAllElements(t, ids);
    AvailableIsFresh(s, ids);
  }

  lemma DroppedChains(s: Store, ids: seq<Id>, es: seq<Element>)
    requires Shaped(s) && Stocked(s) && |ids| == |es| > 0 && AllAvailable(s, ids)
    requires ids[0] in NewList(s, ids, es).chains.lists && NewList(s, ids, es).chains.lists[ids[0]] == ids
    requires AllReturnable(NewList(s, ids, es), ids)
    ensures Dropped(NewList(s, ids, es), ids[0]).chains == s.chains && Dropped(NewList(s, ids, es), ids[0]).refs == s.refs
  {
    AvailableIsFresh(s, ids);
    RemoveUndoesAdd(s.chains, ids);
    NewHeadIsNew(s, ids);
    DroppedParts(NewList(s, ids, es), ids[0]);
    assert s.refs[ids[0] := 1] - {ids[0]} == s.refs;
  }

  lemma DroppedParts(s: Store, h: Id)
    requires h in s.chains.lists && AllReturnable(s, s.chains.lists[h])
    ensures Dropped(s, h).chains == Removed(s.chains, h) && Dropped(s, h).refs == s.refs - {h}
  {
  }

  lemma DroppedBooks(s: Store, ids: seq<Id>, es: seq<Element>)
    requires Sound(s) && |ids| == |es| > 0 && AllAvailable(s, ids) && AllUsable(s, es)
    requires Sound(NewList(s, ids, es)) && AllReturnable(NewList(s, ids, es), ids)
    ensures Dropped(NewList(s, ids, es), ids[0]) == s.(
              chains := Dropped(NewList(s, ids, es), ids[0]).chains, refs := Dropped(NewList(s, ids, es), ids[0]).refs)
  {
    var t := NewList(s, ids, es);
    DroppedElements(s, ids, es);
    TakeAllBooked(s, ids, es);
    ReturnAllBooked(t, ids);
    BooksDetermined(s, ReturnAll(t, ids));
  }

  /** Dropping a list that was just made gives back the whole store. */
  lemma DropUndoesNew(s: Store, ids: seq<Id>, es: seq<Element>)
    requires Sound(s) && |ids| == |es| > 0 && AllAvailable(s, ids) && AllUsable(s, es)
    ensures var t := NewList(s, ids, es);
            ids[0] in t.chains.lists && AllReturnable(t, t.chains.lists[ids[0]]) && Dropped(t, ids[0]) == s
  {
    NewListReturnable(s, ids, es);
    DroppedChains(s, ids, es);
    DroppedBooks(s, ids, es);
  }

  lemma DecreaseIsDrop(s: Store, h: Id)
    requires Sound(s) && h in s.chains.lists && s.refs[h] == 1
    ensures Enabled(s, Decrease(h)) && AllReturnable(s, s.chains.lists[h]) && After(s, Decrease(h)) == Dropped(s, h)
  {
    ListIsLive(s, h);
    HeadIsFirst(s.chains, h);
    assert Sits(s.chains, h, 0);
    assert StockAt(s, h);
  }

  /** Giving up the only reference to what a call has just made undoes the call: the descriptors are
      free again and the mbufs have the references they had. */
  lemma ReleaseUndoesTaking(s: Store, c: Call)
    requires Sound(s) && Enabled(s, c) && (c.Get? || c.Duplicate? || c.Convert?)
    ensures |c.ids| > 0 && Sound(After(s, c)) && Enabled(After(s, c), Decrease(c.ids[0]))
    ensures After(After(s, c), Decrease(c.ids[0])) == s
  {
    match c
    case Get(_, w, ids) => ReleaseUndoes(s, c, [Element(w, None)]);
    case Duplicate(_, source, ids) =>
      ListIsLive(s, source);
      ContentsUsable(s, s.chains.lists[source]);
      ReleaseUndoes(s, c, Contents(s, s.chains.lists[source]));
    case Convert(_, _, segments, ids) =>
      SegmentsUsable(s, c);
      ReleaseUndoes(s, c, segments);
  }

  lemma ReleaseUndoes(s: Store, c: Call, es: seq<Element>)
    requires Sound(s) && Enabled(s, c) && (c.Get? || c.Duplicate? || c.Convert?)
    requires |c.ids| == |es| > 0 && AllUsable(s, es) && After(s, c) == NewList(s, c.ids, es)
    ensures Sound(After(s, c)) && Enabled(After(s, c), Decrease(c.ids[0]))
    ensures After(After(s, c), Decrease(c.ids[0])) == s
  {
    NewListReturnable(s, c.ids, es);
    DropUndoesNew(s, c.ids, es);
    DecreaseIsDrop(NewList(s, c.ids, es), c.ids[0]);
  }
}

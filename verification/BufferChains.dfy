/** Disjoint lists of buffer descriptors, each list keyed by its head. */
module BufferChains {
  import opened Collections

  type Id = nat

  datatype Position = Position(head: Id, index: nat)

  /** `at` tells for every descriptor in a list where it is. */
  datatype Chains = Chains(lists: map<Id, seq<Id>>, at: map<Id, Position>)

  ghost predicate HeadsFirst(c: Chains)
  {
    forall h :: h in c.lists ==> |c.lists[h]| > 0 && c.lists[h][0] == h
  }

  ghost predicate Sits(c: Chains, h: Id, i: nat)
    requires h in c.lists && i < |c.lists[h]|
  {
    c.lists[h][i] in c.at && c.at[c.lists[h][i]] == Position(h, i)
  }

  ghost predicate AllSit(c: Chains)
  {
    forall h, i: nat :: h in c.lists && i < |c.lists[h]| ==> Sits(c, h, i)
  }

  predicate Seated(c: Chains, id: Id)
    requires id in c.at
  {
    var p := c.at[id];
    p.head in c.lists && p.index < |c.lists[p.head]| && c.lists[p.head][p.index] == id
  }

  ghost predicate AllSeated(c: Chains)
  {
    forall id :: id in c.at ==> Seated(c, id)
  }

  /** Every descriptor is in one place of one list; so lists are acyclic and disjoint. */
  ghost predicate Valid(c: Chains)
  {
    HeadsFirst(c) && AllSit(c) && AllSeated(c)
  }

  lemma OnePlace(c: Chains, g: Id, i: nat, h: Id, j: nat)
    requires Valid(c) && g in c.lists && i < |c.lists[g]| && h in c.lists && j < |c.lists[h]|
    requires c.lists[g][i] == c.lists[h][j]
    ensures g == h && i == j
  {
    assert Sits(c, g, i) && Sits(c, h, j);
  }

  /** A descriptor heads a list exactly when it is the first of the list it is in. */
  lemma HeadIsFirst(c: Chains, id: Id)
    requires Valid(c)
    ensures id in c.lists <==> id in c.at && c.at[id].index == 0
  {
    if id in c.lists {
      assert Sits(c, id, 0);
    } else if id in c.at {
      assert Seated(c, id);
    }
  }

  /* A new list. */

  function Seats(ids: seq<Id>, h: Id, first: nat): (m: map<Id, Position>)
    decreases |ids|
  {
    if |ids| == 0 then map[]
    else Seats(ids[..|ids| - 1], h, first)[ids[|ids| - 1] := Position(h, first + |ids| - 1)]
  }

  lemma {:induction false} SeatsOf(ids: seq<Id>, h: Id, first: nat)
    requires Distinct(ids)
    ensures forall i :: 0 <= i < |ids| ==> ids[i] in Seats(ids, h, first) && Seats(ids, h, first)[ids[i]] == Position(h, first + i)
    ensures forall id :: id in Seats(ids, h, first) ==>
              var p := Seats(ids, h, first)[id]; first <= p.index < first + |ids| && p.head == h && ids[p.index - first] == id
    decreases |ids|
  {
    if |ids| > 0 {
      SeatsOf(ids[..|ids| - 1], h, first);
    }
  }

  function Added(c: Chains, ids: seq<Id>): Chains
    requires |ids| > 0
  {
    Chains(c.lists[ids[0] := ids], c.at + Seats(ids, ids[0], 0))
  }

  ghost predicate Fresh(c: Chains, ids: seq<Id>)
  {
    Distinct(ids) && forall i :: 0 <= i < |ids| ==> ids[i] !in c.at
  }

  lemma AddedValid(c: Chains, ids: seq<Id>)
    requires Valid(c) && |ids| > 0 && Fresh(c, ids)
    ensures Valid(Added(c, ids)) && ids[0] !in c.lists
    ensures Added(c, ids).at.Keys == c.at.Keys + (set id | id in ids)
  {
    var t := Added(c, ids);
    SeatsOf(ids, ids[0], 0);
    HeadIsFirst(c, ids[0]);
    forall h, i: nat | h in t.lists && i < |t.lists[h]|
      ensures Sits(t, h, i)
    {
      if h != ids[0] {
        assert Sits(c, h, i);
        assert c.lists[h][i] !in ids;
      }
    }
    forall id | id in t.at
      ensures Seated(t, id)
    {
      if id !in Seats(ids, ids[0], 0) {
        assert Seated(c, id);
      }
    }
  }

  /* Removing a list. */

  function Removed(c: Chains, h: Id): Chains
    requires h in c.lists
  {
    Chains(c.lists - {h}, map id | id in c.at && c.at[id].head != h :: c.at[id])
  }

  lemma RemovedValid(c: Chains, h: Id)
    requires Valid(c) && h in c.lists
    ensures Valid(Removed(c, h))
    ensures forall id :: id in Removed(c, h).at <==> id in c.at && id !in c.lists[h]
  {
    var t := Removed(c, h);
    forall g, i: nat | g in t.lists && i < |t.lists[g]|
      ensures Sits(t, g, i)
    {
      assert Sits(c, g, i);
    }
    forall id | id in t.at
      ensures Seated(t, id)
    {
      assert Seated(c, id);
    }
    forall id
      ensures id in t.at <==> id in c.at && id !in c.lists[h]
    {
      InList(c, h, id);
    }
  }

  lemma InList(c: Chains, h: Id, id: Id)
    requires Valid(c) && h in c.lists
    ensures id in c.lists[h] <==> id in c.at && c.at[id].head == h
  {
    if id in c.lists[h] {
      var i :| 0 <= i < |c.lists[h]| && c.lists[h][i] == id;
      assert Sits(c, h, i);
    }
    if id in c.at && c.at[id].head == h {
      assert Seated(c, id);
    }
  }

  /** Where descriptors are follows from the lists. */
  lemma ChainsDetermined(c: Chains, d: Chains)
    requires Valid(c) && Valid(d) && d.lists == c.lists
    ensures d == c
  {
    forall id
      ensures (id in c.at <==> id in d.at) && (id in c.at ==> d.at[id] == c.at[id])
    {
      if id in c.at {
        assert Seated(c, id);
        assert Sits(d, c.at[id].head, c.at[id].index);
      }
      if id in d.at {
        assert Seated(d, id);
        assert Sits(c, d.at[id].head, d.at[id].index);
      }
    }
  }

  /** Removing a list that was just added gives back the lists there were. */
  lemma RemoveUndoesAdd(c: Chains, ids: seq<Id>)
    requires Valid(c) && |ids| > 0 && Fresh(c, ids)
    ensures Removed(Added(c, ids), ids[0]) == c
  {
    AddedValid(c, ids);
    RemovedValid(Added(c, ids), ids[0]);
    assert Removed(Added(c, ids), ids[0]).lists == c.lists;
    ChainsDetermined(c, Removed(Added(c, ids), ids[0]));
  }

  /* Chaining. */

  /** The positions of the descriptors of `from` move by `shift` to list `to`. */
  function Moved(at: map<Id, Position>, from: Id, to: Id, shift: nat): map<Id, Position>
  {
    map id | id in at :: if at[id].head == from then Position(to, at[id].index + shift) else at[id]
  }

  /** list2 is appended to list1. */
  function Chained(c: Chains, list1: Id, list2: Id): Chains
    requires list1 in c.lists && list2 in c.lists
  {
    Chains((c.lists - {list2})[list1 := c.lists[list1] + c.lists[list2]],
           Moved(c.at, list2, list1, |c.lists[list1]|))
  }

  lemma ChainedValid(c: Chains, list1: Id, list2: Id)
    requires Valid(c) && list1 in c.lists && list2 in c.lists && list1 != list2
    ensures Valid(Chained(c, list1, list2)) && Chained(c, list1, list2).at.Keys == c.at.Keys
  {
    var t := Chained(c, list1, list2);
    var n := |c.lists[list1]|;
    forall h, i: nat | h in t.lists && i < |t.lists[h]|
      ensures Sits(t, h, i)
    {
      if h == list1 && i >= n {
        assert Sits(c, list2, i - n);
      } else {
        assert Sits(c, h, i);
      }
    }
    forall id | id in t.at
      ensures Seated(t, id)
    {
      assert Seated(c, id);
    }
  }

  /** The positions from `k` on of list `h` move to a list of their own. */
  function Split(at: map<Id, Position>, h: Id, k: nat, to: Id): map<Id, Position>
  {
    map id | id in at :: if at[id].head == h && at[id].index >= k then Position(to, at[id].index - k) else at[id]
  }

  /** The list is cut before position k. */
  function Unchained(c: Chains, h: Id, k: nat): Chains
    requires h in c.lists && 0 < k < |c.lists[h]|
  {
    var list2 := c.lists[h][k];
    Chains(c.lists[h := c.lists[h][..k]][list2 := c.lists[h][k..]], Split(c.at, h, k, list2))
  }

  lemma InnerIsNoHead(c: Chains, h: Id, k: nat)
    requires Valid(c) && h in c.lists && 0 < k < |c.lists[h]|
    ensures c.lists[h][k] !in c.lists && c.lists[h][k] != h
  {
    HeadIsFirst(c, c.lists[h][k]);
    assert Sits(c, h, k);
    assert Sits(c, h, 0);
  }

  lemma UnchainedValid(c: Chains, h: Id, k: nat)
    requires Valid(c) && h in c.lists && 0 < k < |c.lists[h]|
    ensures Valid(Unchained(c, h, k)) && Unchained(c, h, k).at.Keys == c.at.Keys
  {
    var t := Unchained(c, h, k);
    var list2 := c.lists[h][k];
    InnerIsNoHead(c, h, k);
    forall g, i: nat | g in t.lists && i < |t.lists[g]|
      ensures Sits(t, g, i)
    {
      if g == list2 {
        assert Sits(c, h, k + i);
      } else {
        assert Sits(c, g, i);
      }
    }
    forall id | id in t.at
      ensures Seated(t, id)
    {
      assert Seated(c, id);
    }
  }

  /* Chaining and unchaining undo each other. */

  lemma UnchainUndoesChain(c: Chains, list1: Id, list2: Id)
    requires Valid(c) && list1 in c.lists && list2 in c.lists && list1 != list2
    ensures var t := Chained(c, list1, list2);
            var k := |c.lists[list1]|;
            0 < k < |t.lists[list1]| && t.lists[list1][k] == list2 && Unchained(t, list1, k) == c
  {
    var a, b := c.lists[list1], c.lists[list2];
    var t := Chained(c, list1, list2);
    var u := Unchained(t, list1, |a|);
    assert (a + b)[|a|..] == b && (a + b)[..|a|] == a;
    assert u.lists == c.lists;
    forall id | id in c.at
      ensures u.at[id] == c.at[id]
    {
      assert Seated(c, id);
    }
    assert u.at == c.at;
  }

  lemma ChainUndoesUnchain(c: Chains, h: Id, k: nat)
    requires Valid(c) && h in c.lists && 0 < k < |c.lists[h]|
    ensures var t := Unchained(c, h, k);
            var list2 := c.lists[h][k];
            h in t.lists && list2 in t.lists && h != list2 && Chained(t, h, list2) == c
  {
    var all := c.lists[h];
    var t := Unchained(c, h, k);
    InnerIsNoHead(c, h, k);
    var u := Chained(t, h, all[k]);
    assert all[..k] + all[k..] == all;
    assert u.lists == c.lists;
    forall id | id in c.at
      ensures u.at[id] == c.at[id]
    {
      assert Seated(c, id);
    }
    assert u.at == c.at;
  }
}

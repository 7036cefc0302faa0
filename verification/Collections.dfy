/** Notions about collections that several models share. */
module Collections {

  datatype Option<+T> = None | Some(value: T)

  ghost predicate Distinct<T(!new)>(s: seq<T>)
  {
    forall i, j :: 0 <= i < j < |s| ==> s[i] != s[j]
  }

  /** A sequence without repetition is as long as the set of its elements is large. */
  lemma {:induction false} DistinctLength<T(!new)>(l: seq<T>, s: set<T>)
    requires Distinct(l) && forall x :: x in l <==> x in s
    ensures |l| == |s|
  {
    if |l| == 0 {
      assert s == {};
    } else {
      var n := |l| - 1;
      assert l == l[..n] + [l[n]];
      DistinctLength(l[..n], s - {l[n]});
    }
  }

  function Interval(lo: nat, hi: nat): (r: set<nat>)
    requires lo <= hi
    ensures |r| == hi - lo && forall i: nat :: i in r <==> lo <= i < hi
    decreases hi
  {
    if lo == hi then {} else Interval(lo, hi - 1) + {hi - 1}
  }

  function Members<T>(s: seq<T>): set<T>
  {
    set x | x in s
  }

  lemma MembersMore<T>(s: seq<T>, x: T)
    ensures Members(s + [x]) == Members(s) + {x}
  {
  }
}

/** Vectors and matrices over a Galois field, and Gaussian elimination.

    A vector is a sequence of elements; a matrix is a sequence of rows of equal length. */
module LinearAlgebra {
  import opened Collections
  import opened GaloisField

  function Dot<F>(f: Field<F>, u: seq<F>, v: seq<F>): F
    requires |u| == |v|
  {
    if |u| == 0 then f.zero else f.add(f.mul(u[0], v[0]), Dot(f, u[1..], v[1..]))
  }

  function Plus<F>(f: Field<F>, u: seq<F>, v: seq<F>): (w: seq<F>)
    requires |u| == |v|
    ensures |w| == |u|
  {
    seq(|u|, i requires 0 <= i < |u| => f.add(u[i], v[i]))
  }

  function Scale<F>(f: Field<F>, c: F, v: seq<F>): (w: seq<F>)
    ensures |w| == |v|
  {
    seq(|v|, i requires 0 <= i < |v| => f.mul(c, v[i]))
  }

  function Zeros<F>(f: Field<F>, n: nat): (w: seq<F>)
    ensures |w| == n
  {
    seq(n, _ => f.zero)
  }

  function Unit<F>(f: Field<F>, n: nat, i: nat): (w: seq<F>)
    ensures |w| == n
  {
    seq(n, c => if c == i then f.one else f.zero)
  }

  predicate IsMatrix<F>(rows: seq<seq<F>>, n: nat)
  {
    forall c :: 0 <= c < |rows| ==> |rows[c]| == n
  }

  /** The matrix-vector product. */
  function Times<F>(f: Field<F>, rows: seq<seq<F>>, v: seq<F>): (w: seq<F>)
    requires IsMatrix(rows, |v|)
    ensures |w| == |rows|
  {
    seq(|rows|, c requires 0 <= c < |rows| => Dot(f, rows[c], v))
  }

  /** The linear combination of the rows with the given coefficients. */
  function Combine<F>(f: Field<F>, r: seq<F>, rows: seq<seq<F>>, n: nat): (w: seq<F>)
    requires |r| == |rows| && IsMatrix(rows, n)
    ensures |w| == n
  {
    if |r| == 0 then Zeros(f, n)
    else Plus(f, Scale(f, r[0], rows[0]), Combine(f, r[1..], rows[1..], n))
  }

  /* Laws of the scalar product. */

  lemma {:induction false} DotCommutes<F(!new)>(f: Field<F>, u: seq<F>, v: seq<F>)
    requires IsField(f) && |u| == |v|
    ensures Dot(f, u, v) == Dot(f, v, u)
  {
    if |u| > 0 {
      MulCommutes(f, u[0], v[0]);
      DotCommutes(f, u[1..], v[1..]);
    }
  }

  lemma {:induction false} DotZeros<F(!new)>(f: Field<F>, u: seq<F>)
    requires IsField(f)
    ensures Dot(f, u, Zeros(f, |u|)) == f.zero
    ensures Dot(f, Zeros(f, |u|), u) == f.zero
  {
    if |u| > 0 {
      assert Zeros(f, |u|)[1..] == Zeros(f, |u| - 1);
      MulZero(f, u[0]);
      AddZero(f, f.zero);
      DotZeros(f, u[1..]);
    }
  }

  lemma {:induction false} DotPlus<F(!new)>(f: Field<F>, u: seq<F>, v: seq<F>, w: seq<F>)
    requires IsField(f) && |u| == |v| == |w|
    ensures Dot(f, Plus(f, u, v), w) == f.add(Dot(f, u, w), Dot(f, v, w))
  {
    if |u| == 0 {
      AddZero(f, f.zero);
    } else {
      assert Plus(f, u, v)[1..] == Plus(f, u[1..], v[1..]);
      DotPlus(f, u[1..], v[1..], w[1..]);
      MulDistributes(f, w[0], u[0], v[0]);
      AddSwap(f, f.mul(u[0], w[0]), f.mul(v[0], w[0]), Dot(f, u[1..], w[1..]), Dot(f, v[1..], w[1..]));
    }
  }

  lemma {:induction false} DotScale<F(!new)>(f: Field<F>, c: F, u: seq<F>, w: seq<F>)
    requires IsField(f) && |u| == |w|
    ensures Dot(f, Scale(f, c, u), w) == f.mul(c, Dot(f, u, w))
  {
    if |u| == 0 {
      MulZero(f, c);
    } else {
      assert Scale(f, c, u)[1..] == Scale(f, c, u[1..]);
      DotScale(f, c, u[1..], w[1..]);
      MulAssociates(f, c, u[0], w[0]);
      MulDistributes(f, c, f.mul(u[0], w[0]), Dot(f, u[1..], w[1..]));
    }
  }

  /** The unit vector selects a coordinate. */
  lemma {:induction false} DotUnit<F(!new)>(f: Field<F>, i: nat, v: seq<F>)
    requires IsField(f) && i < |v|
    ensures Dot(f, Unit(f, |v|, i), v) == v[i]
  {
    MulOne(f, v[0]);
    MulZero(f, v[0]);
    if i == 0 {
      assert Unit(f, |v|, 0)[1..] == Zeros(f, |v| - 1);
      DotZeros(f, v[1..]);
    } else {
      assert Unit(f, |v|, i)[1..] == Unit(f, |v| - 1, i - 1);
      DotUnit(f, i - 1, v[1..]);
    }
    AddZero(f, v[i]);
  }

  /** Combining the rows first, or combining their products with `v`, is the same. */
  lemma {:induction false} DotOfCombination<F(!new)>(f: Field<F>, r: seq<F>, rows: seq<seq<F>>, v: seq<F>)
    requires IsField(f) && |r| == |rows| && IsMatrix(rows, |v|)
    ensures Dot(f, r, Times(f, rows, v)) == Dot(f, Combine(f, r, rows, |v|), v)
  {
    if |r| == 0 {
      DotZeros(f, v);
    } else {
      assert Times(f, rows, v)[1..] == Times(f, rows[1..], v);
      DotOfCombination(f, r[1..], rows[1..], v);
      DotPlus(f, Scale(f, r[0], rows[0]), Combine(f, r[1..], rows[1..], |v|), v);
      DotScale(f, r[0], rows[0], v);
    }
  }

  /** A row may be pulled out of the middle of a combination. */
  lemma {:induction false} CombineInsert<F(!new)>(
      f: Field<F>, r: seq<F>, x: F, rows: seq<seq<F>>, p: nat, n: nat)
    requires IsField(f) && p < |rows| == |r| + 1 && IsMatrix(rows, n)
    ensures IsMatrix(rows[..p] + rows[p + 1..], n)
    ensures Combine(f, r[..p] + [x] + r[p..], rows, n)
         == Plus(f, Scale(f, x, rows[p]), Combine(f, r, rows[..p] + rows[p + 1..], n))
  {
    var all := r[..p] + [x] + r[p..];
    var others := rows[..p] + rows[p + 1..];
    if p == 0 {
      assert all[1..] == r && others == rows[1..];
    } else {
      assert all[1..] == r[1..][..p - 1] + [x] + r[1..][p - 1..];
      assert others[1..] == rows[1..][..p - 1] + rows[1..][p..];
      CombineInsert(f, r[1..], x, rows[1..], p - 1, n);
      var a, b, c := Scale(f, r[0], rows[0]), Scale(f, x, rows[p]), Combine(f, r[1..], others[1..], n);
      forall i | 0 <= i < n
        ensures f.add(a[i], f.add(b[i], c[i])) == f.add(b[i], f.add(a[i], c[i]))
      {
        AddAssociates(f, a[i], b[i], c[i]);
        AddCommutes(f, a[i], b[i]);
        AddAssociates(f, b[i], a[i], c[i]);
      }
      assert Plus(f, a, Plus(f, b, c)) == Plus(f, b, Plus(f, a, c));
    }
  }

  /* One elimination step. */

  /** Clears the first coordinate of `row` with the pivot row and drops it. */
  function Reduce<F>(f: Field<F>, row: seq<F>, pivot: seq<F>): (w: seq<F>)
    requires |row| == |pivot| > 0
    ensures |w| == |row| - 1
  {
    var q := f.mul(row[0], f.inv(pivot[0]));
    Plus(f, row[1..], Scale(f, q, pivot[1..]))
  }

  function ReduceAll<F>(f: Field<F>, rows: seq<seq<F>>, pivot: seq<F>): (w: seq<seq<F>>)
    requires |pivot| > 0 && IsMatrix(rows, |pivot|)
    ensures |w| == |rows| && IsMatrix(w, |pivot| - 1)
  {
    seq(|rows|, c requires 0 <= c < |rows| => Reduce(f, rows[c], pivot))
  }

  /** Reduction is linear. */
  lemma ReduceLinear<F(!new)>(f: Field<F>, x: F, u: seq<F>, v: seq<F>, pivot: seq<F>)
    requires IsField(f) && |u| == |v| == |pivot| > 0
    ensures Reduce(f, Plus(f, Scale(f, x, u), v), pivot)
         == Plus(f, Scale(f, x, Reduce(f, u, pivot)), Reduce(f, v, pivot))
  {
    var d := f.inv(pivot[0]);
    var sum := Plus(f, Scale(f, x, u), v);
    forall i | 0 <= i < |u| - 1
      ensures Reduce(f, sum, pivot)[i]
           == f.add(f.mul(x, Reduce(f, u, pivot)[i]), Reduce(f, v, pivot)[i])
    {
      var p := pivot[i + 1];
      var qu, qv := f.mul(u[0], d), f.mul(v[0], d);
      MulDistributes(f, d, f.mul(x, u[0]), v[0]);
      MulAssociates(f, x, u[0], d);
      MulDistributes(f, p, f.mul(x, qu), qv);
      MulAssociates(f, x, qu, p);
      AddSwap(f, f.mul(x, u[i + 1]), v[i + 1], f.mul(x, f.mul(qu, p)), f.mul(qv, p));
      MulDistributes(f, x, u[i + 1], f.mul(qu, p));
    }
  }

  lemma {:induction false} ReduceCombination<F(!new)>(
      f: Field<F>, r: seq<F>, rows: seq<seq<F>>, pivot: seq<F>)
    requires IsField(f) && |r| == |rows| && |pivot| > 0 && IsMatrix(rows, |pivot|)
    ensures Combine(f, r, ReduceAll(f, rows, pivot), |pivot| - 1)
         == Reduce(f, Combine(f, r, rows, |pivot|), pivot)
  {
    var n := |pivot|;
    if |r| == 0 {
      forall i | 0 <= i < n - 1
        ensures Reduce(f, Zeros(f, n), pivot)[i] == f.zero
      {
        MulZero(f, f.inv(pivot[0]));
        MulZero(f, pivot[i + 1]);
        AddZero(f, f.zero);
      }
      assert Reduce(f, Zeros(f, n), pivot) == Zeros(f, n - 1);
    } else {
      assert ReduceAll(f, rows, pivot)[1..] == ReduceAll(f, rows[1..], pivot);
      ReduceCombination(f, r[1..], rows[1..], pivot);
      ReduceLinear(f, r[0], rows[0], Combine(f, r[1..], rows[1..], n), pivot);
    }
  }

  /** The pivot row itself reduces to nothing. */
  lemma ReducePivot<F(!new)>(f: Field<F>, pivot: seq<F>)
    requires IsField(f) && |pivot| > 0 && pivot[0] != f.zero
    ensures Reduce(f, pivot, pivot) == Zeros(f, |pivot| - 1)
  {
    MulInverse(f, pivot[0]);
    forall i | 0 <= i < |pivot| - 1
      ensures Reduce(f, pivot, pivot)[i] == f.zero
    {
      MulOne(f, pivot[i + 1]);
      AddSelf(f, pivot[i + 1]);
    }
  }

  /** Reduction forgets only the first coordinate. */
  lemma ReduceInjective<F(!new)>(f: Field<F>, u: seq<F>, v: seq<F>, pivot: seq<F>)
    requires IsField(f) && |u| == |v| == |pivot| > 0
    requires u[0] == v[0] && Reduce(f, u, pivot) == Reduce(f, v, pivot)
    ensures u == v
  {
    forall i | 1 <= i < |u|
      ensures u[i] == v[i]
    {
      var q := f.mul(f.mul(u[0], f.inv(pivot[0])), pivot[i]);
      assert Reduce(f, u, pivot)[i - 1] == f.add(u[i], q);
      assert Reduce(f, v, pivot)[i - 1] == f.add(v[i], q);
      AddCancels(f, u[i], q);
      AddCancels(f, v[i], q);
    }
  }

  /** On the hyperplane of the pivot row, a row and its reduction take the same values. */
  lemma DotReduce<F(!new)>(f: Field<F>, row: seq<F>, pivot: seq<F>, v: seq<F>)
    requires IsField(f) && |row| == |pivot| == |v| > 0 && pivot[0] != f.zero
    requires Dot(f, pivot, v) == f.zero
    ensures Dot(f, Reduce(f, row, pivot), v[1..]) == Dot(f, row, v)
  {
    var q := f.mul(row[0], f.inv(pivot[0]));
    var sum := Plus(f, row, Scale(f, q, pivot));
    DotPlus(f, row, Scale(f, q, pivot), v);
    DotScale(f, q, pivot, v);
    MulZero(f, q);
    AddZero(f, Dot(f, row, v));
    assert Dot(f, sum, v) == Dot(f, row, v);
    MulCancels(f, pivot[0], row[0]);
    AddSelf(f, row[0]);
    MulZero(f, v[0]);
    assert sum[1..] == Reduce(f, row, pivot);
    AddZero(f, Dot(f, sum[1..], v[1..]));
  }

  /* Gaussian elimination. */

  /** The index of the first row with a nonzero first coordinate, or the number of rows. */
  function FindPivot<F(==)>(f: Field<F>, rows: seq<seq<F>>): (p: nat)
    requires forall c :: 0 <= c < |rows| ==> |rows[c]| > 0
    ensures p <= |rows|
    ensures p < |rows| ==> rows[p][0] != f.zero
    ensures forall c :: 0 <= c < p ==> rows[c][0] == f.zero
  {
    if |rows| == 0 || rows[0][0] != f.zero then 0 else 1 + FindPivot(f, rows[1..])
  }

  /** Writes `target` as a combination of the rows of a square matrix: `None` when elimination
      runs out of pivots. */
  function Solve<F(==)>(f: Field<F>, rows: seq<seq<F>>, target: seq<F>): (r: Option<seq<F>>)
    requires |rows| == |target| && IsMatrix(rows, |target|)
    ensures r.Some? ==> |r.value| == |rows|
    decreases |rows|
  {
    if |rows| == 0 then Some([])
    else
      var p := FindPivot(f, rows);
      if p == |rows| then None
      else
        var pivot := rows[p];
        var others := rows[..p] + rows[p + 1..];
        match Solve(f, ReduceAll(f, others, pivot), Reduce(f, target, pivot))
        case None => None
        case Some(r) =>
          var first := Combine(f, r, others, |target|)[0];
          var x := f.mul(f.add(target[0], first), f.inv(pivot[0]));
          Some(r[..p] + [x] + r[p..])
  }

  /** The coefficients that elimination finds do combine to the target. */
  lemma {:induction false} SolveSound<F(!new)>(f: Field<F>, rows: seq<seq<F>>, target: seq<F>)
    requires IsField(f) && |rows| == |target| && IsMatrix(rows, |target|)
    ensures Solve(f, rows, target).Some?
        ==> Combine(f, Solve(f, rows, target).value, rows, |target|) == target
    decreases |rows|
  {
    if |rows| > 0 && Solve(f, rows, target).Some? {
      var p := FindPivot(f, rows);
      var pivot, others := rows[p], rows[..p] + rows[p + 1..];
      var n := |target|;
      var r := Solve(f, ReduceAll(f, others, pivot), Reduce(f, target, pivot)).value;
      SolveSound(f, ReduceAll(f, others, pivot), Reduce(f, target, pivot));
      var rest := Combine(f, r, others, n);
      ReduceCombination(f, r, others, pivot);
      var x := f.mul(f.add(target[0], rest[0]), f.inv(pivot[0]));
      var sum := Plus(f, Scale(f, x, pivot), rest);
      CombineInsert(f, r, x, rows, p, n);
      SolveStep(f, pivot, rest, target, x);
    }
  }

  lemma SolveStep<F(!new)>(f: Field<F>, pivot: seq<F>, rest: seq<F>, target: seq<F>, x: F)
    requires IsField(f) && |pivot| == |rest| == |target| > 0 && pivot[0] != f.zero
    requires Reduce(f, rest, pivot) == Reduce(f, target, pivot)
    requires x == f.mul(f.add(target[0], rest[0]), f.inv(pivot[0]))
    ensures Plus(f, Scale(f, x, pivot), rest) == target
  {
    var sum := Plus(f, Scale(f, x, pivot), rest);
    MulCancels(f, pivot[0], f.add(target[0], rest[0]));
    AddCancels(f, target[0], rest[0]);
    assert sum[0] == target[0];
    ReduceLinear(f, x, pivot, rest, pivot);
    ReducePivot(f, pivot);
    var n := |pivot| - 1;
    forall i | 0 <= i < n
      ensures Reduce(f, sum, pivot)[i] == Reduce(f, rest, pivot)[i]
    {
      MulZero(f, x);
      AddZero(f, Reduce(f, rest, pivot)[i]);
    }
    assert Reduce(f, sum, pivot) == Reduce(f, rest, pivot);
    ReduceInjective(f, sum, target, pivot);
  }

  /* When elimination succeeds. */

  /** `v` is annihilated by every row. */
  ghost predicate Annihilated<F>(f: Field<F>, rows: seq<seq<F>>, v: seq<F>)
  {
    IsMatrix(rows, |v|) && forall c :: 0 <= c < |rows| ==> Dot(f, rows[c], v) == f.zero
  }

  /** Only the zero vector is annihilated. */
  ghost predicate Nonsingular<F(!new)>(f: Field<F>, rows: seq<seq<F>>, n: nat)
  {
    forall v: seq<F> :: |v| == n && Annihilated(f, rows, v) ==> v == Zeros(f, n)
  }

  /** A vector that the rows and the pivot annihilate stays annihilated after reduction. */
  lemma ReduceAnnihilated<F(!new)>(f: Field<F>, rows: seq<seq<F>>, pivot: seq<F>, v: seq<F>)
    requires IsField(f) && |pivot| == |v| > 0 && pivot[0] != f.zero
    requires Annihilated(f, rows, v) && Dot(f, pivot, v) == f.zero
    ensures Annihilated(f, ReduceAll(f, rows, pivot), v[1..])
  {
    forall c | 0 <= c < |rows|
      ensures Dot(f, ReduceAll(f, rows, pivot)[c], v[1..]) == f.zero
    {
      DotReduce(f, rows[c], pivot, v);
    }
  }

  lemma FirstIsZero<F(!new)>(f: Field<F>, pivot: seq<F>, v: seq<F>)
    requires IsField(f) && |pivot| == |v| > 0 && pivot[0] != f.zero
    requires Dot(f, pivot, v) == f.zero && v[1..] == Zeros(f, |v| - 1)
    ensures v == Zeros(f, |v|)
  {
    DotZeros(f, pivot[1..]);
    AddZero(f, f.mul(pivot[0], v[0]));
    MulToZero(f, pivot[0], v[0]);
  }

  lemma OthersAnnihilated<F>(f: Field<F>, rows: seq<seq<F>>, p: nat, v: seq<F>)
    requires p < |rows| && IsMatrix(rows, |v|) && Annihilated(f, rows, v)
    ensures IsMatrix(rows[..p] + rows[p + 1..], |v|) && Annihilated(f, rows[..p] + rows[p + 1..], v)
  {
    var others := rows[..p] + rows[p + 1..];
    forall c | 0 <= c < |others|
      ensures |others[c]| == |v| && Dot(f, others[c], v) == f.zero
    {
      assert others[c] == rows[if c < p then c else c + 1];
    }
  }

  /** If elimination succeeds, for any one target, the matrix is nonsingular. */
  lemma {:induction false} SolvedIsNonsingular<F(!new)>(
      f: Field<F>, rows: seq<seq<F>>, target: seq<F>, v: seq<F>)
    requires IsField(f) && |rows| == |target| == |v| && IsMatrix(rows, |target|)
    requires Solve(f, rows, target).Some? && Annihilated(f, rows, v)
    ensures v == Zeros(f, |v|)
    decreases |rows|
  {
    if |rows| > 0 {
      var p := FindPivot(f, rows);
      var pivot, others := rows[p], rows[..p] + rows[p + 1..];
      var reduced := ReduceAll(f, others, pivot);
      OthersAnnihilated(f, rows, p, v);
      ReduceAnnihilated(f, others, pivot, v);
      SolvedIsNonsingular(f, reduced, Reduce(f, target, pivot), v[1..]);
      FirstIsZero(f, pivot, v);
    }
  }

  /** Without a pivot the first column is zero. */
  lemma NoPivot<F(!new)>(f: Field<F>, rows: seq<seq<F>>, v: seq<F>)
    requires IsField(f) && |rows| > 0 && IsMatrix(rows, |rows|) && v == Unit(f, |rows|, 0)
    requires forall c :: 0 <= c < |rows| ==> rows[c][0] == f.zero
    ensures Annihilated(f, rows, v) && v != Zeros(f, |rows|)
  {
    assert v[0] != Zeros(f, |rows|)[0];
    forall c | 0 <= c < |rows|
      ensures Dot(f, rows[c], v) == f.zero
    {
      DotCommutes(f, rows[c], v);
      DotUnit(f, 0, rows[c]);
    }
  }

  /** The vector with the given tail that the pivot row annihilates. */
  function WithFirst<F>(f: Field<F>, pivot: seq<F>, tail: seq<F>): (v: seq<F>)
    requires |pivot| == |tail| + 1
    ensures |v| == |pivot|
  {
    [f.mul(f.inv(pivot[0]), Dot(f, pivot[1..], tail))] + tail
  }

  lemma PivotAnnihilates<F(!new)>(f: Field<F>, pivot: seq<F>, tail: seq<F>)
    requires IsField(f) && |pivot| == |tail| + 1 && pivot[0] != f.zero
    ensures Dot(f, pivot, WithFirst(f, pivot, tail)) == f.zero
  {
    var v, s := WithFirst(f, pivot, tail), Dot(f, pivot[1..], tail);
    assert v[1..] == tail;
    MulCancels(f, pivot[0], s);
    AddSelf(f, s);
  }

  /** A vector that the reduced rows annihilate extends to one that all rows annihilate. */
  lemma LiftAnnihilated<F(!new)>(f: Field<F>, rows: seq<seq<F>>, p: nat, tail: seq<F>)
    requires IsField(f) && p < |rows| && IsMatrix(rows, |tail| + 1) && rows[p][0] != f.zero
    requires Annihilated(f, ReduceAll(f, rows[..p] + rows[p + 1..], rows[p]), tail)
    ensures Annihilated(f, rows, WithFirst(f, rows[p], tail))
  {
    var pivot, others := rows[p], rows[..p] + rows[p + 1..];
    var v, reduced := WithFirst(f, pivot, tail), ReduceAll(f, others, pivot);
    PivotAnnihilates(f, pivot, tail);
    forall c | 0 <= c < |rows|
      ensures Dot(f, rows[c], v) == f.zero
    {
      if c != p {
        var d := if c < p then c else c - 1;
        assert others[d] == rows[c];
        assert v[1..] == tail && Dot(f, reduced[d], tail) == f.zero;
        DotReduce(f, rows[c], pivot, v);
      }
    }
  }

  /** If elimination fails, it does so because some nonzero vector is annihilated. */
  lemma {:induction false} UnsolvedIsSingular<F(!new)>(
      f: Field<F>, rows: seq<seq<F>>, target: seq<F>) returns (v: seq<F>)
    requires IsField(f) && |rows| == |target| && IsMatrix(rows, |target|)
    requires Solve(f, rows, target).None?
    ensures |v| == |rows| && Annihilated(f, rows, v) && v != Zeros(f, |v|)
    decreases |rows|
  {
    var p := FindPivot(f, rows);
    if p == |rows| {
      v := Unit(f, |rows|, 0);
      NoPivot(f, rows, v);
    } else {
      var reduced := ReduceAll(f, rows[..p] + rows[p + 1..], rows[p]);
      var tail := UnsolvedIsSingular(f, reduced, Reduce(f, target, rows[p]));
      v := WithFirst(f, rows[p], tail);
      LiftAnnihilated(f, rows, p, tail);
      assert v[1..] == tail;
      assert Zeros(f, |rows|)[1..] == Zeros(f, |tail|);
    }
  }

  /** Elimination succeeds exactly on the nonsingular matrices, whatever the target. */
  lemma SolveComplete<F(!new)>(f: Field<F>, rows: seq<seq<F>>, target: seq<F>)
    requires IsField(f) && |rows| == |target| && IsMatrix(rows, |target|)
    ensures Solve(f, rows, target).Some? <==> Nonsingular(f, rows, |rows|)
  {
    if Solve(f, rows, target).Some? {
      forall v: seq<F> | |v| == |rows| && Annihilated(f, rows, v)
        ensures v == Zeros(f, |rows|)
      {
        SolvedIsNonsingular(f, rows, target, v);
      }
    } else {
      var v := UnsolvedIsSingular(f, rows, target);
    }
  }
}

/** Coding matrices and the create, update and recover tasks of the erasure coding library.

    A block is a sequence of field elements and every block of a stripe has the same length.  A
    matrix keeps one row of coefficients per output block: `rows[j][i]` is the coefficient a_i_j
    of input block i in output block j. */
module ErasureCoding {
  import opened GaloisField
  import opened LinearAlgebra
  import opened DocaResult

  datatype MatrixType = Cauchy | Vandermonde

  datatype Matrix<F> = Matrix(inputs: nat, rows: seq<seq<F>>)

  ghost predicate WellFormed<F>(m: Matrix<F>)
  {
    IsMatrix(m.rows, m.inputs)
  }

  predicate Ascending(s: seq<nat>)
  {
    forall i, j :: 0 <= i < j < |s| ==> s[i] < s[j]
  }

  predicate Below(s: seq<nat>, n: nat)
  {
    forall i :: 0 <= i < |s| ==> s[i] < n
  }

  function Pick<T>(s: seq<T>, indices: seq<nat>): (r: seq<T>)
    requires Below(indices, |s|)
    ensures |r| == |indices|
  {
    seq(|indices|, i requires 0 <= i < |indices| => s[indices[i]])
  }

  /* Blocks. */

  predicate AreBlocks<F>(blocks: seq<seq<F>>, length: nat)
  {
    IsMatrix(blocks, length)
  }

  /** The elements at one position of all blocks. */
  function Column<F>(blocks: seq<seq<F>>, p: nat): (v: seq<F>)
    requires forall i :: 0 <= i < |blocks| ==> p < |blocks[i]|
    ensures |v| == |blocks|
  {
    seq(|blocks|, i requires 0 <= i < |blocks| => blocks[i][p])
  }

  /** What every task computes: output block j is the combination of the input blocks by row j. */
  function Apply<F>(f: Field<F>, m: Matrix<F>, blocks: seq<seq<F>>, length: nat): (out: seq<seq<F>>)
    requires WellFormed(m) && |blocks| == m.inputs && AreBlocks(blocks, length)
    ensures |out| == |m.rows| && AreBlocks(out, length)
  {
    seq(|m.rows|, j requires 0 <= j < |m.rows| =>
      seq(length, p requires 0 <= p < length => Dot(f, m.rows[j], Column(blocks, p))))
  }

  /* Coding matrices. */

  function CauchyMatrix<F>(f: Field<F>, k: nat, m: nat): (r: Matrix<F>)
    ensures WellFormed(r) && r.inputs == k && |r.rows| == m
  {
    Matrix(k, seq(m, j requires 0 <= j < m =>
      seq(k, i requires 0 <= i < k => f.inv(f.add(f.code(i), f.code(j + k))))))
  }

  function VandermondeMatrix<F>(f: Field<F>, k: nat, m: nat): (r: Matrix<F>)
    ensures WellFormed(r) && r.inputs == k && |r.rows| == m
  {
    Matrix(k, seq(m, j requires 0 <= j < m =>
      seq(k, i requires 0 <= i < k => Power(f, f.code(i + 1), j))))
  }

  /** `doca_ec_matrix_create`.  There are only 256 codes, so more blocks are invalid input. */
  function CreateMatrix<F>(f: Field<F>, kind: MatrixType, k: nat, m: nat): (r: Result<Matrix<F>>)
    ensures r.Success? <==> k + m <= 256
    ensures r.Failure? ==> r.error == InvalidValue
    ensures r.Success? ==> WellFormed(r.value) && r.value.inputs == k && |r.value.rows| == m
  {
    if k + m > 256 then Failure(InvalidValue)
    else match kind
      case Cauchy => Success(CauchyMatrix(f, k, m))
      case Vandermonde => Success(VandermondeMatrix(f, k, m))
  }

  /* Sparse vectors. */

  /** One term may be taken out of a scalar product. */
  lemma {:induction false} DotTakeOut<F(!new)>(f: Field<F>, u: seq<F>, v: seq<F>, i: nat)
    requires IsField(f) && |u| == |v| && i < |u|
    ensures Dot(f, u, v) == f.add(f.mul(u[i], v[i]), Dot(f, u, v[i := f.zero]))
  {
    var w := v[i := f.zero];
    if i == 0 {
      assert w[1..] == v[1..];
      MulZero(f, u[0]);
      AddZero(f, Dot(f, u[1..], v[1..]));
    } else {
      assert w[1..] == v[1..][i - 1 := f.zero];
      DotTakeOut(f, u[1..], v[1..], i - 1);
      var a, b, c := f.mul(u[0], v[0]), f.mul(u[i], v[i]), Dot(f, u[1..], w[1..]);
      AddAssociates(f, a, b, c);
      AddCommutes(f, a, b);
      AddAssociates(f, b, a, c);
    }
  }

  ghost predicate ZeroOutside<F>(f: Field<F>, v: seq<F>, indices: seq<nat>)
  {
    forall i :: 0 <= i < |v| && i !in indices ==> v[i] == f.zero
  }

  /** A vector that vanishes outside `indices` only meets the coefficients there. */
  lemma {:induction false} DotSparse<F(!new)>(f: Field<F>, u: seq<F>, v: seq<F>, indices: seq<nat>)
    requires IsField(f) && |u| == |v| && Below(indices, |u|) && Ascending(indices)
    requires ZeroOutside(f, v, indices)
    ensures Dot(f, u, v) == Dot(f, Pick(u, indices), Pick(v, indices))
    decreases |indices|
  {
    if |indices| == 0 {
      assert v == Zeros(f, |u|);
      DotZeros(f, u);
    } else {
      var i, rest := indices[0], indices[1..];
      var w := v[i := f.zero];
      DotTakeOut(f, u, v, i);
      assert Pick(u, indices)[1..] == Pick(u, rest);
      assert Pick(v, indices)[1..] == Pick(w, rest);
      forall c | 0 <= c < |w| && c !in rest
        ensures w[c] == f.zero
      {
        if c in indices {
          assert c == i;
        }
      }
      DotSparse(f, u, w, rest);
    }
  }

  /* Update. */

  /** Every chosen coefficient twice, once for the old block and once for the new one. */
  function Twice<T>(s: seq<T>, indices: seq<nat>): (r: seq<T>)
    requires Below(indices, |s|)
    ensures |r| == 2 * |indices|
  {
    if |indices| == 0 then []
    else [s[indices[0]], s[indices[0]]] + Twice(s, indices[1..])
  }

  /** `doca_ec_matrix_create_update`. */
  function CreateUpdate<F>(f: Field<F>, m: Matrix<F>, updates: seq<nat>): (r: Result<Matrix<F>>)
    requires WellFormed(m)
    ensures r.Success? <==> Ascending(updates) && Below(updates, m.inputs)
    ensures r.Failure? ==> r.error == InvalidValue
    ensures r.Success? ==> WellFormed(r.value) && |r.value.rows| == |m.rows|
    ensures r.Success? ==> r.value.inputs == 2 * |updates| + |m.rows|
  {
    if Ascending(updates) && Below(updates, m.inputs) then
      Success(Matrix(2 * |updates| + |m.rows|,
                     seq(|m.rows|, j requires 0 <= j < |m.rows| =>
                       Twice(m.rows[j], updates) + Unit(f, |m.rows|, j))))
    else Failure(InvalidValue)
  }

  /** beforei, afteri, beforej, afterj, ... */
  function Interleave<T>(before: seq<T>, after: seq<T>, updates: seq<nat>): (r: seq<T>)
    requires |before| == |after| && Below(updates, |before|)
    ensures |r| == 2 * |updates|
  {
    if |updates| == 0 then []
    else [before[updates[0]], after[updates[0]]] + Interleave(before, after, updates[1..])
  }

  lemma {:induction false} InterleaveBlocks<F>(
      before: seq<seq<F>>, after: seq<seq<F>>, updates: seq<nat>, length: nat)
    requires |before| == |after| && Below(updates, |before|)
    requires AreBlocks(before, length) && AreBlocks(after, length)
    ensures AreBlocks(Interleave(before, after, updates), length)
  {
    if |updates| > 0 {
      InterleaveBlocks(before, after, updates[1..], length);
    }
  }

  lemma {:induction false} ColumnInterleave<F>(
      before: seq<seq<F>>, after: seq<seq<F>>, updates: seq<nat>, length: nat, p: nat)
    requires |before| == |after| && Below(updates, |before|) && p < length
    requires AreBlocks(before, length) && AreBlocks(after, length)
    requires AreBlocks(Interleave(before, after, updates), length)
    ensures Column(Interleave(before, after, updates), p)
         == Interleave(Column(before, p), Column(after, p), updates)
  {
    if |updates| > 0 {
      var rest := Interleave(before, after, updates[1..]);
      InterleaveBlocks(before, after, updates[1..], length);
      ColumnInterleave(before, after, updates[1..], length, p);
      var u := updates[0];
      assert Column([before[u], after[u]] + rest, p) == [before[u][p], after[u][p]] + Column(rest, p);
    }
  }

  /** The paired old and new elements contribute the change of the chosen coordinates. */
  lemma {:induction false} DotPairs<F(!new)>(f: Field<F>, row: seq<F>, a: seq<F>, b: seq<F>, updates: seq<nat>)
    requires IsField(f) && |row| == |a| == |b| && Below(updates, |row|)
    ensures Dot(f, Twice(row, updates), Interleave(a, b, updates))
         == Dot(f, Pick(row, updates), Pick(Plus(f, a, b), updates))
  {
    if |updates| > 0 {
      var u, rest := updates[0], updates[1..];
      DotPairs(f, row, a, b, rest);
      var x, tail := row[u], Dot(f, Twice(row, rest), Interleave(a, b, rest));
      var t, n := Twice(row, updates), Interleave(a, b, updates);
      assert t[1..] == [x] + Twice(row, rest) && t[1..][1..] == Twice(row, rest);
      assert n[1..] == [b[u]] + Interleave(a, b, rest) && n[1..][1..] == Interleave(a, b, rest);
      assert Dot(f, t, n) == f.add(f.mul(x, a[u]), f.add(f.mul(x, b[u]), tail));
      AddAssociates(f, f.mul(x, a[u]), f.mul(x, b[u]), tail);
      MulDistributes(f, x, a[u], b[u]);
      assert Pick(row, updates)[1..] == Pick(row, rest);
      assert Pick(Plus(f, a, b), updates)[1..] == Pick(Plus(f, a, b), rest);
    }
  }

  lemma {:induction false} DotConcat<F(!new)>(f: Field<F>, u: seq<F>, v: seq<F>, a: seq<F>, b: seq<F>)
    requires IsField(f) && |u| == |a| && |v| == |b|
    ensures Dot(f, u + v, a + b) == f.add(Dot(f, u, a), Dot(f, v, b))
  {
    if |u| == 0 {
      assert u + v == v && a + b == b;
      AddZero(f, Dot(f, v, b));
    } else {
      assert (u + v)[1..] == u[1..] + v && (a + b)[1..] == a[1..] + b;
      DotConcat(f, u[1..], v, a[1..], b);
      AddAssociates(f, f.mul(u[0], a[0]), Dot(f, u[1..], a[1..]), Dot(f, v, b));
    }
  }

  /** The element-wise form of the update law. */
  lemma UpdateElement<F(!new)>(
      f: Field<F>, row: seq<F>, a: seq<F>, b: seq<F>, updates: seq<nat>, parity: seq<F>, j: nat)
    requires IsField(f) && |row| == |a| == |b| && Below(updates, |row|) && Ascending(updates)
    requires forall i :: 0 <= i < |a| && i !in updates ==> a[i] == b[i]
    requires j < |parity| && parity[j] == Dot(f, row, a)
    ensures Dot(f, Twice(row, updates) + Unit(f, |parity|, j), Interleave(a, b, updates) + parity)
         == Dot(f, row, b)
  {
    var change := Plus(f, a, b);
    forall i | 0 <= i < |change| && i !in updates
      ensures change[i] == f.zero
    {
      AddSelf(f, a[i]);
    }
    DotConcat(f, Twice(row, updates), Unit(f, |parity|, j), Interleave(a, b, updates), parity);
    DotUnit(f, j, parity);
    DotPairs(f, row, a, b, updates);
    DotSparse(f, row, change, updates);
    DotCommutes(f, row, change);
    DotPlus(f, a, b, row);
    DotCommutes(f, a, row);
    DotCommutes(f, b, row);
    AddCommutes(f, Dot(f, row, a), Dot(f, row, b));
    AddCancels(f, Dot(f, row, b), Dot(f, row, a));
  }

  /** Updating the redundancy of a stripe gives what encoding the new data from scratch gives,
      for every coding matrix and every ascending set of updated blocks. */
  lemma UpdateEqualsReencode<F(!new)>(
      f: Field<F>, m: Matrix<F>, updates: seq<nat>, before: seq<seq<F>>, after: seq<seq<F>>, length: nat)
    requires IsField(f) && WellFormed(m) && CreateUpdate(f, m, updates).Success?
    requires |before| == |after| == m.inputs && AreBlocks(before, length) && AreBlocks(after, length)
    requires forall i :: 0 <= i < |before| && i !in updates ==> before[i] == after[i]
    ensures AreBlocks(Interleave(before, after, updates), length)
    ensures Apply(f, CreateUpdate(f, m, updates).value,
                  Interleave(before, after, updates) + Apply(f, m, before, length), length)
         == Apply(f, m, after, length)
  {
    InterleaveBlocks(before, after, updates, length);
    var u := CreateUpdate(f, m, updates).value;
    var parity := Apply(f, m, before, length);
    var input := Interleave(before, after, updates) + parity;
    var out := Apply(f, u, input, length);
    forall j, p | 0 <= j < |m.rows| && 0 <= p < length
      ensures out[j][p] == Apply(f, m, after, length)[j][p]
    {
      ColumnInterleave(before, after, updates, length, p);
      var a, b := Column(before, p), Column(after, p);
      assert Column(input, p) == Interleave(a, b, updates) + Column(parity, p);
      UpdateElement(f, m.rows[j], a, b, updates, Column(parity, p), j);
    }
    forall j | 0 <= j < |m.rows|
      ensures out[j] == Apply(f, m, after, length)[j]
    {
    }
  }

  /* Recover. */

  lemma SomeBelow(missing: seq<nat>, n: nat)
    requires Below(missing, n)
    ensures |missing| > 0 ==> n > 0
  {
    if |missing| > 0 {
      assert missing[0] < n;
    }
  }

  /** The indices below `n` that are not missing, in ascending order. */
  function Remaining(n: nat, missing: seq<nat>): (r: seq<nat>)
    requires Ascending(missing) && Below(missing, n)
    ensures |r| + |missing| == n
    ensures Below(r, n)
  {
    SomeBelow(missing, n);
    if n == 0 then []
    else if |missing| > 0 && missing[|missing| - 1] == n - 1 then Remaining(n - 1, missing[..|missing| - 1])
    else Remaining(n - 1, missing) + [n - 1]
  }

  lemma {:induction false} RemainingComplement(n: nat, missing: seq<nat>)
    requires Ascending(missing) && Below(missing, n)
    ensures forall i :: 0 <= i < n ==> (i in Remaining(n, missing) <==> i !in missing)
  {
    if n > 0 {
      if |missing| > 0 && missing[|missing| - 1] == n - 1 {
        var rest := missing[..|missing| - 1];
        RemainingComplement(n - 1, rest);
        assert missing == rest + [n - 1];
        assert n - 1 !in Remaining(n - 1, rest);
      } else {
        RemainingComplement(n - 1, missing);
        assert n - 1 !in missing;
      }
    }
  }

  /** How the available blocks depend on the data: surviving data blocks first, then the chosen
      redundancy blocks. */
  function AvailableRows<F>(f: Field<F>, m: Matrix<F>, missing: seq<nat>, chosen: seq<nat>): (r: seq<seq<F>>)
    requires WellFormed(m) && Ascending(missing) && Below(missing, m.inputs) && Below(chosen, |m.rows|)
    ensures IsMatrix(r, m.inputs) && |r| == m.inputs - |missing| + |chosen|
  {
    var remaining := Remaining(m.inputs, missing);
    seq(|remaining|, i requires 0 <= i < |remaining| => Unit(f, m.inputs, remaining[i])) + Pick(m.rows, chosen)
  }

  predicate RecoverArguments<F>(m: Matrix<F>, missing: seq<nat>, chosen: seq<nat>)
  {
    && Ascending(missing) && Below(missing, m.inputs)
    && Ascending(chosen) && Below(chosen, |m.rows|)
    && |chosen| == |missing|
  }

  /** `doca_ec_matrix_create_recover`: one row per missing block, found by elimination.  Which
      redundancy blocks will be supplied is made explicit as `chosen`. */
  function CreateRecover<F(==)>(f: Field<F>, m: Matrix<F>, missing: seq<nat>, chosen: seq<nat>): (r: Result<Matrix<F>>)
    requires WellFormed(m)
    ensures r.Success? ==> RecoverArguments(m, missing, chosen)
    ensures r.Failure? ==> r.error == InvalidValue
    ensures r.Success? ==> WellFormed(r.value) && r.value.inputs == m.inputs && |r.value.rows| == |missing|
  {
    if !RecoverArguments(m, missing, chosen) then Failure(InvalidValue)
    else
      var rows := AvailableRows(f, m, missing, chosen);
      if exists q :: 0 <= q < |missing| && Solve(f, rows, Unit(f, m.inputs, missing[q])).None?
      then Failure(InvalidValue)
      else Success(Matrix(m.inputs, seq(|missing|, q requires 0 <= q < |missing| =>
                     Solve(f, rows, Unit(f, m.inputs, missing[q])).value)))
  }

  function AvailableBlocks<T>(data: seq<T>, parity: seq<T>, missing: seq<nat>, chosen: seq<nat>): (r: seq<T>)
    requires Ascending(missing) && Below(missing, |data|) && Below(chosen, |parity|)
    ensures |r| == |data| - |missing| + |chosen|
  {
    Pick(data, Remaining(|data|, missing)) + Pick(parity, chosen)
  }

  /** One position of the available blocks is the available rows applied to the data there. */
  lemma AvailableColumn<F(!new)>(
      f: Field<F>, m: Matrix<F>, missing: seq<nat>, chosen: seq<nat>, data: seq<seq<F>>, length: nat, p: nat)
    requires IsField(f) && WellFormed(m) && RecoverArguments(m, missing, chosen)
    requires |data| == m.inputs && AreBlocks(data, length) && p < length
    ensures var blocks := AvailableBlocks(data, Apply(f, m, data, length), missing, chosen);
            AreBlocks(blocks, length) &&
            Column(blocks, p) == Times(f, AvailableRows(f, m, missing, chosen), Column(data, p))
  {
    var parity := Apply(f, m, data, length);
    var blocks := AvailableBlocks(data, parity, missing, chosen);
    var rows := AvailableRows(f, m, missing, chosen);
    var remaining := Remaining(m.inputs, missing);
    var column := Column(data, p);
    forall c | 0 <= c < |blocks|
      ensures |blocks[c]| == length && blocks[c][p] == Dot(f, rows[c], column)
    {
      if c < |remaining| {
        DotUnit(f, remaining[c], column);
      }
    }
  }

  /** A recover matrix, once created, rebuilds exactly the missing blocks, in order. */
  lemma RecoverInvertsEncode<F(!new)>(
      f: Field<F>, m: Matrix<F>, missing: seq<nat>, chosen: seq<nat>, data: seq<seq<F>>, length: nat)
    requires IsField(f) && WellFormed(m) && |data| == m.inputs && AreBlocks(data, length)
    requires CreateRecover(f, m, missing, chosen).Success?
    ensures var blocks := AvailableBlocks(data, Apply(f, m, data, length), missing, chosen);
            AreBlocks(blocks, length) &&
            Apply(f, CreateRecover(f, m, missing, chosen).value, blocks, length) == Pick(data, missing)
  {
    var recover := CreateRecover(f, m, missing, chosen).value;
    var rows := AvailableRows(f, m, missing, chosen);
    var blocks := AvailableBlocks(data, Apply(f, m, data, length), missing, chosen);
    AvailableAreBlocks(f, m, missing, chosen, data, length);
    var out := Apply(f, recover, blocks, length);
    forall q, p | 0 <= q < |missing| && 0 <= p < length
      ensures out[q][p] == data[missing[q]][p]
    {
      var column := Column(data, p);
      AvailableColumn(f, m, missing, chosen, data, length, p);
      SolveSound(f, rows, Unit(f, m.inputs, missing[q]));
      DotOfCombination(f, recover.rows[q], rows, column);
      DotUnit(f, missing[q], column);
    }
    forall q | 0 <= q < |missing|
      ensures out[q] == data[missing[q]]
    {
    }
  }

  lemma AvailableAreBlocks<F>(
      f: Field<F>, m: Matrix<F>, missing: seq<nat>, chosen: seq<nat>, data: seq<seq<F>>, length: nat)
    requires WellFormed(m) && RecoverArguments(m, missing, chosen)
    requires |data| == m.inputs && AreBlocks(data, length)
    ensures AreBlocks(AvailableBlocks(data, Apply(f, m, data, length), missing, chosen), length)
  {
  }

  /* When a recover matrix exists. */

  /** The square sub-matrix of the missing inputs and the chosen outputs. */
  function SubMatrix<F>(m: Matrix<F>, missing: seq<nat>, chosen: seq<nat>): (r: seq<seq<F>>)
    requires WellFormed(m) && Below(missing, m.inputs) && Below(chosen, |m.rows|)
    ensures |r| == |chosen| && IsMatrix(r, |missing|)
  {
    seq(|chosen|, c requires 0 <= c < |chosen| => Pick(m.rows[chosen[c]], missing))
  }

  /** The vector with the given elements at `indices` and zero elsewhere. */
  function Scatter<F>(f: Field<F>, n: nat, w: seq<F>, indices: seq<nat>): (v: seq<F>)
    requires |w| == |indices| && Below(indices, n) && Ascending(indices)
    ensures |v| == n
    ensures ZeroOutside(f, v, indices)
    ensures Pick(v, indices) == w
    decreases |w|
  {
    if |w| == 0 then Zeros(f, n)
    else
      var last := |w| - 1;
      var front := Scatter(f, n, w[..last], indices[..last]);
      var v := front[indices[last] := w[last]];
      assert forall i :: 0 <= i < last ==> v[indices[i]] == Pick(front, indices[..last])[i];
      assert forall i :: i in indices[..last] ==> i in indices;
      assert indices[last] in indices;
      v
  }

  /** A vector that the available rows annihilate vanishes at the surviving data blocks. */
  lemma AnnihilatedIsSparse<F(!new)>(
      f: Field<F>, m: Matrix<F>, missing: seq<nat>, chosen: seq<nat>, v: seq<F>)
    requires IsField(f) && WellFormed(m) && RecoverArguments(m, missing, chosen) && |v| == m.inputs
    requires Annihilated(f, AvailableRows(f, m, missing, chosen), v)
    ensures ZeroOutside(f, v, missing)
  {
    var rows := AvailableRows(f, m, missing, chosen);
    var remaining := Remaining(m.inputs, missing);
    RemainingComplement(m.inputs, missing);
    forall i | 0 <= i < |v| && i !in missing
      ensures v[i] == f.zero
    {
      var c :| 0 <= c < |remaining| && remaining[c] == i;
      assert rows[c] == Unit(f, m.inputs, i);
      DotUnit(f, i, v);
    }
  }

  lemma SubMatrixAnnihilates<F(!new)>(
      f: Field<F>, m: Matrix<F>, missing: seq<nat>, chosen: seq<nat>, v: seq<F>)
    requires IsField(f) && WellFormed(m) && RecoverArguments(m, missing, chosen) && |v| == m.inputs
    requires Annihilated(f, AvailableRows(f, m, missing, chosen), v) && ZeroOutside(f, v, missing)
    ensures Annihilated(f, SubMatrix(m, missing, chosen), Pick(v, missing))
  {
    var rows := AvailableRows(f, m, missing, chosen);
    var sub := SubMatrix(m, missing, chosen);
    forall c | 0 <= c < |sub|
      ensures Dot(f, sub[c], Pick(v, missing)) == f.zero
    {
      assert rows[m.inputs - |missing| + c] == m.rows[chosen[c]];
      DotSparse(f, m.rows[chosen[c]], v, missing);
    }
  }

  lemma SubMatrixSuffices<F(!new)>(
      f: Field<F>, m: Matrix<F>, missing: seq<nat>, chosen: seq<nat>, v: seq<F>)
    requires IsField(f) && WellFormed(m) && RecoverArguments(m, missing, chosen) && |v| == m.inputs
    requires Nonsingular(f, SubMatrix(m, missing, chosen), |missing|)
    requires Annihilated(f, AvailableRows(f, m, missing, chosen), v)
    ensures v == Zeros(f, |v|)
  {
    AnnihilatedIsSparse(f, m, missing, chosen, v);
    SubMatrixAnnihilates(f, m, missing, chosen, v);
    var picked := Pick(v, missing);
    assert picked == Zeros(f, |missing|);
    forall i | 0 <= i < |v|
      ensures v[i] == f.zero
    {
      if i in missing {
        var q :| 0 <= q < |missing| && missing[q] == i;
        assert picked[q] == v[i];
      }
    }
  }

  /** A vector that the sub-matrix annihilates, padded with zeros, is annihilated by the available rows. */
  lemma ScatterAnnihilated<F(!new)>(
      f: Field<F>, m: Matrix<F>, missing: seq<nat>, chosen: seq<nat>, w: seq<F>, v: seq<F>)
    requires IsField(f) && WellFormed(m) && RecoverArguments(m, missing, chosen)
    requires |w| == |missing| && |v| == m.inputs && ZeroOutside(f, v, missing) && Pick(v, missing) == w
    requires Annihilated(f, SubMatrix(m, missing, chosen), w)
    ensures Annihilated(f, AvailableRows(f, m, missing, chosen), v)
  {
    var rows := AvailableRows(f, m, missing, chosen);
    var remaining := Remaining(m.inputs, missing);
    var sub := SubMatrix(m, missing, chosen);
    forall c | 0 <= c < |rows|
      ensures Dot(f, rows[c], v) == f.zero
    {
      if c < |remaining| {
        RemainingIsNotMissing(m.inputs, missing, c);
        DotUnit(f, remaining[c], v);
      } else {
        DotSparse(f, rows[c], v, missing);
        assert sub[c - |remaining|] == Pick(rows[c], missing);
      }
    }
  }

  lemma RemainingIsNotMissing(n: nat, missing: seq<nat>, c: nat)
    requires Ascending(missing) && Below(missing, n) && c < |Remaining(n, missing)|
    ensures Remaining(n, missing)[c] !in missing
  {
    RemainingComplement(n, missing);
  }

  lemma SubMatrixNeeded<F(!new)>(
      f: Field<F>, m: Matrix<F>, missing: seq<nat>, chosen: seq<nat>, w: seq<F>)
    requires IsField(f) && WellFormed(m) && RecoverArguments(m, missing, chosen) && |w| == |missing|
    requires Nonsingular(f, AvailableRows(f, m, missing, chosen), m.inputs)
    requires Annihilated(f, SubMatrix(m, missing, chosen), w)
    ensures w == Zeros(f, |w|)
  {
    var v := Scatter(f, m.inputs, w, missing);
    ScatterAnnihilated(f, m, missing, chosen, w, v);
    assert v == Zeros(f, m.inputs);
    assert Pick(v, missing) == Zeros(f, |w|);
  }

  /** A recover matrix is created exactly when the sub-matrix of the missing inputs and the chosen
      outputs is invertible. */
  lemma RecoverableIffNonsingular<F(!new)>(f: Field<F>, m: Matrix<F>, missing: seq<nat>, chosen: seq<nat>)
    requires IsField(f) && WellFormed(m) && RecoverArguments(m, missing, chosen)
    ensures CreateRecover(f, m, missing, chosen).Success?
       <==> Nonsingular(f, SubMatrix(m, missing, chosen), |missing|)
  {
    var rows := AvailableRows(f, m, missing, chosen);
    var sub := SubMatrix(m, missing, chosen);
    forall q | 0 <= q < |missing|
      ensures Solve(f, rows, Unit(f, m.inputs, missing[q])).Some? <==> Nonsingular(f, rows, m.inputs)
    {
      SolveComplete(f, rows, Unit(f, m.inputs, missing[q]));
    }
    if Nonsingular(f, sub, |missing|) {
      forall v: seq<F> | |v| == m.inputs && Annihilated(f, rows, v)
        ensures v == Zeros(f, m.inputs)
      {
        SubMatrixSuffices(f, m, missing, chosen, v);
      }
    }
    if Nonsingular(f, rows, m.inputs) {
      forall w: seq<F> | |w| == |missing| && Annihilated(f, sub, w)
        ensures w == Zeros(f, |missing|)
      {
        SubMatrixNeeded(f, m, missing, chosen, w);
      }
    }
    assert |missing| == 0 ==> Nonsingular(f, sub, 0);
  }

  /* Entries of the coding matrices. */

  /** A Cauchy entry times x_i + y_j is one; the sum is never zero. */
  lemma CauchyEntry<F(!new)>(f: Field<F>, k: nat, m: nat, i: nat, j: nat)
    requires IsField(f) && k + m <= 256 && i < k && j < m
    ensures f.mul(CreateMatrix(f, Cauchy, k, m).value.rows[j][i], f.add(f.code(i), f.code(j + k))) == f.one
  {
    if f.add(f.code(i), f.code(j + k)) == f.zero {
      AddToZero(f, f.code(i), f.code(j + k));
    }
    MulInverse(f, f.add(f.code(i), f.code(j + k)));
  }

  /** A Vandermonde column is 1, i + 1, and so on, each entry i + 1 times the one before. */
  lemma VandermondeEntry<F(!new)>(f: Field<F>, k: nat, m: nat, i: nat, j: nat)
    requires IsField(f) && k + m <= 256 && i < k && j < m
    ensures var rows := CreateMatrix(f, Vandermonde, k, m).value.rows;
            rows[0][i] == f.one && (j > 0 ==> rows[j][i] == f.mul(f.code(i + 1), rows[j - 1][i]))
  {
  }

  /* When nothing can be recovered. */

  /** Every element of data block i changed by v[i]. */
  function Shifted<F>(f: Field<F>, data: seq<seq<F>>, v: seq<F>, length: nat): (r: seq<seq<F>>)
    requires |v| == |data| && AreBlocks(data, length)
    ensures |r| == |data| && AreBlocks(r, length)
  {
    seq(|data|, i requires 0 <= i < |data| =>
      seq(length, p requires 0 <= p < length => f.add(data[i][p], v[i])))
  }

  lemma ShiftedUnseen<F(!new)>(
      f: Field<F>, m: Matrix<F>, missing: seq<nat>, chosen: seq<nat>, data: seq<seq<F>>, v: seq<F>, length: nat, p: nat)
    requires IsField(f) && WellFormed(m) && RecoverArguments(m, missing, chosen)
    requires |data| == m.inputs == |v| && AreBlocks(data, length) && p < length
    requires Annihilated(f, AvailableRows(f, m, missing, chosen), v)
    ensures Times(f, AvailableRows(f, m, missing, chosen), Column(Shifted(f, data, v, length), p))
         == Times(f, AvailableRows(f, m, missing, chosen), Column(data, p))
  {
    var rows, column := AvailableRows(f, m, missing, chosen), Column(data, p);
    assert Column(Shifted(f, data, v, length), p) == Plus(f, column, v);
    forall c | 0 <= c < |rows|
      ensures Dot(f, rows[c], Plus(f, column, v)) == Dot(f, rows[c], column)
    {
      DotCommutes(f, rows[c], Plus(f, column, v));
      DotPlus(f, column, v, rows[c]);
      DotCommutes(f, column, rows[c]);
      DotCommutes(f, v, rows[c]);
      AddZero(f, Dot(f, rows[c], column));
      AddCommutes(f, Dot(f, rows[c], column), f.zero);
    }
  }

  lemma SameAvailable<F(!new)>(
      f: Field<F>, m: Matrix<F>, missing: seq<nat>, chosen: seq<nat>, data: seq<seq<F>>, v: seq<F>, length: nat)
    requires IsField(f) && WellFormed(m) && RecoverArguments(m, missing, chosen)
    requires |data| == m.inputs == |v| && AreBlocks(data, length)
    requires Annihilated(f, AvailableRows(f, m, missing, chosen), v)
    ensures var other := Shifted(f, data, v, length);
            AvailableBlocks(other, Apply(f, m, other, length), missing, chosen)
            == AvailableBlocks(data, Apply(f, m, data, length), missing, chosen)
  {
    var other := Shifted(f, data, v, length);
    var a := AvailableBlocks(other, Apply(f, m, other, length), missing, chosen);
    var b := AvailableBlocks(data, Apply(f, m, data, length), missing, chosen);
    AvailableAreBlocks(f, m, missing, chosen, other, length);
    AvailableAreBlocks(f, m, missing, chosen, data, length);
    forall p | 0 <= p < length
      ensures Column(a, p) == Column(b, p)
    {
      AvailableColumn(f, m, missing, chosen, other, length, p);
      AvailableColumn(f, m, missing, chosen, data, length, p);
      ShiftedUnseen(f, m, missing, chosen, data, v, length, p);
    }
    ColumnsDecide(a, b, length);
  }

  lemma ColumnsDecide<F>(a: seq<seq<F>>, b: seq<seq<F>>, length: nat)
    requires |a| == |b| && AreBlocks(a, length) && AreBlocks(b, length)
    requires forall p :: 0 <= p < length ==> Column(a, p) == Column(b, p)
    ensures a == b
  {
    forall c | 0 <= c < |a|
      ensures a[c] == b[c]
    {
      forall p | 0 <= p < length
        ensures a[c][p] == b[c][p]
      {
        assert Column(a, p)[c] == a[c][p] && Column(b, p)[c] == b[c][p];
      }
    }
  }

  /** If the sub-matrix is not invertible, the available blocks do not determine the data: some other
      data has the same surviving blocks.  So refusing a recover matrix is the only right answer. */
  lemma SingularIsAmbiguous<F(!new)>(
      f: Field<F>, m: Matrix<F>, missing: seq<nat>, chosen: seq<nat>, data: seq<seq<F>>, length: nat)
      returns (other: seq<seq<F>>)
    requires IsField(f) && WellFormed(m) && RecoverArguments(m, missing, chosen) && length > 0
    requires |data| == m.inputs && AreBlocks(data, length)
    requires !Nonsingular(f, SubMatrix(m, missing, chosen), |missing|)
    ensures |other| == |data| && AreBlocks(other, length) && other != data
    ensures AvailableBlocks(other, Apply(f, m, other, length), missing, chosen)
         == AvailableBlocks(data, Apply(f, m, data, length), missing, chosen)
  {
    var w: seq<F> :| |w| == |missing| && Annihilated(f, SubMatrix(m, missing, chosen), w) && w != Zeros(f, |missing|);
    var q :| 0 <= q < |w| && w[q] != f.zero;
    var v := Scatter(f, m.inputs, w, missing);
    ScatterAnnihilated(f, m, missing, chosen, w, v);
    other := Shifted(f, data, v, length);
    SameAvailable(f, m, missing, chosen, data, v, length);
    var i := missing[q];
    assert v[i] == Pick(v, missing)[q] == w[q];
    var x := data[i][0];
    if f.add(x, v[i]) == x {
      AddCommutes(f, x, v[i]);
      AddCancels(f, v[i], x);
      AddSelf(f, x);
      assert false;
    }
    assert other[i][0] == f.add(x, v[i]);
  }
}

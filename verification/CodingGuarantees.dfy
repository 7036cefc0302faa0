/** Which sub-matrices of the Cauchy and Vandermonde coding matrices are invertible, and hence
    which losses each kind of matrix recovers from. */
module CodingGuarantees {
  import opened Collections
  import opened GaloisField
  import opened LinearAlgebra
  import opened ErasureCoding

  /** Two scalar products whose terms differ by one common factor. */
  lemma {:induction false} DotTermwise<F(!new)>(
      f: Field<F>, w: seq<F>, u: seq<F>, z: seq<F>, v: seq<F>, s: F)
    requires IsField(f) && |w| == |u| == |z| == |v|
    requires forall r :: 0 <= r < |w| ==> f.mul(w[r], u[r]) == f.mul(s, f.mul(z[r], v[r]))
    ensures Dot(f, w, u) == f.mul(s, Dot(f, z, v))
  {
    if |w| == 0 {
      MulZero(f, s);
    } else {
      DotTermwise(f, w[1..], u[1..], z[1..], v[1..], s);
      MulDistributes(f, s, f.mul(z[0], v[0]), Dot(f, z[1..], v[1..]));
    }
  }

  /** The sum of multiples of two annihilating rows annihilates as well. */
  lemma DotOfTwo<F(!new)>(f: Field<F>, p: F, a: seq<F>, q: F, b: seq<F>, u: seq<F>)
    requires IsField(f) && |a| == |b| == |u|
    requires Dot(f, a, u) == f.zero && Dot(f, b, u) == f.zero
    ensures Dot(f, Plus(f, Scale(f, p, a), Scale(f, q, b)), u) == f.zero
  {
    DotPlus(f, Scale(f, p, a), Scale(f, q, b), u);
    DotScale(f, p, a, u);
    DotScale(f, q, b, u);
    MulZero(f, p);
    MulZero(f, q);
    AddZero(f, f.zero);
  }

  /** If the first coordinate of a row is zero, it may be dropped. */
  lemma DotDropFirst<F(!new)>(f: Field<F>, w: seq<F>, u: seq<F>)
    requires IsField(f) && |w| == |u| > 0 && w[0] == f.zero
    ensures Dot(f, w, u) == Dot(f, w[1..], u[1..])
  {
    MulZero(f, u[0]);
    AddZero(f, Dot(f, w[1..], u[1..]));
  }

  /* Cauchy matrices. */

  function CauchyRow<F>(f: Field<F>, xs: seq<F>, y: F): (r: seq<F>)
    ensures |r| == |xs|
  {
    seq(|xs|, i requires 0 <= i < |xs| => f.inv(f.add(xs[i], y)))
  }

  function CauchyRows<F>(f: Field<F>, xs: seq<F>, ys: seq<F>): (r: seq<seq<F>>)
    ensures |r| == |ys| && IsMatrix(r, |xs|)
  {
    seq(|ys|, c requires 0 <= c < |ys| => CauchyRow(f, xs, ys[c]))
  }

  ghost predicate CauchyPoints<F(!new)>(f: Field<F>, xs: seq<F>, ys: seq<F>)
  {
    && |xs| == |ys|
    && Distinct(xs) && Distinct(ys)
    && forall i, j :: 0 <= i < |xs| && 0 <= j < |ys| ==> xs[i] != ys[j]
  }

  /** (a + d)/a + (b + d)/b == d (a + b) / (a b) in characteristic 2. */
  lemma CauchyFraction<F(!new)>(f: Field<F>, a: F, b: F, d: F)
    requires IsField(f) && a != f.zero && b != f.zero
    ensures f.add(f.mul(f.add(a, d), f.inv(a)), f.mul(f.add(b, d), f.inv(b)))
         == f.mul(f.add(a, b), f.mul(f.inv(a), f.mul(d, f.inv(b))))
  {
    var ia, ib := f.inv(a), f.inv(b);
    var da, db, x := f.mul(d, ia), f.mul(d, ib), f.mul(f.inv(a), f.mul(d, f.inv(b)));
    MulInverse(f, a);
    MulInverse(f, b);
    MulDistributes(f, ia, a, d);
    MulDistributes(f, ib, b, d);
    AddSwap(f, f.one, da, f.one, db);
    AddSelf(f, f.one);
    AddZero(f, f.add(da, db));
    // a x == d/b and b x == d/a
    MulDistributes(f, x, a, b);
    MulCancels(f, a, db);
    MulCommutes(f, ia, db);
    MulSwap(f, d, ib, ia);
    MulCommutes(f, f.mul(da, ib), b);
    MulCancels(f, b, da);
    MulCommutes(f, da, ib);
    AddCommutes(f, da, db);
  }

  /** One coordinate of the elimination of the first point. */
  lemma CauchyTerm<F(!new)>(f: Field<F>, x0: F, x: F, y0: F, y: F, u: F)
    requires IsField(f) && x != y && x != y0
    ensures var w := f.add(f.mul(f.add(x0, y), f.inv(f.add(x, y))), f.mul(f.add(x0, y0), f.inv(f.add(x, y0))));
            var v := f.mul(f.mul(f.add(x0, x), f.inv(f.add(x, y0))), u);
            f.mul(w, u) == f.mul(f.add(y, y0), f.mul(f.inv(f.add(x, y)), v))
  {
    var a, b, d := f.add(x, y), f.add(x, y0), f.add(x0, x);
    AddToZero(f, x, y);
    AddToZero(f, x, y0);
    // x0 + y == a + d, x0 + y0 == b + d, y + y0 == a + b
    AddCommutes(f, x, y);
    AddCancelsCommon(f, y, x0, x);
    AddCommutes(f, y, x0);
    AddCommutes(f, x, y0);
    AddCancelsCommon(f, y0, x0, x);
    AddCommutes(f, y0, x0);
    AddCancelsCommon(f, y, y0, x);
    CauchyFraction(f, a, b, d);
    var db := f.mul(d, f.inv(b));
    MulAssociates(f, f.add(a, b), f.mul(f.inv(a), db), u);
    MulAssociates(f, f.inv(a), db, u);
  }

  /** Eliminating the first point of a Cauchy system leaves a smaller Cauchy system, with each
      unknown scaled by a nonzero factor. */
  lemma CauchyEliminate<F(!new)>(f: Field<F>, xs: seq<F>, ys: seq<F>, u: seq<F>, c: nat) returns (v: seq<F>)
    requires IsField(f) && CauchyPoints(f, xs, ys) && |u| == |xs| && 1 <= c < |ys|
    requires Annihilated(f, CauchyRows(f, xs, ys), u)
    ensures v == CauchyScaled(f, xs, ys[0], u)
    ensures Dot(f, CauchyRow(f, xs[1..], ys[c]), v) == f.zero
  {
    var x0, y0, y := xs[0], ys[0], ys[c];
    var p, q := f.add(x0, y), f.add(x0, y0);
    var rows := CauchyRows(f, xs, ys);
    var w := Plus(f, Scale(f, p, rows[c]), Scale(f, q, rows[0]));
    DotOfTwo(f, p, rows[c], q, rows[0], u);
    AddToZero(f, x0, y);
    AddToZero(f, x0, y0);
    MulInverse(f, p);
    MulInverse(f, q);
    AddSelf(f, f.one);
    assert w[0] == f.zero;
    DotDropFirst(f, w, u);
    v := CauchyScaled(f, xs, y0, u);
    var z := CauchyRow(f, xs[1..], y);
    var s := f.add(y, y0);
    forall r | 0 <= r < |v|
      ensures f.mul(w[1..][r], u[1..][r]) == f.mul(s, f.mul(z[r], v[r]))
    {
      CauchyTerm(f, x0, xs[r + 1], y0, y, u[r + 1]);
    }
    DotTermwise(f, w[1..], u[1..], z, v, s);
    AddToZero(f, y, y0);
    MulToZero(f, s, Dot(f, z, v));
  }

  function CauchyScaled<F>(f: Field<F>, xs: seq<F>, y0: F, u: seq<F>): (v: seq<F>)
    requires |u| == |xs| > 0
    ensures |v| == |xs| - 1
  {
    seq(|xs| - 1, r requires 0 <= r < |xs| - 1 =>
      f.mul(f.mul(f.add(xs[0], xs[r + 1]), f.inv(f.add(xs[r + 1], y0))), u[r + 1]))
  }

  /** Every Cauchy system has only the zero solution. */
  lemma {:induction false} CauchyNonsingular<F(!new)>(f: Field<F>, xs: seq<F>, ys: seq<F>, u: seq<F>)
    requires IsField(f) && CauchyPoints(f, xs, ys) && |u| == |xs|
    requires Annihilated(f, CauchyRows(f, xs, ys), u)
    ensures u == Zeros(f, |u|)
    decreases |xs|
  {
    if |xs| > 0 {
      var v := CauchyScaled(f, xs, ys[0], u);
      var rows := CauchyRows(f, xs[1..], ys[1..]);
      forall c | 0 <= c < |rows|
        ensures Dot(f, rows[c], v) == f.zero
      {
        var v' := CauchyEliminate(f, xs, ys, u, c + 1);
      }
      CauchyNonsingular(f, xs[1..], ys[1..], v);
      CauchyTailZero(f, xs, ys[0], u);
      AddToZero(f, xs[0], ys[0]);
      MulInverse(f, f.add(xs[0], ys[0]));
      FirstIsZero(f, CauchyRows(f, xs, ys)[0], u);
    }
  }

  lemma CauchyTailZero<F(!new)>(f: Field<F>, xs: seq<F>, y0: F, u: seq<F>)
    requires IsField(f) && |u| == |xs| > 0 && Distinct(xs)
    requires forall r :: 0 <= r < |xs| ==> xs[r] != y0
    requires CauchyScaled(f, xs, y0, u) == Zeros(f, |u| - 1)
    ensures u[1..] == Zeros(f, |u| - 1)
  {
    forall r | 1 <= r < |u|
      ensures u[r] == f.zero
    {
      var d, b := f.add(xs[0], xs[r]), f.add(xs[r], y0);
      AddToZero(f, xs[0], xs[r]);
      AddToZero(f, xs[r], y0);
      MulInverse(f, b);
      MulToZero(f, d, f.inv(b));
      MulToZero(f, f.mul(d, f.inv(b)), u[r]);
      assert CauchyScaled(f, xs, y0, u)[r - 1] == f.zero;
    }
  }

  /** "Cauchy matrix guarantees any sub-matrix will be invertible", for any equally many rows and
      columns. */
  lemma CauchySubMatrixInvertible<F(!new)>(f: Field<F>, k: nat, m: nat, missing: seq<nat>, chosen: seq<nat>)
    requires IsField(f) && k + m <= 256
    requires RecoverArguments(CauchyMatrix(f, k, m), missing, chosen)
    ensures Nonsingular(f, SubMatrix(CauchyMatrix(f, k, m), missing, chosen), |missing|)
  {
    var sub := SubMatrix(CauchyMatrix(f, k, m), missing, chosen);
    var xs := seq(|missing|, i requires 0 <= i < |missing| => f.code(missing[i]));
    var ys := seq(|chosen|, c requires 0 <= c < |chosen| => f.code(chosen[c] + k));
    forall c | 0 <= c < |chosen|
      ensures sub[c] == CauchyRow(f, xs, ys[c])
    {
    }
    assert sub == CauchyRows(f, xs, ys);
    assert CauchyPoints(f, xs, ys);
    forall u: seq<F> | |u| == |missing| && Annihilated(f, sub, u)
      ensures u == Zeros(f, |missing|)
    {
      CauchyNonsingular(f, xs, ys, u);
    }
  }

  /** A Cauchy code recovers every loss: whichever data blocks are missing and whichever equally
      many redundancy blocks are used, the recover matrix exists and rebuilds the data. */
  lemma CauchyRecoversEverything<F(!new)>(
      f: Field<F>, k: nat, m: nat, missing: seq<nat>, chosen: seq<nat>, data: seq<seq<F>>, length: nat)
    requires IsField(f) && CreateMatrix(f, Cauchy, k, m).Success?
    requires RecoverArguments(CauchyMatrix(f, k, m), missing, chosen)
    requires |data| == k && AreBlocks(data, length)
    ensures var coding := CreateMatrix(f, Cauchy, k, m).value;
            var recover := CreateRecover(f, coding, missing, chosen);
            var blocks := AvailableBlocks(data, Apply(f, coding, data, length), missing, chosen);
            recover.Success? && AreBlocks(blocks, length) &&
            Apply(f, recover.value, blocks, length) == Pick(data, missing)
  {
    var coding := CauchyMatrix(f, k, m);
    CauchySubMatrixInvertible(f, k, m, missing, chosen);
    RecoverableIffNonsingular(f, coding, missing, chosen);
    RecoverInvertsEncode(f, coding, missing, chosen, data, length);
  }

  /* Vandermonde matrices. */

  function PowerRow<F>(f: Field<F>, xs: seq<F>, c: nat): (r: seq<F>)
    ensures |r| == |xs|
  {
    seq(|xs|, i requires 0 <= i < |xs| => Power(f, xs[i], c))
  }

  ghost predicate PowerAnnihilates<F>(f: Field<F>, xs: seq<F>, e: nat, u: seq<F>)
    requires |u| == |xs|
  {
    Dot(f, PowerRow(f, xs, e), u) == f.zero
  }

  function PowerScaled<F>(f: Field<F>, xs: seq<F>, u: seq<F>): (v: seq<F>)
    requires |u| == |xs| > 0
    ensures |v| == |xs| - 1
  {
    seq(|xs| - 1, r requires 0 <= r < |xs| - 1 => f.mul(f.add(xs[r + 1], xs[0]), u[r + 1]))
  }

  /** (1 x^(e+1) + x0 x^e) u == x^e ((x + x0) u). */
  lemma PowerTerm<F(!new)>(f: Field<F>, x0: F, x: F, e: nat, u: F)
    requires IsField(f)
    ensures f.mul(f.add(f.mul(f.one, Power(f, x, e + 1)), f.mul(x0, Power(f, x, e))), u)
         == f.mul(f.one, f.mul(Power(f, x, e), f.mul(f.add(x, x0), u)))
  {
    var p, d := Power(f, x, e), f.add(x, x0);
    MulOne(f, Power(f, x, e + 1));
    MulDistributes(f, p, x, x0);
    MulCommutes(f, d, p);
    MulAssociates(f, p, d, u);
    MulOne(f, f.mul(p, f.mul(d, u)));
  }

  /** Power e + 1 minus x_0 times power e removes the first point. */
  lemma PowerEliminate<F(!new)>(f: Field<F>, xs: seq<F>, e: nat, u: seq<F>)
    requires IsField(f) && |u| == |xs| > 0
    requires PowerAnnihilates(f, xs, e, u) && PowerAnnihilates(f, xs, e + 1, u)
    ensures PowerAnnihilates(f, xs[1..], e, PowerScaled(f, xs, u))
  {
    var a, b := PowerRow(f, xs, e + 1), PowerRow(f, xs, e);
    var w := Plus(f, Scale(f, f.one, a), Scale(f, xs[0], b));
    DotOfTwo(f, f.one, a, xs[0], b, u);
    MulOne(f, a[0]);
    AddSelf(f, a[0]);
    DotDropFirst(f, w, u);
    var z, v := PowerRow(f, xs[1..], e), PowerScaled(f, xs, u);
    forall r | 0 <= r < |v|
      ensures f.mul(w[1..][r], u[1..][r]) == f.mul(f.one, f.mul(z[r], v[r]))
    {
      PowerTerm(f, xs[0], xs[r + 1], e, u[r + 1]);
    }
    DotTermwise(f, w[1..], u[1..], z, v, f.one);
    MulOne(f, Dot(f, z, v));
  }

  /** Any run of consecutive powers of distinct nonzero points has only the zero solution. */
  lemma {:induction false} PowersNonsingular<F(!new)>(f: Field<F>, xs: seq<F>, first: nat, u: seq<F>)
    requires IsField(f) && Distinct(xs) && |u| == |xs|
    requires forall r :: 0 <= r < |xs| ==> xs[r] != f.zero
    requires forall e: nat :: first <= e < first + |xs| ==> PowerAnnihilates(f, xs, e, u)
    ensures u == Zeros(f, |u|)
    decreases |xs|
  {
    if |xs| > 0 {
      var v := PowerScaled(f, xs, u);
      forall e: nat | first <= e < first + |xs| - 1
        ensures PowerAnnihilates(f, xs[1..], e, v)
      {
        PowerEliminate(f, xs, e, u);
      }
      PowersNonsingular(f, xs[1..], first, v);
      PowerTailZero(f, xs, u);
      assert PowerAnnihilates(f, xs, first, u);
      PowerNonzero(f, xs[0], first);
      FirstIsZero(f, PowerRow(f, xs, first), u);
    }
  }

  lemma PowerTailZero<F(!new)>(f: Field<F>, xs: seq<F>, u: seq<F>)
    requires IsField(f) && |u| == |xs| > 0 && Distinct(xs)
    requires PowerScaled(f, xs, u) == Zeros(f, |u| - 1)
    ensures u[1..] == Zeros(f, |u| - 1)
  {
    forall r | 1 <= r < |u|
      ensures u[r] == f.zero
    {
      assert PowerScaled(f, xs, u)[r - 1] == f.zero;
      AddToZero(f, xs[r], xs[0]);
      MulToZero(f, f.add(xs[r], xs[0]), u[r]);
    }
  }

  ghost predicate Consecutive(s: seq<nat>)
  {
    forall c :: 0 <= c < |s| ==> s[c] == s[0] + c
  }

  lemma CodeNonzero<F(!new)>(f: Field<F>, i: nat)
    requires IsField(f) && 0 < i < 256
    ensures f.code(i) != f.zero
  {
    assert f.code(0) != f.code(i);
  }

  lemma VandermondePoints<F(!new)>(f: Field<F>, missing: seq<nat>, xs: seq<F>)
    requires IsField(f) && Ascending(missing) && Below(missing, 255) && |xs| == |missing|
    requires forall i :: 0 <= i < |missing| ==> xs[i] == f.code(missing[i] + 1)
    ensures Distinct(xs) && forall i :: 0 <= i < |xs| ==> xs[i] != f.zero
  {
    forall i | 0 <= i < |xs|
      ensures xs[i] != f.zero
    {
      CodeNonzero(f, missing[i] + 1);
    }
    forall i, j | 0 <= i < j < |xs|
      ensures xs[i] != xs[j]
    {
      assert f.code(missing[i] + 1) != f.code(missing[j] + 1);
    }
  }

  /** A Vandermonde code recovers from any missing blocks when the redundancy blocks used are
      consecutive; in particular when they are the leading ones. */
  lemma VandermondeConsecutiveRecovers<F(!new)>(f: Field<F>, k: nat, m: nat, missing: seq<nat>, chosen: seq<nat>)
    requires IsField(f) && k + m <= 256
    requires RecoverArguments(VandermondeMatrix(f, k, m), missing, chosen) && Consecutive(chosen)
    ensures CreateRecover(f, VandermondeMatrix(f, k, m), missing, chosen).Success?
  {
    var coding := VandermondeMatrix(f, k, m);
    var sub := SubMatrix(coding, missing, chosen);
    var xs := seq(|missing|, i requires 0 <= i < |missing| => f.code(missing[i] + 1));
    if |missing| > 0 {
      var first := chosen[0];
      VandermondePoints(f, missing, xs);
      forall u: seq<F> | |u| == |missing| && Annihilated(f, sub, u)
        ensures u == Zeros(f, |missing|)
      {
        forall e: nat | first <= e < first + |missing|
          ensures PowerAnnihilates(f, xs, e, u)
        {
          assert chosen[e - first] == e;
          assert sub[e - first] == PowerRow(f, xs, e);
        }
        PowersNonsingular(f, xs, first, u);
      }
    }
    RecoverableIffNonsingular(f, coding, missing, chosen);
  }

  /** The determinant of a 2 x 2 matrix whose first row has no zero decides it. */
  lemma TwoByTwo<F(!new)>(f: Field<F>, a: F, b: F, c: F, d: F)
    requires IsField(f) && a != f.zero && b != f.zero
    ensures Nonsingular(f, [[a, b], [c, d]], 2) <==> f.mul(a, d) != f.mul(b, c)
  {
    var rows := [[a, b], [c, d]];
    if f.mul(a, d) == f.mul(b, c) {
      var v := [b, a];
      DotOfPair(f, a, b, b, a);
      DotOfPair(f, c, d, b, a);
      MulCommutes(f, a, b);
      AddSelf(f, f.mul(a, b));
      MulCommutes(f, c, b);
      MulCommutes(f, d, a);
      AddSelf(f, f.mul(a, d));
      assert Annihilated(f, rows, v);
      assert v[0] != Zeros(f, 2)[0];
    } else {
      forall v: seq<F> | |v| == 2 && Annihilated(f, rows, v)
        ensures v == Zeros(f, 2)
      {
        assert rows[0] == [a, b] && rows[1] == [c, d] && v == [v[0], v[1]];
        DotOfPair(f, a, b, v[0], v[1]);
        DotOfPair(f, c, d, v[0], v[1]);
        TwoUnknowns(f, a, b, c, d, v[0], v[1]);
      }
    }
  }

  lemma DotOfPair<F(!new)>(f: Field<F>, a: F, b: F, x: F, y: F)
    requires IsField(f)
    ensures Dot(f, [a, b], [x, y]) == f.add(f.mul(a, x), f.mul(b, y))
  {
    assert [a, b][1..] == [b] && [x, y][1..] == [y];
    AddZero(f, f.mul(b, y));
    assert Dot(f, [b], [y]) == f.mul(b, y);
  }

  lemma TwoUnknowns<F(!new)>(f: Field<F>, a: F, b: F, c: F, d: F, x: F, y: F)
    requires IsField(f) && f.mul(a, d) != f.mul(b, c) && a != f.zero
    requires f.add(f.mul(a, x), f.mul(b, y)) == f.zero
    requires f.add(f.mul(c, x), f.mul(d, y)) == f.zero
    ensures x == f.zero && y == f.zero
  {
    AddToZero(f, f.mul(a, x), f.mul(b, y));
    AddToZero(f, f.mul(c, x), f.mul(d, y));
    // (a d) y == a (c x) == c (a x) == c (b y) == (b c) y
    calc {
      f.mul(f.mul(a, d), y);
      { MulAssociates(f, a, d, y); }
      f.mul(a, f.mul(c, x));
      { MulAssociates(f, a, c, x); MulCommutes(f, a, c); MulAssociates(f, c, a, x); }
      f.mul(c, f.mul(b, y));
      { MulAssociates(f, c, b, y); MulCommutes(f, c, b); }
      f.mul(f.mul(b, c), y);
    }
    var det := f.add(f.mul(a, d), f.mul(b, c));
    MulDistributes(f, y, f.mul(a, d), f.mul(b, c));
    AddSelf(f, f.mul(f.mul(a, d), y));
    AddToZero(f, f.mul(a, d), f.mul(b, c));
    MulToZero(f, det, y);
    MulZero(f, b);
    MulToZero(f, a, x);
  }

  /** x^j y^(j+e) and y^j x^(j+e) agree exactly when x^e and y^e do. */
  lemma PowerDeterminant<F(!new)>(f: Field<F>, x: F, y: F, j: nat, e: nat)
    requires IsField(f) && x != f.zero && y != f.zero
    ensures f.mul(Power(f, x, j), Power(f, y, j + e)) == f.mul(Power(f, y, j), Power(f, x, j + e))
       <==> Power(f, x, e) == Power(f, y, e)
  {
    var a, b, px, py := Power(f, x, j), Power(f, y, j), Power(f, x, e), Power(f, y, e);
    PowerNonzero(f, x, j);
    PowerNonzero(f, y, j);
    PowerSum(f, x, j, e);
    PowerSum(f, y, j, e);
    // the two products are (a b) py and (a b) px
    MulAssociates(f, a, b, py);
    MulAssociates(f, b, a, px);
    MulCommutes(f, a, b);
    MulToZero(f, a, b);
    MulCancels(f, f.mul(a, b), px);
    MulCancels(f, f.mul(a, b), py);
  }

  /** Exactly when a Vandermonde code recovers two missing blocks from two redundancy blocks: when
      the two points have different powers at the distance between the columns. */
  lemma VandermondeTwoLosses<F(!new)>(f: Field<F>, k: nat, m: nat, missing: seq<nat>, chosen: seq<nat>)
    requires IsField(f) && k + m <= 256 && |missing| == 2
    requires RecoverArguments(VandermondeMatrix(f, k, m), missing, chosen)
    ensures CreateRecover(f, VandermondeMatrix(f, k, m), missing, chosen).Success?
       <==> (Power(f, f.code(missing[0] + 1), chosen[1] - chosen[0])
             != Power(f, f.code(missing[1] + 1), chosen[1] - chosen[0]))
  {
    var coding := VandermondeMatrix(f, k, m);
    RecoverableIffNonsingular(f, coding, missing, chosen);
    assert missing[0] < k && missing[1] < k && chosen[0] < chosen[1] < m;
    CodeNonzero(f, missing[0] + 1);
    CodeNonzero(f, missing[1] + 1);
    TwoLossNonsingular(f, k, m, missing, chosen, f.code(missing[0] + 1), f.code(missing[1] + 1));
  }

  lemma TwoLossNonsingular<F(!new)>(f: Field<F>, k: nat, m: nat, missing: seq<nat>, chosen: seq<nat>, x: F, y: F)
    requires IsField(f) && |missing| == |chosen| == 2 && Below(missing, k) && Below(chosen, m)
    requires chosen[0] <= chosen[1]
    requires x == f.code(missing[0] + 1) != f.zero && y == f.code(missing[1] + 1) != f.zero
    ensures Nonsingular(f, SubMatrix(VandermondeMatrix(f, k, m), missing, chosen), 2)
       <==> Power(f, x, chosen[1] - chosen[0]) != Power(f, y, chosen[1] - chosen[0])
  {
    TwoLossSubMatrix(f, k, m, missing, chosen);
    TwoPowers(f, x, y, chosen[0], chosen[1] - chosen[0]);
  }

  lemma TwoPowers<F(!new)>(f: Field<F>, x: F, y: F, j: nat, e: nat)
    requires IsField(f) && x != f.zero && y != f.zero
    ensures Nonsingular(f, [[Power(f, x, j), Power(f, y, j)], [Power(f, x, j + e), Power(f, y, j + e)]], 2)
       <==> Power(f, x, e) != Power(f, y, e)
  {
    PowerNonzero(f, x, j);
    PowerNonzero(f, y, j);
    TwoByTwo(f, Power(f, x, j), Power(f, y, j), Power(f, x, j + e), Power(f, y, j + e));
    PowerDeterminant(f, x, y, j, e);
  }

  lemma TwoLossSubMatrix<F>(f: Field<F>, k: nat, m: nat, missing: seq<nat>, chosen: seq<nat>)
    requires |missing| == |chosen| == 2 && Below(missing, k) && Below(chosen, m)
    ensures SubMatrix(VandermondeMatrix(f, k, m), missing, chosen)
         == [[Power(f, f.code(missing[0] + 1), chosen[0]), Power(f, f.code(missing[1] + 1), chosen[0])],
             [Power(f, f.code(missing[0] + 1), chosen[1]), Power(f, f.code(missing[1] + 1), chosen[1])]]
  {
    var coding := VandermondeMatrix(f, k, m);
    var sub := SubMatrix(coding, missing, chosen);
    var x, y := f.code(missing[0] + 1), f.code(missing[1] + 1);
    TwoLossRow(f, k, m, missing, chosen[0]);
    TwoLossRow(f, k, m, missing, chosen[1]);
    assert sub[0] == Pick(coding.rows[chosen[0]], missing);
    assert sub[1] == Pick(coding.rows[chosen[1]], missing);
  }

  lemma TwoLossRow<F>(f: Field<F>, k: nat, m: nat, missing: seq<nat>, j: nat)
    requires |missing| == 2 && Below(missing, k) && j < m
    ensures Pick(VandermondeMatrix(f, k, m).rows[j], missing)
         == [Power(f, f.code(missing[0] + 1), j), Power(f, f.code(missing[1] + 1), j)]
  {
    var row := VandermondeMatrix(f, k, m).rows[j];
    assert row[missing[0]] == Power(f, f.code(missing[0] + 1), j);
    assert row[missing[1]] == Power(f, f.code(missing[1] + 1), j);
  }
}

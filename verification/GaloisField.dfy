/** The Galois field behind the erasure coding library.

    The library never says which irreducible polynomial it uses, so the field is a value: any
    record of operations that satisfies the laws below will do.  `code` is the reading of the
    small integers 0..255 (block indices) as field elements. */
module GaloisField {

  datatype Field<!F> = Field(
    zero: F,
    one: F,
    add: (F, F) -> F,
    mul: (F, F) -> F,
    inv: F -> F,
    code: nat -> F)

  /** The laws of a field of characteristic 2, at three given elements. */
  ghost predicate LawsAt<F>(f: Field<F>, x: F, y: F, z: F)
  {
    && f.add(x, y) == f.add(y, x)
    && f.add(f.add(x, y), z) == f.add(x, f.add(y, z))
    && f.add(x, f.zero) == x
    && f.add(x, x) == f.zero
    && f.mul(x, y) == f.mul(y, x)
    && f.mul(f.mul(x, y), z) == f.mul(x, f.mul(y, z))
    && f.mul(x, f.one) == x
    && f.mul(x, f.add(y, z)) == f.add(f.mul(x, y), f.mul(x, z))
    && (x != f.zero ==> f.mul(x, f.inv(x)) == f.one)
  }

  /** `f` is a field of characteristic 2 in which the codes of 0..255 are distinct
      and the code of 0 is zero.
      The laws are quantified through `LawsAt`, so a proof names the instances it uses. */
  ghost predicate IsField<F(!new)>(f: Field<F>)
  {
    && f.one != f.zero
    && (forall x: F, y: F, z: F :: LawsAt(f, x, y, z))
    && f.code(0) == f.zero
    && (forall i: nat, j: nat :: i < j < 256 ==> f.code(i) != f.code(j))
  }

  lemma AddCommutes<F(!new)>(f: Field<F>, x: F, y: F)
    requires IsField(f)
    ensures f.add(x, y) == f.add(y, x)
  {
    assert LawsAt(f, x, y, y);
  }

  lemma AddAssociates<F(!new)>(f: Field<F>, x: F, y: F, z: F)
    requires IsField(f)
    ensures f.add(f.add(x, y), z) == f.add(x, f.add(y, z))
  {
    assert LawsAt(f, x, y, z);
  }

  lemma AddZero<F(!new)>(f: Field<F>, x: F)
    requires IsField(f)
    ensures f.add(x, f.zero) == x
    ensures f.add(f.zero, x) == x
  {
    assert LawsAt(f, x, f.zero, x);
  }

  lemma AddSelf<F(!new)>(f: Field<F>, x: F)
    requires IsField(f)
    ensures f.add(x, x) == f.zero
  {
    assert LawsAt(f, x, x, x);
  }

  /** (a + b) + (c + d) == (a + c) + (b + d). */
  lemma AddSwap<F(!new)>(f: Field<F>, a: F, b: F, c: F, d: F)
    requires IsField(f)
    ensures f.add(f.add(a, b), f.add(c, d)) == f.add(f.add(a, c), f.add(b, d))
  {
    AddAssociates(f, a, b, f.add(c, d));
    AddAssociates(f, b, c, d);
    AddCommutes(f, b, c);
    AddAssociates(f, c, b, d);
    AddAssociates(f, a, c, f.add(b, d));
  }

  /** In characteristic 2, adding the same element twice changes nothing. */
  lemma AddCancels<F(!new)>(f: Field<F>, x: F, y: F)
    requires IsField(f)
    ensures f.add(f.add(x, y), y) == x
    ensures f.add(y, f.add(y, x)) == x
  {
    AddAssociates(f, x, y, y);
    AddSelf(f, y);
    AddZero(f, x);
    AddCommutes(f, x, y);
    AddCommutes(f, f.add(y, x), y);
  }

  /** (x + a) + (y + a) == x + y. */
  lemma AddCancelsCommon<F(!new)>(f: Field<F>, x: F, y: F, a: F)
    requires IsField(f)
    ensures f.add(f.add(x, a), f.add(y, a)) == f.add(x, y)
  {
    AddSwap(f, x, a, y, a);
    AddSelf(f, a);
    AddZero(f, f.add(x, y));
  }

  /** Only an element itself adds up to zero with it. */
  lemma AddToZero<F(!new)>(f: Field<F>, x: F, y: F)
    requires IsField(f)
    ensures f.add(x, y) == f.zero <==> x == y
  {
    AddSelf(f, x);
    AddCancels(f, x, y);
    AddZero(f, y);
  }

  lemma MulCommutes<F(!new)>(f: Field<F>, x: F, y: F)
    requires IsField(f)
    ensures f.mul(x, y) == f.mul(y, x)
  {
    assert LawsAt(f, x, y, y);
  }

  lemma MulAssociates<F(!new)>(f: Field<F>, x: F, y: F, z: F)
    requires IsField(f)
    ensures f.mul(f.mul(x, y), z) == f.mul(x, f.mul(y, z))
  {
    assert LawsAt(f, x, y, z);
  }

  lemma MulOne<F(!new)>(f: Field<F>, x: F)
    requires IsField(f)
    ensures f.mul(x, f.one) == x
    ensures f.mul(f.one, x) == x
  {
    assert LawsAt(f, x, f.one, x);
  }

  lemma MulDistributes<F(!new)>(f: Field<F>, x: F, y: F, z: F)
    requires IsField(f)
    ensures f.mul(x, f.add(y, z)) == f.add(f.mul(x, y), f.mul(x, z))
    ensures f.mul(f.add(y, z), x) == f.add(f.mul(y, x), f.mul(z, x))
  {
    assert LawsAt(f, x, y, z);
    MulCommutes(f, x, f.add(y, z));
    MulCommutes(f, x, y);
    MulCommutes(f, x, z);
  }

  lemma MulZero<F(!new)>(f: Field<F>, x: F)
    requires IsField(f)
    ensures f.mul(x, f.zero) == f.zero
    ensures f.mul(f.zero, x) == f.zero
  {
    MulDistributes(f, x, f.one, f.one);
    AddSelf(f, f.one);
    AddSelf(f, f.mul(x, f.one));
    MulCommutes(f, x, f.zero);
  }

  /** (x * y) * z == (x * z) * y. */
  lemma MulSwap<F(!new)>(f: Field<F>, x: F, y: F, z: F)
    requires IsField(f)
    ensures f.mul(f.mul(x, y), z) == f.mul(f.mul(x, z), y)
  {
    MulAssociates(f, x, y, z);
    MulCommutes(f, y, z);
    MulAssociates(f, x, z, y);
  }

  lemma MulInverse<F(!new)>(f: Field<F>, x: F)
    requires IsField(f) && x != f.zero
    ensures f.mul(x, f.inv(x)) == f.one
    ensures f.mul(f.inv(x), x) == f.one
    ensures f.inv(x) != f.zero
  {
    assert LawsAt(f, x, x, x);
    MulCommutes(f, x, f.inv(x));
    MulZero(f, x);
  }

  /** A nonzero factor cancels. */
  lemma MulCancels<F(!new)>(f: Field<F>, x: F, y: F)
    requires IsField(f) && x != f.zero
    ensures f.mul(f.inv(x), f.mul(x, y)) == y
    ensures f.mul(x, f.mul(f.inv(x), y)) == y
    ensures f.mul(f.mul(y, f.inv(x)), x) == y
  {
    MulInverse(f, x);
    MulAssociates(f, f.inv(x), x, y);
    MulAssociates(f, x, f.inv(x), y);
    MulAssociates(f, y, f.inv(x), x);
    MulOne(f, y);
  }

  /** There are no zero divisors. */
  lemma MulToZero<F(!new)>(f: Field<F>, x: F, y: F)
    requires IsField(f)
    ensures f.mul(x, y) == f.zero <==> x == f.zero || y == f.zero
  {
    MulZero(f, x);
    MulZero(f, y);
    if x != f.zero {
      MulCancels(f, x, y);
      MulZero(f, f.inv(x));
    }
  }

  function Power<F>(f: Field<F>, x: F, n: nat): F
  {
    if n == 0 then f.one else f.mul(x, Power(f, x, n - 1))
  }

  lemma {:induction false} PowerSum<F(!new)>(f: Field<F>, x: F, m: nat, n: nat)
    requires IsField(f)
    ensures Power(f, x, m + n) == f.mul(Power(f, x, m), Power(f, x, n))
  {
    if m == 0 {
      MulOne(f, Power(f, x, n));
    } else {
      PowerSum(f, x, m - 1, n);
      MulAssociates(f, x, Power(f, x, m - 1), Power(f, x, n));
    }
  }

  lemma {:induction false} PowerNonzero<F(!new)>(f: Field<F>, x: F, n: nat)
    requires IsField(f) && x != f.zero
    ensures Power(f, x, n) != f.zero
  {
    if n > 0 {
      PowerNonzero(f, x, n - 1);
      MulToZero(f, x, Power(f, x, n - 1));
    }
  }
}

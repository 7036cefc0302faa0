/** A concrete field: bytes under XOR, and polynomial multiplication modulo
    x^8 + x^4 + x^3 + x^2 + 1.  It shows that the field laws can be met, and supplies a concrete
    loss that a Vandermonde code does not recover from. */
module Gf256 {
  import opened GaloisField
  import opened ErasureCoding
  import opened CodingGuarantees

  /** The coefficients of a polynomial of degree below 8, the constant first. */
  type Byte = s: seq<bool> | |s| == 8 witness [false, false, false, false, false, false, false, false]

  const ZERO: Byte := [false, false, false, false, false, false, false, false]
  const ONE: Byte := [true, false, false, false, false, false, false, false]
  const TWO: Byte := [false, true, false, false, false, false, false, false]

  function Xor(a: Byte, b: Byte): Byte
  {
    seq(8, i requires 0 <= i < 8 => a[i] != b[i])
  }

  /** Multiplication by x. */
  function Double(a: Byte): Byte
  {
    seq(8, i requires 0 <= i < 8 =>
      if i == 0 then a[7] else if 2 <= i <= 4 then a[i - 1] != a[7] else a[i - 1])
  }

  function When(c: bool, a: Byte): Byte
  {
    if c then a else ZERO
  }

  /** The polynomial with coefficients `s`, times `a`, by Horner's rule. */
  function Horner(a: Byte, s: seq<bool>): Byte
  {
    if |s| == 0 then ZERO else Xor(When(s[0], a), Double(Horner(a, s[1..])))
  }

  function Multiply(a: Byte, b: Byte): Byte
  {
    Horner(a, b)
  }

  lemma XorZero(a: Byte)
    ensures Xor(a, ZERO) == a && Xor(ZERO, a) == a && Xor(a, a) == ZERO
  {
  }

  lemma XorCommutes(a: Byte, b: Byte)
    ensures Xor(a, b) == Xor(b, a)
  {
  }

  lemma XorAssociates(a: Byte, b: Byte, c: Byte)
    ensures Xor(Xor(a, b), c) == Xor(a, Xor(b, c))
  {
  }

  lemma XorSwap(a: Byte, b: Byte, c: Byte, d: Byte)
    ensures Xor(Xor(a, b), Xor(c, d)) == Xor(Xor(a, c), Xor(b, d))
  {
  }

  lemma DoubleXor(a: Byte, b: Byte)
    ensures Double(Xor(a, b)) == Xor(Double(a), Double(b))
  {
  }

  lemma DoubleZero()
    ensures Double(ZERO) == ZERO
  {
  }

  lemma {:induction false} HornerZero(s: seq<bool>)
    ensures Horner(ZERO, s) == ZERO
  {
    if |s| > 0 {
      HornerZero(s[1..]);
      DoubleZero();
      XorZero(ZERO);
    }
  }

  lemma {:induction false} HornerXor(a: Byte, b: Byte, s: seq<bool>)
    ensures Horner(Xor(a, b), s) == Xor(Horner(a, s), Horner(b, s))
  {
    XorZero(ZERO);
    if |s| > 0 {
      HornerXor(a, b, s[1..]);
      DoubleXor(Horner(a, s[1..]), Horner(b, s[1..]));
      XorSwap(When(s[0], a), When(s[0], b), Double(Horner(a, s[1..])), Double(Horner(b, s[1..])));
    }
  }

  lemma {:induction false} HornerXorBits(a: Byte, s: seq<bool>, t: seq<bool>, u: seq<bool>)
    requires |s| == |t| == |u| && forall i :: 0 <= i < |s| ==> u[i] == (s[i] != t[i])
    ensures Horner(a, u) == Xor(Horner(a, s), Horner(a, t))
  {
    XorZero(ZERO);
    XorZero(a);
    if |s| > 0 {
      HornerXorBits(a, s[1..], t[1..], u[1..]);
      DoubleXor(Horner(a, s[1..]), Horner(a, t[1..]));
      XorSwap(When(s[0], a), When(t[0], a), Double(Horner(a, s[1..])), Double(Horner(a, t[1..])));
    }
  }

  lemma {:induction false} HornerDouble(a: Byte, s: seq<bool>)
    ensures Horner(Double(a), s) == Double(Horner(a, s))
  {
    DoubleZero();
    if |s| > 0 {
      HornerDouble(a, s[1..]);
      DoubleXor(When(s[0], a), Double(Horner(a, s[1..])));
    }
  }

  /** Multiplications by two polynomials commute. */
  lemma {:induction false} HornerCommutes(a: Byte, s: seq<bool>, t: seq<bool>)
    ensures Horner(Horner(a, t), s) == Horner(Horner(a, s), t)
  {
    if |t| == 0 {
      HornerZero(s);
    } else {
      HornerCommutes(a, s, t[1..]);
      HornerXor(When(t[0], a), Double(Horner(a, t[1..])), s);
      HornerDouble(Horner(a, t[1..]), s);
      HornerZero(s);
    }
  }

  /** x^(8 - |s|) times the polynomial `s`. */
  lemma {:induction false} HornerOne(s: seq<bool>)
    requires |s| <= 8
    ensures forall i :: 0 <= i < 8 ==> Horner(ONE, s)[i] == (i < |s| && s[i])
  {
    if |s| > 0 {
      HornerOne(s[1..]);
    }
  }

  lemma MultiplyOne(b: Byte)
    ensures Multiply(ONE, b) == b
  {
    HornerOne(b);
  }

  lemma MultiplyCommutes(a: Byte, b: Byte)
    ensures Multiply(a, b) == Multiply(b, a)
  {
    MultiplyOne(a);
    MultiplyOne(b);
    HornerCommutes(ONE, a, b);
  }

  lemma MultiplyAssociates(a: Byte, b: Byte, c: Byte)
    ensures Multiply(Multiply(a, b), c) == Multiply(a, Multiply(b, c))
  {
    MultiplyCommutes(a, Multiply(b, c));
    MultiplyCommutes(a, b);
    HornerCommutes(b, a, c);
  }

  lemma MultiplyXor(a: Byte, b: Byte, c: Byte)
    ensures Multiply(a, Xor(b, c)) == Xor(Multiply(a, b), Multiply(a, c))
  {
    HornerXorBits(a, b, c, Xor(b, c));
  }

  /* Inverses: the product of the conjugates a, a^2, a^4, ..., a^128 is one. */

  function Square(a: Byte): Byte
  {
    Multiply(a, a)
  }

  /** a^(2^n). */
  function Squared(a: Byte, n: nat): Byte
  {
    if n == 0 then a else Square(Squared(a, n - 1))
  }

  /** The product of a^(2^i) for 1 <= i < n. */
  function Conjugates(a: Byte, n: nat): Byte
  {
    if n <= 1 then ONE else Multiply(Conjugates(a, n - 1), Squared(a, n - 1))
  }

  function Inverse(a: Byte): Byte
  {
    Conjugates(a, 8)
  }

  lemma MultiplyTwo(a: Byte)
    ensures Multiply(a, TWO) == Double(a)
  {
    MultiplyOne(TWO);
    assert Double(ONE) == TWO;
    MultiplyCommutes(a, TWO);
    HornerDouble(ONE, a);
    MultiplyOne(a);
  }

  lemma SquareXor(a: Byte, b: Byte)
    ensures Square(Xor(a, b)) == Xor(Square(a), Square(b))
  {
    MultiplyXor(Xor(a, b), a, b);
    MultiplyCommutes(Xor(a, b), a);
    MultiplyCommutes(Xor(a, b), b);
    MultiplyXor(a, a, b);
    MultiplyXor(b, a, b);
    MultiplyCommutes(a, b);
    XorCommutes(Multiply(a, b), Square(b));
    XorSwap(Square(a), Multiply(a, b), Square(b), Multiply(a, b));
    XorZero(Multiply(a, b));
    XorZero(Xor(Square(a), Square(b)));
  }

  lemma SquareProduct(a: Byte, b: Byte)
    ensures Square(Multiply(a, b)) == Multiply(Square(a), Square(b))
  {
    MultiplyAssociates(a, b, Multiply(a, b));
    MultiplyCommutes(a, b);
    MultiplyAssociates(b, b, a);
    MultiplyCommutes(Square(b), a);
    MultiplyAssociates(a, a, Square(b));
  }

  lemma SquareDouble(a: Byte)
    ensures Square(Double(a)) == Double(Double(Square(a)))
  {
    HornerDouble(a, Double(a));
    MultiplyCommutes(a, Double(a));
    HornerDouble(a, a);
  }

  lemma SquareOne()
    ensures Square(ONE) == ONE && Square(ZERO) == ZERO
  {
    MultiplyOne(ONE);
    HornerZero(ZERO);
  }

  /** The square of the polynomial `s`, by Horner's rule with steps of x^2. */
  function HornerSquare(s: seq<bool>): Byte
  {
    if |s| == 0 then ZERO else Xor(When(s[0], ONE), Double(Double(HornerSquare(s[1..]))))
  }

  lemma {:induction false} SquareIsHornerSquare(s: seq<bool>)
    ensures Square(Horner(ONE, s)) == HornerSquare(s)
  {
    SquareOne();
    if |s| > 0 {
      SquareIsHornerSquare(s[1..]);
      SquareXor(When(s[0], ONE), Double(Horner(ONE, s[1..])));
      SquareDouble(Horner(ONE, s[1..]));
    }
  }

  ghost predicate HasBits(a: Byte, c0: bool, c1: bool, c2: bool, c3: bool, c4: bool, c5: bool, c6: bool, c7: bool)
  {
    a[0] == c0 && a[1] == c1 && a[2] == c2 && a[3] == c3 && a[4] == c4 && a[5] == c5 && a[6] == c6 && a[7] == c7
  }

  lemma DoubleBits(v: Byte)
    ensures HasBits(Double(v), v[7], v[0], v[1] != v[7], v[2] != v[7], v[3] != v[7], v[4], v[5], v[6])
  {
  }

  lemma XorBit(h: bool, v: Byte)
    ensures HasBits(Xor(When(h, ONE), v), h != v[0], v[1], v[2], v[3], v[4], v[5], v[6], v[7])
  {
  }

  /** One step of that rule, bit by bit. */
  lemma HornerSquareStep(s: seq<bool>, i: nat)
    requires i < |s|
    ensures var v := HornerSquare(s[i + 1..]);
            HasBits(HornerSquare(s[i..]), s[i] != v[6], v[7], v[0] != v[6], (v[1] != v[6]) != v[7],
                    (v[2] != v[6]) != v[7], v[3] != v[7], v[4], v[5])
  {
    assert s[i..][1..] == s[i + 1..];
    var v := HornerSquare(s[i + 1..]);
    DoubleBits(v);
    DoubleBits(Double(v));
    XorBit(s[i], Double(Double(v)));
  }

  lemma HighSquares(s: Byte)
    ensures HasBits(HornerSquare(s[4..]), s[4], false, s[5], false, s[6], false, s[7], false)
  {
    assert s[8..] == [];
    HornerSquareStep(s, 7);
    HornerSquareStep(s, 6);
    HornerSquareStep(s, 5);
    HornerSquareStep(s, 4);
  }

  lemma MiddleSquares(s: Byte)
    ensures HasBits(HornerSquare(s[2..]), s[2] != s[6], false, (s[3] != s[6]) != s[7], s[6], (s[4] != s[6]) != s[7],
                    s[7], s[5] != s[7], false)
  {
    HighSquares(s);
    HornerSquareStep(s, 3);
    HornerSquareStep(s, 2);
  }

  lemma NextSquares(s: Byte)
    ensures HasBits(HornerSquare(s[1..]), (s[1] != s[5]) != s[7], false, ((s[2] != s[5]) != s[6]) != s[7], s[5] != s[7],
                    (s[3] != s[5]) != s[6], s[6], (s[4] != s[6]) != s[7], s[7])
  {
    MiddleSquares(s);
    HornerSquareStep(s, 1);
  }

  lemma LowSquares(s: Byte)
    ensures HasBits(HornerSquare(s[0..]), ((s[0] != s[4]) != s[6]) != s[7], s[7], ((s[1] != s[4]) != s[5]) != s[6],
                    s[4] != s[6], ((s[2] != s[4]) != s[5]) != s[7], s[5], (s[3] != s[5]) != s[6], s[6])
  {
    NextSquares(s);
    HornerSquareStep(s, 0);
  }

  /** Squaring is linear in the bits. */
  lemma SquareBits(s: Byte)
    ensures HasBits(Square(s), ((s[0] != s[4]) != s[6]) != s[7], s[7], ((s[1] != s[4]) != s[5]) != s[6], s[4] != s[6],
                    ((s[2] != s[4]) != s[5]) != s[7], s[5], (s[3] != s[5]) != s[6], s[6])
  {
    LowSquares(s);
    assert s[0..] == s;
    SquareIsHornerSquare(s);
    MultiplyOne(s);
  }

  /** Only zero and one are their own squares: the modulus is irreducible. */
  lemma Idempotent(e: Byte)
    requires Square(e) == e
    ensures e == ZERO || e == ONE
  {
    SquareBits(e);
  }

  function SquareOfBits(s: Byte): Byte
  {
    [((s[0] != s[4]) != s[6]) != s[7], s[7], ((s[1] != s[4]) != s[5]) != s[6], s[4] != s[6],
     ((s[2] != s[4]) != s[5]) != s[7], s[5], (s[3] != s[5]) != s[6], s[6]]
  }

  lemma SquareIsSquareOfBits(s: Byte)
    ensures Square(s) == SquareOfBits(s)
  {
    SquareBits(s);
  }

  function SquaredBits(s: Byte, n: nat): Byte
  {
    if n == 0 then s else SquareOfBits(SquaredBits(s, n - 1))
  }

  lemma {:induction false} SquaredIsSquaredBits(s: Byte, n: nat)
    ensures Squared(s, n) == SquaredBits(s, n)
  {
    if n > 0 {
      SquaredIsSquaredBits(s, n - 1);
      SquareIsSquareOfBits(Squared(s, n - 1));
    }
  }

  lemma TwoSquaredBits()
    ensures SquaredBits(TWO, 8) == TWO
  {
    assert SquaredBits(TWO, 2) == [false, false, false, false, true, false, false, false];
    assert SquaredBits(TWO, 4) == [false, false, true, true, false, false, true, false];
    assert SquaredBits(TWO, 6) == [true, true, true, true, true, false, true, false];
  }

  /** x^256 == x. */
  lemma TwoSquared(two: Byte, n: nat)
    requires two == TWO && n == 8
    ensures Squared(two, n) == two
  {
    SquaredIsSquaredBits(two, n);
    TwoSquaredBits();
  }

  lemma {:induction false} SquaredXor(a: Byte, b: Byte, n: nat)
    ensures Squared(Xor(a, b), n) == Xor(Squared(a, n), Squared(b, n))
  {
    if n > 0 {
      SquaredXor(a, b, n - 1);
      SquareXor(Squared(a, n - 1), Squared(b, n - 1));
    }
  }

  lemma {:induction false} SquaredProduct(a: Byte, b: Byte, n: nat)
    ensures Squared(Multiply(a, b), n) == Multiply(Squared(a, n), Squared(b, n))
  {
    if n > 0 {
      SquaredProduct(a, b, n - 1);
      SquareProduct(Squared(a, n - 1), Squared(b, n - 1));
    }
  }

  lemma {:induction false} SquaredOne(n: nat)
    ensures Squared(ONE, n) == ONE && Squared(ZERO, n) == ZERO
  {
    SquareOne();
    if n > 0 {
      SquaredOne(n - 1);
    }
  }

  lemma SquaredDouble(t: Byte, n: nat)
    requires n == 8
    ensures Squared(Double(t), n) == Double(Squared(t, n))
  {
    MultiplyTwo(t);
    SquaredProduct(t, TWO, n);
    TwoSquared(TWO, n);
    MultiplyTwo(Squared(t, n));
  }

  /** Eight squarings give back every element: a^256 == a. */
  lemma {:induction false} SquaredEight(s: seq<bool>)
    ensures Squared(Horner(ONE, s), 8) == Horner(ONE, s)
  {
    SquaredOne(8);
    if |s| > 0 {
      var t := Horner(ONE, s[1..]);
      SquaredEight(s[1..]);
      SquaredXor(When(s[0], ONE), Double(t), 8);
      SquaredDouble(t, 8);
    }
  }

  /** a times its conjugates a^2, a^4, ... is a^(2^n - 1); once more times a it is a^(2^n). */
  lemma {:induction false} ConjugatesTelescope(a: Byte, n: nat)
    requires n >= 1
    ensures Multiply(a, Multiply(a, Conjugates(a, n))) == Squared(a, n)
  {
    if n == 1 {
      MultiplyCommutes(a, ONE);
      MultiplyOne(a);
    } else {
      ConjugatesTelescope(a, n - 1);
      var c, q := Conjugates(a, n - 1), Squared(a, n - 1);
      MultiplyAssociates(a, c, q);
      MultiplyAssociates(a, Multiply(a, c), q);
    }
  }

  /** The square of the product of the conjugates is that product again. */
  lemma {:induction false} ConjugatesSquared(a: Byte, n: nat)
    requires n >= 1
    ensures Multiply(Square(a), Square(Conjugates(a, n))) == Multiply(Conjugates(a, n), Squared(a, n))
  {
    if n == 1 {
      SquareOne();
      MultiplyCommutes(Square(a), ONE);
    } else {
      ConjugatesSquared(a, n - 1);
      var c, q := Conjugates(a, n - 1), Squared(a, n - 1);
      SquareProduct(c, q);
      MultiplyAssociates(Square(a), Square(c), Square(q));
    }
  }

  lemma InverseWorks(a: Byte)
    requires a != ZERO
    ensures Multiply(a, Inverse(a)) == ONE
  {
    var e := Multiply(a, Inverse(a));
    MultiplyOne(a);
    SquaredEight(a);
    SquareProduct(a, Inverse(a));
    ConjugatesSquared(a, 8);
    MultiplyCommutes(a, Inverse(a));
    Idempotent(e);
    ConjugatesTelescope(a, 8);
    MultiplyCommutes(a, ZERO);
    HornerZero(a);
  }

  /* The field. */

  /** The binary digits of a number, the lowest first. */
  function Digits(i: nat, n: nat): (s: seq<bool>)
    ensures |s| == n
  {
    if n == 0 then [] else [i % 2 == 1] + Digits(i / 2, n - 1)
  }

  function Code(i: nat): Byte
  {
    Digits(i, 8)
  }

  function TwoTo(n: nat): nat
  {
    if n == 0 then 1 else 2 * TwoTo(n - 1)
  }

  lemma {:induction false} DigitsInjective(i: nat, j: nat, n: nat)
    requires i < TwoTo(n) && j < TwoTo(n) && Digits(i, n) == Digits(j, n)
    ensures i == j
  {
    if n > 0 {
      assert Digits(i, n)[0] == Digits(j, n)[0];
      assert Digits(i, n)[1..] == Digits(i / 2, n - 1) && Digits(j, n)[1..] == Digits(j / 2, n - 1);
      DigitsInjective(i / 2, j / 2, n - 1);
    }
  }

  /** The number that binary digits stand for. */
  function Number(s: seq<bool>): nat
  {
    if |s| == 0 then 0 else (if s[0] then 1 else 0) + 2 * Number(s[1..])
  }

  /** The code of a number is the byte that stands for it. */
  lemma {:induction false} DigitsNumber(i: nat, n: nat)
    requires i < TwoTo(n)
    ensures Number(Digits(i, n)) == i
  {
    if n > 0 {
      DigitsNumber(i / 2, n - 1);
      assert Digits(i, n)[1..] == Digits(i / 2, n - 1);
    }
  }

  /** x^n. */
  function Monomial(n: nat): Byte
    requires n < 8
  {
    seq(8, i requires 0 <= i < 8 => i == n)
  }

  /** Multiplying by x shifts, and x^8 is 1 + x^2 + x^3 + x^4. */
  lemma TimesX(n: nat)
    requires n < 8
    ensures Multiply(Monomial(n), Monomial(1))
         == if n < 7 then Monomial(n + 1) else [true, false, true, true, true, false, false, false]
  {
    assert Monomial(1) == TWO;
    MultiplyTwo(Monomial(n));
    var d := Double(Monomial(n));
    if n < 7 {
      assert d == Monomial(n + 1);
    } else {
      assert d == [true, false, true, true, true, false, false, false];
    }
  }

  const GF256: Field<Byte> := Field(ZERO, ONE, Xor, Multiply, Inverse, Code)

  /** The field laws are satisfiable. */
  lemma Gf256IsField()
    ensures IsField(GF256)
  {
    forall x: Byte, y: Byte, z: Byte
      ensures LawsAt(GF256, x, y, z)
    {
      XorZero(x);
      XorCommutes(x, y);
      XorAssociates(x, y, z);
      MultiplyCommutes(x, y);
      MultiplyAssociates(x, y, z);
      MultiplyOne(x);
      MultiplyCommutes(x, ONE);
      MultiplyXor(x, y, z);
      if x != ZERO {
        InverseWorks(x);
      }
    }
    forall i: nat, j: nat | i < j < 256
      ensures Code(i) != Code(j)
    {
      if Code(i) == Code(j) {
        assert TwoTo(8) == 256;
        DigitsInjective(i, j, 8);
      }
    }
    assert Code(0) == ZERO;
    assert ONE[0] != ZERO[0];
  }

  /** 214 is a cube root of one, and so is 1. */
  lemma CubeRoot(w: Byte)
    requires HasBits(w, false, true, true, false, true, false, true, true)
    ensures Multiply(w, Square(w)) == ONE
  {
    SquareBits(w);
    assert Square(w) == Xor(w, ONE);
    MultiplyXor(w, w, ONE);
    MultiplyCommutes(w, ONE);
    MultiplyOne(w);
    XorCommutes(w, ONE);
    XorAssociates(ONE, w, w);
    XorZero(w);
    XorZero(ONE);
  }

  lemma CodeOf214(i: nat)
    requires i == 214
    ensures HasBits(Code(i), false, true, true, false, true, false, true, true)
  {
  }

  lemma CubeIsProduct(f: Field<Byte>, x: Byte, n: nat)
    requires IsField(f) && n == 3
    ensures Power(f, x, n) == f.mul(x, f.mul(x, x))
  {
    MulOne(f, x);
    assert Power(f, x, n - 2) == f.mul(x, Power(f, x, n - 3)) == x;
    assert Power(f, x, n - 1) == f.mul(x, Power(f, x, n - 2));
  }

  lemma CubeOfRoot(f: Field<Byte>, w: Byte, n: nat)
    requires IsField(f) && f == GF256 && n == 3
    requires HasBits(w, false, true, true, false, true, false, true, true)
    ensures Power(f, w, n) == f.one
  {
    CubeRoot(w);
    CubeIsProduct(f, w, n);
  }

  lemma OneCubed(f: Field<Byte>, n: nat)
    requires IsField(f) && n == 3
    ensures Power(f, f.one, n) == f.one
  {
    CubeIsProduct(f, f.one, n);
    MulOne(f, f.one);
  }

  lemma CodeOfOne(f: Field<Byte>)
    requires f == GF256
    ensures f.code(1) == f.one
  {
    DigitsOfZero(7);
  }

  lemma {:induction false} DigitsOfZero(n: nat)
    ensures forall i :: 0 <= i < n ==> !Digits(0, n)[i]
  {
    if n > 0 {
      DigitsOfZero(n - 1);
    }
  }

  lemma CubesAgree(f: Field<Byte>, i: nat, n: nat)
    requires f == GF256 && i == 214 && n == 3 && IsField(f)
    ensures Power(f, f.code(1), n) == Power(f, f.code(i), n)
  {
    CodeOfOne(f);
    CodeOf214(i);
    CubeOfRoot(f, f.code(i), n);
    OneCubed(f, n);
  }

  lemma EqualPowersLose(f: Field<Byte>, k: nat, m: nat, missing: seq<nat>, chosen: seq<nat>)
    requires IsField(f) && k + m <= 256 && |missing| == |chosen| == 2
    requires missing[0] < missing[1] < k && chosen[0] < chosen[1] < m
    requires Power(f, f.code(missing[0] + 1), chosen[1] - chosen[0]) == Power(f, f.code(missing[1] + 1), chosen[1] - chosen[0])
    ensures RecoverArguments(VandermondeMatrix(f, k, m), missing, chosen)
    ensures CreateRecover(f, VandermondeMatrix(f, k, m), missing, chosen).Failure?
  {
    VandermondeTwoLosses(f, k, m, missing, chosen);
  }

  /** A loss that a Vandermonde code does not recover from, however many more blocks it has: data
      blocks 0 and 213, when redundancy blocks 0 and 3 are the ones at hand. */
  lemma VandermondeLosesData(f: Field<Byte>, k: nat, m: nat, missing: seq<nat>, chosen: seq<nat>)
    requires f == GF256 && 213 < k && 3 < m && k + m <= 256
    requires missing == [0, 213] && chosen == [0, 3]
    ensures IsField(f)
    ensures RecoverArguments(VandermondeMatrix(f, k, m), missing, chosen)
    ensures CreateRecover(f, VandermondeMatrix(f, k, m), missing, chosen).Failure?
  {
    Gf256IsField();
    CubesAgree(f, missing[1] + 1, chosen[1]);
    EqualPowersLose(f, k, m, missing, chosen);
  }
}

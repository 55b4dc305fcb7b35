/** The field of 256 elements that Reed-Solomon codes over bytes use:
    polynomials over GF(2) modulo x^8 + x^4 + x^3 + x^2 + 1.

    Multiplication is schoolbook multiplication by shifting. Commutativity and
    associativity follow from linearity in each argument; inverses follow from
    squaring being linear with 0 and 1 as its only fixed points.
 */
module GF256 {
  import opened Basics
  import opened Fields

  datatype Elem = Elem(b0: bool, b1: bool, b2: bool, b3: bool, b4: bool, b5: bool, b6: bool, b7: bool)

  const ZERO := Elem(false, false, false, false, false, false, false, false)
  const ONE := Elem(true, false, false, false, false, false, false, false)

  function Add(a: Elem, b: Elem): Elem {
    Elem(a.b0 != b.b0, a.b1 != b.b1, a.b2 != b.b2, a.b3 != b.b3, a.b4 != b.b4, a.b5 != b.b5, a.b6 != b.b6, a.b7 != b.b7)
  }

  /** Multiplication by x. */
  function Shift(a: Elem): Elem {
    Elem(a.b7, a.b0, a.b1 != a.b7, a.b2 != a.b7, a.b3 != a.b7, a.b4, a.b5, a.b6)
  }

  /** The coefficient of x^i. */
  function Coef(a: Elem, i: nat): bool {
    if i == 0 then a.b0 else if i == 1 then a.b1 else if i == 2 then a.b2 else if i == 3 then a.b3
    else if i == 4 then a.b4 else if i == 5 then a.b5 else if i == 6 then a.b6 else a.b7
  }

  function When(c: bool, a: Elem): Elem { if c then a else ZERO }

  /** The part of the product a * b due to the coefficients of a from x^i up, where b is already shifted i times. */
  function From(i: nat, a: Elem, b: Elem): Elem
    decreases 8 - i, a, b
  {
    if i >= 8 then ZERO else Add(When(Coef(a, i), b), From(i + 1, a, Shift(b)))
  }

  function Mul(a: Elem, b: Elem): Elem { From(0, a, b) }

  lemma ByCoordinates(a: Elem, b: Elem)
    requires a.b0 == b.b0
    requires a.b1 == b.b1
    requires a.b2 == b.b2
    requires a.b3 == b.b3
    requires a.b4 == b.b4
    requires a.b5 == b.b5
    requires a.b6 == b.b6
    requires a.b7 == b.b7
    ensures a == b
  {}

  // Linearity

  lemma AddSwap(p: Elem, q: Elem, r: Elem, s: Elem)
    ensures Add(Add(p, q), Add(r, s)) == Add(Add(p, r), Add(q, s))
  {}

  lemma AddCancels(p: Elem, q: Elem, r: Elem)
    ensures Add(Add(p, q), Add(q, r)) == Add(p, r)
  {}

  lemma ShiftAdd(a: Elem, b: Elem)
    ensures Shift(Add(a, b)) == Add(Shift(a), Shift(b))
  {}

  lemma WhenAdd(c: bool, a: Elem, b: Elem)
    ensures When(c, Add(a, b)) == Add(When(c, a), When(c, b))
  {}

  lemma WhenCoef(a: Elem, b: Elem, i: nat, c: Elem)
    ensures When(Coef(Add(a, b), i), c) == Add(When(Coef(a, i), c), When(Coef(b, i), c))
  {}

  lemma WhenShift(c: bool, a: Elem)
    ensures When(c, Shift(a)) == Shift(When(c, a))
  {}

  lemma {:induction false} FromAddR(i: nat, a: Elem, b: Elem, c: Elem)
    ensures From(i, a, Add(b, c)) == Add(From(i, a, b), From(i, a, c))
    decreases 8 - i
  {
    if i < 8 {
      hide Add, Shift, When, Coef;
      ShiftAdd(b, c);
      FromAddR(i + 1, a, Shift(b), Shift(c));
      AddSwap(When(Coef(a, i), b), When(Coef(a, i), c), From(i + 1, a, Shift(b)), From(i + 1, a, Shift(c)));
      WhenAdd(Coef(a, i), b, c);
    }
  }

  lemma {:induction false} FromAddL(i: nat, a: Elem, b: Elem, c: Elem)
    ensures From(i, Add(a, b), c) == Add(From(i, a, c), From(i, b, c))
    decreases 8 - i
  {
    if i < 8 {
      hide Add, Shift, When, Coef;
      FromAddL(i + 1, a, b, Shift(c));
      AddSwap(When(Coef(a, i), c), When(Coef(b, i), c), From(i + 1, a, Shift(c)), From(i + 1, b, Shift(c)));
      WhenCoef(a, b, i, c);
    }
  }

  lemma {:induction false} FromShift(i: nat, a: Elem, b: Elem)
    ensures From(i, a, Shift(b)) == Shift(From(i, a, b))
    decreases 8 - i
  {
    if i < 8 {
      hide Add, Shift, When, Coef;
      FromShift(i + 1, a, Shift(b));
      WhenShift(Coef(a, i), b);
      ShiftAdd(When(Coef(a, i), b), From(i + 1, a, Shift(b)));
    }
  }

  lemma MulAdd(a: Elem, b: Elem, c: Elem)
    ensures Mul(a, Add(b, c)) == Add(Mul(a, b), Mul(a, c))
  {
    hide Add;
    FromAddR(0, a, b, c);
  }

  lemma MulShift(a: Elem, b: Elem)
    ensures Mul(a, Shift(b)) == Shift(Mul(a, b))
  {
    hide Shift;
    FromShift(0, a, b);
  }

  lemma MulZero(a: Elem)
    ensures Mul(a, ZERO) == ZERO
  {
    MulAdd(a, ZERO, ZERO);
    hide Mul;
  }

  lemma MulWhen(a: Elem, c: bool, b: Elem)
    ensures Mul(a, When(c, b)) == When(c, Mul(a, b))
  {
    MulZero(a);
    hide Mul;
  }

  // Every element is the sum of its terms

  function Unit(i: nat): Elem { Elem(i == 0, i == 1, i == 2, i == 3, i == 4, i == 5, i == 6, i == 7) }

  /** The terms of a of degree at least i. */
  function High(a: Elem, i: nat): Elem {
    Elem(i <= 0 && a.b0, i <= 1 && a.b1, i <= 2 && a.b2, i <= 3 && a.b3, i <= 4 && a.b4, i <= 5 && a.b5, i <= 6 && a.b6, i <= 7 && a.b7)
  }

  lemma HighStep(a: Elem, i: nat)
    requires i < 8
    ensures High(a, i) == Add(When(Coef(a, i), Unit(i)), High(a, i + 1))
    ensures i < 7 ==> Shift(Unit(i)) == Unit(i + 1)
  {}

  lemma {:induction false} FromUnit(i: nat, a: Elem)
    requires i < 8
    ensures From(i, a, Unit(i)) == High(a, i)
    decreases 8 - i
  {
    HighStep(a, i);
    if i < 7 {
      hide Add, Shift, When, Coef, Unit, High;
      FromUnit(i + 1, a);
    } else {
      assert From(8, a, Shift(Unit(7))) == ZERO == High(a, 8);
      hide Add, Shift, When, Coef, Unit, High;
    }
  }

  lemma MulOne(a: Elem)
    ensures Mul(a, ONE) == a
  {
    FromUnit(0, a);
    assert Unit(0) == ONE;
  }

  // Commutativity and associativity

  lemma {:induction false} MulFrom(b: Elem, i: nat, a: Elem, x: Elem)
    ensures Mul(b, From(i, a, x)) == From(i, a, Mul(b, x))
    decreases 8 - i
  {
    hide Add, Shift, When, Coef, Mul;
    if i >= 8 {
      MulZero(b);
    } else {
      MulAdd(b, When(Coef(a, i), x), From(i + 1, a, Shift(x)));
      MulWhen(b, Coef(a, i), x);
      MulFrom(b, i + 1, a, Shift(x));
      MulShift(b, x);
    }
  }

  lemma MulComm(a: Elem, b: Elem)
    ensures Mul(a, b) == Mul(b, a)
  {
    MulFrom(b, 0, a, ONE);
    MulOne(a);
    MulOne(b);
    hide From;
  }

  lemma MulLeftComm(a: Elem, b: Elem, c: Elem)
    ensures Mul(b, Mul(a, c)) == Mul(a, Mul(b, c))
  {
    MulFrom(b, 0, a, c);
    hide From;
  }

  lemma MulAssoc(a: Elem, b: Elem, c: Elem)
    ensures Mul(Mul(a, b), c) == Mul(a, Mul(b, c))
  {
    hide Mul;
    MulComm(Mul(a, b), c);
    MulLeftComm(a, c, b);
    MulComm(b, c);
  }

  // Squaring is linear

  function Square(a: Elem): Elem {
    Elem((a.b0 != a.b4) != (a.b6 != a.b7), a.b7, (a.b1 != a.b4) != (a.b5 != a.b6), a.b4 != a.b6,
         (a.b2 != a.b4) != (a.b5 != a.b7), a.b5, (a.b3 != a.b5) != a.b6, a.b6)
  }

  lemma SquareAdd(a: Elem, b: Elem)
    ensures Square(Add(a, b)) == Add(Square(a), Square(b))
  {
    ByCoordinates(Square(Add(a, b)), Add(Square(a), Square(b)));
  }

  lemma SquareUnit(i: nat)
    requires i < 7
    ensures Square(Unit(i + 1)) == Shift(Shift(Square(Unit(i))))
  {}

  lemma SquareFixed(a: Elem)
    requires Square(a) == a
    ensures a == ZERO || a == ONE
  {}

  lemma MulAddSelf(a: Elem, b: Elem)
    ensures Mul(Add(a, b), Add(a, b)) == Add(Mul(a, a), Mul(b, b))
  {
    hide Mul;
    MulAdd(Add(a, b), a, b);
    MulComm(Add(a, b), a);
    MulComm(Add(a, b), b);
    MulAdd(a, a, b);
    MulAdd(b, a, b);
    MulComm(a, b);
    AddCancels(Mul(a, a), Mul(a, b), Mul(b, b));
  }

  lemma {:induction false} MulUnit(i: nat)
    requires i < 8
    ensures Mul(Unit(i), Unit(i)) == Square(Unit(i))
  {
    if i == 0 {
      MulOne(ONE);
      assert Unit(0) == ONE;
    } else {
      var u := Unit(i - 1);
      MulUnit(i - 1);
      SquareUnit(i - 1);
      assert Unit(i) == Shift(u);
      hide Mul, Square, Shift, Unit;
      MulShift(Shift(u), u);
      MulComm(Shift(u), u);
      MulShift(u, u);
    }
  }

  lemma Ends(a: Elem)
    ensures High(a, 0) == a && High(a, 8) == ZERO == Square(ZERO) == Mul(ZERO, ZERO)
  {
    MulZero(ZERO);
    hide Mul;
  }

  lemma MulTerm(i: nat, c: bool)
    requires i < 8
    ensures Mul(When(c, Unit(i)), When(c, Unit(i))) == Square(When(c, Unit(i)))
  {
    hide Mul, Unit;
    MulUnit(i);
    MulZero(ZERO);
  }

  lemma {:induction false} MulHigh(i: nat, a: Elem)
    requires i <= 8
    ensures Mul(High(a, i), High(a, i)) == Square(High(a, i))
    decreases 8 - i
  {
    hide Mul, Square, High, Add, Unit, Coef, When, Shift;
    Ends(a);
    if i < 8 {
      var t := When(Coef(a, i), Unit(i));
      HighStep(a, i);
      MulHigh(i + 1, a);
      MulTerm(i, Coef(a, i));
      MulAddSelf(t, High(a, i + 1));
      SquareAdd(t, High(a, i + 1));
    }
  }

  lemma MulSelf(a: Elem)
    ensures Mul(a, a) == Square(a)
  {
    hide Mul, High, Square;
    MulHigh(0, a);
    Ends(a);
  }

  // a^256 = a

  /** a^(2^n) */
  function Frobenius(n: nat, a: Elem): Elem { if n == 0 then a else Frobenius(n - 1, Square(a)) }

  lemma {:induction false} FrobeniusAdd(n: nat, a: Elem, b: Elem)
    ensures Frobenius(n, Add(a, b)) == Add(Frobenius(n, a), Frobenius(n, b))
  {
    if n > 0 {
      hide Add, Square;
      SquareAdd(a, b);
      FrobeniusAdd(n - 1, Square(a), Square(b));
    }
  }

  lemma FrobeniusEight(a: Elem)
    ensures Frobenius(8, a) == Square(Square(Square(Square(Square(Square(Square(Square(a))))))))
  {
    hide Square;
    var s1 := Square(a);
    var s2 := Square(s1);
    var s3 := Square(s2);
    var s4 := Square(s3);
    assert Frobenius(8, a) == Frobenius(4, s4) by {
      assert Frobenius(7, s1) == Frobenius(6, s2) == Frobenius(5, s3) == Frobenius(4, s4);
    }
    var s5 := Square(s4);
    var s6 := Square(s5);
    var s7 := Square(s6);
    assert Frobenius(3, s5) == Frobenius(2, s6) == Frobenius(1, s7) == Frobenius(0, Square(s7));
  }

  lemma FrobeniusTerm(i: nat, c: bool)
    requires i < 8
    ensures Frobenius(8, When(c, Unit(i))) == When(c, Unit(i))
  {
    FrobeniusEight(When(c, Unit(i)));
  }

  lemma FrobeniusZero()
    ensures Frobenius(8, ZERO) == ZERO
  {
    FrobeniusTerm(0, false);
  }

  lemma {:induction false} FrobeniusHigh(i: nat, a: Elem)
    requires i <= 8
    ensures Frobenius(8, High(a, i)) == High(a, i)
    decreases 8 - i
  {
    hide Add, Square, High, When, Unit, Coef, Frobenius, Shift;
    Ends(a);
    if i == 8 {
      FrobeniusZero();
    } else {
      HighStep(a, i);
      FrobeniusHigh(i + 1, a);
      FrobeniusTerm(i, Coef(a, i));
      FrobeniusAdd(8, When(Coef(a, i), Unit(i)), High(a, i + 1));
    }
  }

  // Inverses

  /** a^(2^(n+1) - 1), the product of a^(2^i) for i up to n. */
  function Product(n: nat, a: Elem): Elem { if n == 0 then a else Mul(a, Product(n - 1, Square(a))) }

  lemma SquareMul(a: Elem, b: Elem)
    ensures Square(Mul(a, b)) == Mul(Square(a), Square(b))
  {
    hide Mul, Square;
    MulSelf(Mul(a, b));
    MulSelf(a);
    MulSelf(b);
    MulAssoc(a, b, Mul(a, b));
    MulLeftComm(a, b, b);
    MulAssoc(a, a, Mul(b, b));
  }

  lemma {:induction false} SquareProduct(n: nat, a: Elem)
    ensures Square(Product(n, a)) == Product(n, Square(a))
  {
    hide Mul, Square;
    if n > 0 {
      SquareMul(a, Product(n - 1, Square(a)));
      SquareProduct(n - 1, Square(a));
    }
  }

  lemma {:induction false} ProductLast(n: nat, a: Elem)
    requires n > 0
    ensures Product(n, a) == Mul(Product(n - 1, a), Frobenius(n, a))
  {
    hide Mul, Square;
    if n > 1 {
      ProductLast(n - 1, Square(a));
      MulAssoc(a, Product(n - 2, Square(a)), Frobenius(n - 1, Square(a)));
    } else {
      assert Product(0, Square(a)) == Frobenius(0, Square(a)) == Frobenius(1, a);
    }
  }

  lemma {:induction false} ProductTimes(n: nat, a: Elem)
    ensures Mul(Product(n, a), a) == Frobenius(n + 1, a)
  {
    hide Mul, Square;
    MulSelf(a);
    if n == 0 {
      assert Frobenius(0, Square(a)) == Square(a);
    } else {
      ProductTimes(n - 1, Square(a));
      MulComm(Product(n, a), a);
      MulAssoc(a, a, Product(n - 1, Square(a)));
      MulComm(Square(a), Product(n - 1, Square(a)));
    }
  }

  /** a^254 */
  function Inverse(a: Elem): Elem { Product(6, Square(a)) }

  lemma MulInverse(a: Elem)
    requires a != ZERO
    ensures Mul(a, Inverse(a)) == ONE
  {
    hide Mul, Square, High;
    var e := Product(7, a);
    FrobeniusHigh(0, a);
    Ends(a);
    SquareProduct(7, a);
    ProductLast(7, Square(a));
    MulComm(Inverse(a), a);
    assert Frobenius(7, Square(a)) == a;
    SquareFixed(e);
    ProductTimes(7, a);
    MulComm(e, a);
    MulZero(a);
  }

  function Div(a: Elem, b: Elem): Elem { Mul(a, Inverse(b)) }

  const GF: Field<Elem> := Field(ZERO, ONE, Add, Add, Mul, Div)

  lemma AddComm(a: Elem, b: Elem)
    ensures Add(a, b) == Add(b, a)
  {}

  lemma AddZero(a: Elem)
    ensures Add(ZERO, a) == a
  {}

  lemma AddSelf(a: Elem, b: Elem)
    ensures Add(Add(a, b), b) == a
  {}

  lemma AddAssociative(a: Elem, b: Elem, c: Elem)
    ensures Add(Add(a, b), c) == Add(a, Add(b, c))
  {
    hide Add;
    AddSwap(a, b, ZERO, c);
    AddZero(c);
    AddZero(a);
    AddComm(ZERO, a);
  }

  lemma MulDiv(a: Elem, b: Elem)
    requires b != ZERO
    ensures Mul(b, Div(a, b)) == a
  {
    hide Mul, Inverse;
    MulInverse(b);
    MulLeftComm(b, a, Inverse(b));
    MulOne(a);
  }

  lemma Additive()
    ensures forall a, b :: GF.add(a, b) == GF.add(b, a)
    ensures forall a, b, c :: GF.add(GF.add(a, b), c) == GF.add(a, GF.add(b, c))
    ensures forall a :: GF.add(GF.zero, a) == a
    ensures forall a, b :: GF.add(GF.sub(a, b), b) == a
  {
    hide Add;
    forall a, b ensures GF.add(a, b) == GF.add(b, a) { AddComm(a, b); }
    forall a, b, c ensures GF.add(GF.add(a, b), c) == GF.add(a, GF.add(b, c)) { AddAssociative(a, b, c); }
    forall a ensures GF.add(GF.zero, a) == a { AddZero(a); }
    forall a, b ensures GF.add(GF.sub(a, b), b) == a { AddSelf(a, b); }
  }

  lemma Multiplicative()
    ensures forall a, b :: GF.mul(a, b) == GF.mul(b, a)
    ensures forall a, b, c :: GF.mul(GF.mul(a, b), c) == GF.mul(a, GF.mul(b, c))
    ensures forall a :: GF.mul(GF.one, a) == a
    ensures forall a, b :: b != GF.zero ==> GF.mul(b, GF.div(a, b)) == a
  {
    hide Mul, Div;
    forall a, b ensures GF.mul(a, b) == GF.mul(b, a) { MulComm(a, b); }
    forall a, b, c ensures GF.mul(GF.mul(a, b), c) == GF.mul(a, GF.mul(b, c)) { MulAssoc(a, b, c); }
    forall a ensures GF.mul(GF.one, a) == a { MulComm(ONE, a); MulOne(a); }
    forall a, b ensures b != GF.zero ==> GF.mul(b, GF.div(a, b)) == a { if b != ZERO { MulDiv(a, b); } }
  }

  lemma Distributive()
    ensures forall a, b, c :: GF.mul(a, GF.add(b, c)) == GF.add(GF.mul(a, b), GF.mul(a, c))
  {
    hide Mul, Add;
    forall a, b, c ensures GF.mul(a, GF.add(b, c)) == GF.add(GF.mul(a, b), GF.mul(a, c)) { MulAdd(a, b, c); }
  }

  /** Bytes with these operations are a field. */
  lemma GFIsField()
    ensures IsField(GF)
  {
    Additive();
    Multiplicative();
    Distributive();
    hide Mul, Add, Div;
  }

  // Bytes and field elements

  function Join(c: bool, rest: nat): nat { if c then 1 + 2 * rest else 2 * rest }

  function ToByte(a: Elem): byte {
    Join(a.b0, Join(a.b1, Join(a.b2, Join(a.b3, Join(a.b4, Join(a.b5, Join(a.b6, Join(a.b7, 0))))))))
  }

  function FromByte(x: byte): Elem {
    var x1 := x / 2;
    var x2 := x1 / 2;
    var x3 := x2 / 2;
    var x4 := x3 / 2;
    var x5 := x4 / 2;
    var x6 := x5 / 2;
    var x7 := x6 / 2;
    Elem(x % 2 == 1, x1 % 2 == 1, x2 % 2 == 1, x3 % 2 == 1, x4 % 2 == 1, x5 % 2 == 1, x6 % 2 == 1, x7 % 2 == 1)
  }

  lemma Rejoin(x: nat)
    ensures Join(x % 2 == 1, x / 2) == x
  {}

  lemma ToFromByte(x: byte)
    ensures ToByte(FromByte(x)) == x
  {
    var x1 := x / 2;
    var x2 := x1 / 2;
    var x3 := x2 / 2;
    var x4 := x3 / 2;
    var x5 := x4 / 2;
    var x6 := x5 / 2;
    var x7 := x6 / 2;
    assert x7 / 2 == 0;
    hide Join;
    Rejoin(x);
    Rejoin(x1);
    Rejoin(x2);
    Rejoin(x3);
    Rejoin(x4);
    Rejoin(x5);
    Rejoin(x6);
    Rejoin(x7);
  }

  lemma Halve(c: bool, rest: nat)
    ensures Join(c, rest) / 2 == rest && (Join(c, rest) % 2 == 1) == c
  {}

  lemma FromToByte(a: Elem)
    ensures FromByte(ToByte(a)) == a
  {
    var x7 := Join(a.b7, 0);
    var x6 := Join(a.b6, x7);
    var x5 := Join(a.b5, x6);
    var x4 := Join(a.b4, x5);
    var x3 := Join(a.b3, x4);
    var x2 := Join(a.b2, x3);
    var x1 := Join(a.b1, x2);
    Halve(a.b0, x1);
    Halve(a.b1, x2);
    Halve(a.b2, x3);
    Halve(a.b3, x4);
    Halve(a.b4, x5);
    Halve(a.b5, x6);
    Halve(a.b6, x7);
    Halve(a.b7, 0);
    assert ToByte(a) == Join(a.b0, x1);
    hide Join;
  }
}

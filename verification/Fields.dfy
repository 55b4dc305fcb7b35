/** Fields given by their operations, and interpolation over them.

    A Reed-Solomon code is polynomial evaluation, so the facts an erasure code
    rests on are about polynomials over an arbitrary field: a polynomial with k
    coefficients is determined everywhere by its values at any k distinct points.
 */
module Fields {
  datatype Field<!T> = Field(zero: T, one: T, add: (T, T) -> T, sub: (T, T) -> T, mul: (T, T) -> T, div: (T, T) -> T)

  ghost predicate IsField<T(!new)>(f: Field<T>) {
    && (forall a, b :: f.add(a, b) == f.add(b, a))
    && (forall a, b, c :: f.add(f.add(a, b), c) == f.add(a, f.add(b, c)))
    && (forall a :: f.add(f.zero, a) == a)
    && (forall a, b :: f.add(f.sub(a, b), b) == a)
    && (forall a, b :: f.mul(a, b) == f.mul(b, a))
    && (forall a, b, c :: f.mul(f.mul(a, b), c) == f.mul(a, f.mul(b, c)))
    && (forall a :: f.mul(f.one, a) == a)
    && (forall a, b, c :: f.mul(a, f.add(b, c)) == f.add(f.mul(a, b), f.mul(a, c)))
    && (forall a, b :: b != f.zero ==> f.mul(b, f.div(a, b)) == a)
  }

  // The axioms one instance at a time, so that proofs can choose which ones they see.

  lemma AddComm<T(!new)>(f: Field<T>, a: T, b: T)
    requires IsField(f)
    ensures f.add(a, b) == f.add(b, a)
  {}

  lemma AddAssoc<T(!new)>(f: Field<T>, a: T, b: T, c: T)
    requires IsField(f)
    ensures f.add(f.add(a, b), c) == f.add(a, f.add(b, c))
  {}

  lemma AddZero<T(!new)>(f: Field<T>, a: T)
    requires IsField(f)
    ensures f.add(f.zero, a) == a == f.add(a, f.zero)
  {}

  lemma SubAdd<T(!new)>(f: Field<T>, a: T, b: T)
    requires IsField(f)
    ensures f.add(f.sub(a, b), b) == a
  {}

  lemma MulComm<T(!new)>(f: Field<T>, a: T, b: T)
    requires IsField(f)
    ensures f.mul(a, b) == f.mul(b, a)
  {}

  lemma MulAssoc<T(!new)>(f: Field<T>, a: T, b: T, c: T)
    requires IsField(f)
    ensures f.mul(f.mul(a, b), c) == f.mul(a, f.mul(b, c))
  {}

  lemma MulOne<T(!new)>(f: Field<T>, a: T)
    requires IsField(f)
    ensures f.mul(f.one, a) == a
  {}

  lemma Distrib<T(!new)>(f: Field<T>, a: T, b: T, c: T)
    requires IsField(f)
    ensures f.mul(a, f.add(b, c)) == f.add(f.mul(a, b), f.mul(a, c))
  {}

  lemma MulDiv<T(!new)>(f: Field<T>, a: T, b: T)
    requires IsField(f) && b != f.zero
    ensures f.mul(b, f.div(a, b)) == a
  {}

  lemma DistribL<T(!new)>(f: Field<T>, a: T, b: T, c: T)
    requires IsField(f)
    ensures f.mul(f.add(a, b), c) == f.add(f.mul(a, c), f.mul(b, c))
  {
    hide IsField;
    MulComm(f, f.add(a, b), c);
    Distrib(f, c, a, b);
    MulComm(f, a, c);
    MulComm(f, b, c);
  }

  lemma AddCancel<T(!new)>(f: Field<T>, a: T, b: T, c: T)
    requires IsField(f) && f.add(a, c) == f.add(b, c)
    ensures a == b
  {
    hide IsField;
    var n := f.sub(f.zero, c);
    SubAdd(f, f.zero, c);
    AddComm(f, n, c);
    AddAssoc(f, a, c, n);
    AddAssoc(f, b, c, n);
    AddZero(f, a);
    AddZero(f, b);
  }

  lemma MulZero<T(!new)>(f: Field<T>, a: T)
    requires IsField(f)
    ensures f.mul(a, f.zero) == f.zero == f.mul(f.zero, a)
  {
    hide IsField;
    Distrib(f, a, f.zero, f.zero);
    AddZero(f, f.zero);
    AddZero(f, f.mul(a, f.zero));
    AddCancel(f, f.mul(a, f.zero), f.zero, f.mul(a, f.zero));
    MulComm(f, a, f.zero);
  }

  lemma MulCancel<T(!new)>(f: Field<T>, b: T, x: T, y: T)
    requires IsField(f) && b != f.zero && f.mul(b, x) == f.mul(b, y)
    ensures x == y
  {
    hide IsField;
    var i := f.div(f.one, b);
    MulDiv(f, f.one, b);
    MulComm(f, b, i);
    MulAssoc(f, i, b, x);
    MulAssoc(f, i, b, y);
    MulOne(f, x);
    MulOne(f, y);
  }

  lemma SubNonZero<T(!new)>(f: Field<T>, a: T, b: T)
    requires IsField(f) && a != b
    ensures f.sub(a, b) != f.zero
  {
    hide IsField;
    SubAdd(f, a, b);
    AddZero(f, b);
  }
}

module Polynomials {
  import opened Fields

  /** The value at x of the polynomial with coefficients c, lowest degree first. */
  function Eval<T>(f: Field<T>, c: seq<T>, x: T): T {
    if c == [] then f.zero else f.add(c[0], f.mul(x, Eval(f, c[1..], x)))
  }

  /** The quotient of c by (x - a). */
  function Quotient<T>(f: Field<T>, c: seq<T>, a: T): (q: seq<T>)
    ensures |q| == if c == [] then 0 else |c| - 1
  {
    if |c| <= 1 then [] else [Eval(f, c[1..], a)] + Quotient(f, c[1..], a)
  }

  /** Dividing by (x - a) leaves the value at a as the remainder. */
  lemma {:induction false} Remainder<T(!new)>(f: Field<T>, c: seq<T>, a: T, x: T)
    requires IsField(f) && c != []
    ensures Eval(f, c, x) == f.add(Eval(f, c, a), f.mul(f.sub(x, a), Eval(f, Quotient(f, c, a), x)))
  {
    hide IsField;
    var d := f.sub(x, a);
    if |c| == 1 {
      assert Eval(f, c[1..], x) == Eval(f, c[1..], a) == f.zero;
      MulZero(f, x);
      MulZero(f, a);
      MulZero(f, d);
      AddZero(f, Eval(f, c, a));
    } else {
      var e := Eval(f, c[1..], a);
      var q := Eval(f, Quotient(f, c[1..], a), x);
      Remainder(f, c[1..], a, x);
      assert Quotient(f, c, a)[1..] == Quotient(f, c[1..], a);
      HornerStep(f, c[0], d, a, x, e, q);
    }
  }

  lemma HornerStep<T(!new)>(f: Field<T>, c0: T, d: T, a: T, x: T, e: T, q: T)
    requires IsField(f) && d == f.sub(x, a)
    ensures f.add(c0, f.mul(x, f.add(e, f.mul(d, q)))) == f.add(f.add(c0, f.mul(a, e)), f.mul(d, f.add(e, f.mul(x, q))))
  {
    hide IsField;
    var ae, de, xdq := f.mul(a, e), f.mul(d, e), f.mul(x, f.mul(d, q));
    Distrib(f, x, e, f.mul(d, q));
    SubAdd(f, x, a);
    DistribL(f, d, a, e);
    AddComm(f, de, ae);
    AddAssoc(f, ae, de, xdq);
    assert f.mul(x, f.add(e, f.mul(d, q))) == f.add(ae, f.add(de, xdq));
    Distrib(f, d, e, f.mul(x, q));
    MulAssoc(f, d, x, q);
    MulComm(f, d, x);
    MulAssoc(f, x, d, q);
    AddAssoc(f, c0, ae, f.add(de, xdq));
  }

  /** Newton's divided differences with respect to the first point. */
  function Differences<T>(f: Field<T>, xs: seq<T>, ys: seq<T>): (d: seq<T>)
    requires |xs| == |ys| > 0
    ensures |d| == |ys| - 1
  {
    seq(|ys| - 1, i requires 0 <= i < |ys| - 1 => f.div(f.sub(ys[i + 1], ys[0]), f.sub(xs[i + 1], xs[0])))
  }

  /** The value at x of the polynomial through the points (xs[i], ys[i]). */
  function Interpolate<T>(f: Field<T>, xs: seq<T>, ys: seq<T>, x: T): T
    requires |xs| == |ys|
    decreases |xs|
  {
    if xs == [] then f.zero
    else f.add(ys[0], f.mul(f.sub(x, xs[0]), Interpolate(f, xs[1..], Differences(f, xs, ys), x)))
  }

  ghost predicate Distinct<T>(xs: seq<T>) {
    forall i, j :: 0 <= i < j < |xs| ==> xs[i] != xs[j]
  }

  function Values<T>(f: Field<T>, c: seq<T>, xs: seq<T>): (ys: seq<T>)
    ensures |ys| == |xs|
  {
    seq(|xs|, i requires 0 <= i < |xs| => Eval(f, c, xs[i]))
  }

  lemma DifferencesOfValues<T(!new)>(f: Field<T>, c: seq<T>, xs: seq<T>)
    requires IsField(f) && Distinct(xs) && c != [] && xs != []
    ensures Differences(f, xs, Values(f, c, xs)) == Values(f, Quotient(f, c, xs[0]), xs[1..])
  {
    hide IsField;
    var ys := Values(f, c, xs);
    var zs := Values(f, Quotient(f, c, xs[0]), xs[1..]);
    forall i | 0 <= i < |xs| - 1 ensures Differences(f, xs, ys)[i] == zs[i] {
      var d, q := f.sub(xs[i + 1], xs[0]), zs[i];
      Remainder(f, c, xs[0], xs[i + 1]);
      SubAdd(f, ys[i + 1], ys[0]);
      AddComm(f, ys[0], f.mul(d, q));
      AddCancel(f, f.sub(ys[i + 1], ys[0]), f.mul(d, q), ys[0]);
      SubNonZero(f, xs[i + 1], xs[0]);
      MulDiv(f, f.mul(d, q), d);
      MulCancel(f, d, f.div(f.mul(d, q), d), q);
    }
  }

  /** k values of a polynomial with k coefficients determine it at every point. */
  lemma {:induction false} InterpolateValues<T(!new)>(f: Field<T>, c: seq<T>, xs: seq<T>, x: T)
    requires IsField(f) && Distinct(xs) && |c| == |xs|
    ensures Interpolate(f, xs, Values(f, c, xs), x) == Eval(f, c, x)
    decreases |xs|
  {
    hide IsField;
    if xs != [] {
      DifferencesOfValues(f, c, xs);
      InterpolateValues(f, Quotient(f, c, xs[0]), xs[1..], x);
      Remainder(f, c, xs[0], x);
    }
  }

  /** Interpolation passes through its points. */
  lemma {:induction false} InterpolateHits<T(!new)>(f: Field<T>, xs: seq<T>, ys: seq<T>, j: nat)
    requires IsField(f) && Distinct(xs) && |xs| == |ys| && j < |xs|
    ensures Interpolate(f, xs, ys, xs[j]) == ys[j]
    decreases |xs|
  {
    hide IsField;
    var d := f.sub(xs[j], xs[0]);
    if j == 0 {
      SubAdd(f, xs[0], xs[0]);
      AddZero(f, xs[0]);
      AddCancel(f, d, f.zero, xs[0]);
      MulZero(f, Interpolate(f, xs[1..], Differences(f, xs, ys), xs[0]));
      AddZero(f, ys[0]);
    } else {
      InterpolateHits(f, xs[1..], Differences(f, xs, ys), j - 1);
      SubNonZero(f, xs[j], xs[0]);
      MulDiv(f, f.sub(ys[j], ys[0]), d);
      SubAdd(f, ys[j], ys[0]);
      AddComm(f, f.sub(ys[j], ys[0]), ys[0]);
    }
  }

  /** Coefficients of y + (x - a) * q(x). */
  function Grow<T>(f: Field<T>, y: T, a: T, q: seq<T>): (c: seq<T>)
    ensures |c| == |q| + 1
    decreases |q|
  {
    if q == [] then [y] else [f.sub(y, f.mul(a, q[0]))] + Grow(f, q[0], a, q[1..])
  }

  lemma {:induction false} EvalGrow<T(!new)>(f: Field<T>, y: T, a: T, q: seq<T>, x: T)
    requires IsField(f)
    ensures Eval(f, Grow(f, y, a, q), x) == f.add(y, f.mul(f.sub(x, a), Eval(f, q, x)))
    decreases |q|
  {
    hide IsField;
    var d := f.sub(x, a);
    if q == [] {
      MulZero(f, x);
      MulZero(f, d);
      assert Eval(f, Grow(f, y, a, q)[1..], x) == f.zero;
    } else {
      var rest := Eval(f, q[1..], x);
      EvalGrow(f, q[0], a, q[1..], x);
      assert Grow(f, y, a, q)[1..] == Grow(f, q[0], a, q[1..]);
      HornerStep(f, f.sub(y, f.mul(a, q[0])), d, a, x, q[0], rest);
      SubAdd(f, y, f.mul(a, q[0]));
    }
  }

  function Coefficients<T>(f: Field<T>, xs: seq<T>, ys: seq<T>): (c: seq<T>)
    requires |xs| == |ys|
    ensures |c| == |xs|
    decreases |xs|
  {
    if xs == [] then [] else Grow(f, ys[0], xs[0], Coefficients(f, xs[1..], Differences(f, xs, ys)))
  }

  lemma {:induction false} EvalCoefficients<T(!new)>(f: Field<T>, xs: seq<T>, ys: seq<T>, x: T)
    requires IsField(f) && |xs| == |ys|
    ensures Eval(f, Coefficients(f, xs, ys), x) == Interpolate(f, xs, ys, x)
    decreases |xs|
  {
    hide IsField;
    if xs != [] {
      var ds := Differences(f, xs, ys);
      EvalCoefficients(f, xs[1..], ds, x);
      EvalGrow(f, ys[0], xs[0], Coefficients(f, xs[1..], ds), x);
    }
  }

  /** Any k points of the polynomial through (xs, ys) give the same polynomial back:
      this is what makes every k symbols of a codeword as good as any other k. */
  lemma InterpolateAnyPoints<T(!new)>(f: Field<T>, xs: seq<T>, ys: seq<T>, zs: seq<T>, vs: seq<T>, x: T)
    requires IsField(f) && Distinct(xs) && Distinct(zs) && |xs| == |ys| == |zs| == |vs|
    requires forall i :: 0 <= i < |zs| ==> vs[i] == Interpolate(f, xs, ys, zs[i])
    ensures Interpolate(f, zs, vs, x) == Interpolate(f, xs, ys, x)
  {
    hide IsField;
    var c := Coefficients(f, xs, ys);
    EvalCoefficients(f, xs, ys, x);
    forall i | 0 <= i < |zs| ensures vs[i] == Values(f, c, zs)[i] {
      EvalCoefficients(f, xs, ys, zs[i]);
    }
    assert vs == Values(f, c, zs);
    InterpolateValues(f, c, zs, x);
  }
}

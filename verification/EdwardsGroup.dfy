/** The points of the curve form a commutative group under the addition formula. */
module EdwardsGroup {
  import opened Ring
  import opened Congruence
  import opened PrimeField
  import opened EdwardsCurve

  // ----- the x coordinate of a sum of three points, cleared of denominators

  function SumX(p: Point, o: Point): int { p.x * o.y + o.x * p.y }
  function SumY(p: Point, o: Point): int { p.y * o.y + p.x * o.x }

  function Numerator(d: int, p: Point, o: Point, r: Point): int {
    var t := Cross(d, p, o);
    (SumX(p, o) * (1 - t)) * r.y + (SumY(p, o) * (1 + t)) * r.x
  }

  function Denominators(d: int, p: Point, o: Point, r: Point): int {
    var t := Cross(d, p, o);
    (1 + t) * (1 - t) + d * ((SumX(p, o) * SumY(p, o)) * (r.x * r.y))
  }

  // ----- numerators are combinations of four monomials

  datatype Vector = Vector(c1: int, c2: int, c3: int, c0: int)

  function Dot(b: Vector, c: Vector): int {
    b.c1 * c.c1 + b.c2 * c.c2 + b.c3 * c.c3 + b.c0 * c.c0
  }

  function Scaled(k: int, c: Vector): Vector {
    Vector(k * c.c1, k * c.c2, k * c.c3, k * c.c0)
  }

  function Plus(c: Vector, e: Vector): Vector {
    Vector(c.c1 + e.c1, c.c2 + e.c2, c.c3 + e.c3, c.c0 + e.c0)
  }

  lemma {:induction false} DotPlus(b: Vector, c: Vector, e: Vector)
    ensures Dot(b, Plus(c, e)) == Dot(b, c) + Dot(b, e)
  {
  }

  lemma {:induction false} DotScaled(b: Vector, k: int, c: Vector)
    ensures Dot(b, Scaled(k, c)) == k * Dot(b, c)
  {
    Swap(b.c1, k, c.c1);
    Swap(b.c2, k, c.c2);
    Swap(b.c3, k, c.c3);
    Swap(b.c0, k, c.c0);
    var e1, e2, e3, e0 := b.c1 * c.c1, b.c2 * c.c2, b.c3 * c.c3, b.c0 * c.c0;
    assert k * (e1 + e2 + e3 + e0) == k * e1 + k * e2 + k * e3 + k * e0;
  }

  function Basis(p: Point, o: Point, r: Point): Vector {
    Vector(p.x * (o.y * r.y), o.x * (p.y * r.y), r.x * (p.y * o.y), p.x * (o.x * r.x))
  }

  /** The squares of the coordinates of three points. */
  datatype Squares = Squares(a1: int, b1: int, a2: int, b2: int, a3: int, b3: int)

  function SquaresOf(p: Point, o: Point, r: Point): Squares {
    Squares(p.x * p.x, p.y * p.y, o.x * o.x, o.y * o.y, r.x * r.x, r.y * r.y)
  }

  /** Multiplication by (x1 y1)(x2 y2) permutes the monomials. */
  function Twist12(s: Squares, c: Vector): Vector {
    Vector(c.c2 * (s.a2 * s.b1), c.c1 * (s.a1 * s.b2), c.c0 * (s.a1 * s.a2), c.c3 * (s.b1 * s.b2))
  }

  function Twist13(s: Squares, c: Vector): Vector {
    Vector(c.c3 * (s.a3 * s.b1), c.c0 * (s.a1 * s.a3), c.c1 * (s.a1 * s.b3), c.c2 * (s.b1 * s.b3))
  }

  lemma {:induction false} SwapPair(u1: int, v1: int, u2: int, v2: int, w: int)
    ensures ((u1 * v1) * (u2 * v2)) * (u1 * (u2 * w)) == ((u1 * u1) * (u2 * u2)) * (v1 * (v2 * w))
  {
    Interchange(u1, v1, u2, v2);
    assert u1 * (u2 * w) == (u1 * u2) * w;
    assert v1 * (v2 * w) == (v1 * v2) * w;
    var u, v := u1 * u2, v1 * v2;
    assert (u * v) * (u * w) == (u * u) * (v * w);
    Interchange(u1, u2, u1, u2);
  }

  lemma {:induction false} TwistDot(k: int, b: Vector, c: Vector, f1: int, f2: int, f3: int, f0: int)
    requires k * b.c1 == f1 * b.c2 && k * b.c2 == f2 * b.c1
    requires k * b.c3 == f3 * b.c0 && k * b.c0 == f0 * b.c3
    ensures k * Dot(b, c) == Dot(b, Vector(c.c2 * f2, c.c1 * f1, c.c0 * f0, c.c3 * f3))
  {
    Shuffle(k, b.c1, c.c1, f1, b.c2);
    Shuffle(k, b.c2, c.c2, f2, b.c1);
    Shuffle(k, b.c3, c.c3, f3, b.c0);
    Shuffle(k, b.c0, c.c0, f0, b.c3);
    var e1, e2, e3, e0 := b.c1 * c.c1, b.c2 * c.c2, b.c3 * c.c3, b.c0 * c.c0;
    assert k * (e1 + e2 + e3 + e0) == k * e1 + k * e2 + k * e3 + k * e0;
  }

  lemma {:induction false} Shuffle(k: int, b: int, c: int, f: int, b': int)
    requires k * b == f * b'
    ensures k * (b * c) == b' * (c * f)
  {
    assert k * (b * c) == (k * b) * c;
    assert b' * (c * f) == (f * b') * c;
  }

  lemma {:induction false} Twist12Meaning(p: Point, o: Point, r: Point, c: Vector)
    ensures ((p.x * p.y) * (o.x * o.y)) * Dot(Basis(p, o, r), c)
            == Dot(Basis(p, o, r), Twist12(SquaresOf(p, o, r), c))
  {
    var b, s := Basis(p, o, r), SquaresOf(p, o, r);
    SwapPair(p.x, p.y, o.y, o.x, r.y);
    SwapPair(p.y, p.x, o.x, o.y, r.y);
    SwapPair(p.y, p.x, o.y, o.x, r.x);
    SwapPair(p.x, p.y, o.x, o.y, r.x);
    Swap(o.x, p.y, r.y);
    Swap(p.y, o.y, r.x);
    Swap(r.x, p.y, o.y);
    TwistDot((p.x * p.y) * (o.x * o.y), b, c,
             s.a1 * s.b2, s.a2 * s.b1, s.b1 * s.b2, s.a1 * s.a2);
  }

  lemma {:induction false} Twist13Meaning(p: Point, o: Point, r: Point, c: Vector)
    ensures ((p.x * p.y) * (r.x * r.y)) * Dot(Basis(p, o, r), c)
            == Dot(Basis(p, o, r), Twist13(SquaresOf(p, o, r), c))
  {
    Twist12Meaning(p, r, o, Vector(c.c1, c.c3, c.c2, c.c0));
  }

  function NumeratorVector(d: int, s: Squares): Vector {
    Vector(1 - d * (s.a2 * s.b1), 1 - d * (s.a1 * s.b2), 1 + d * (s.a1 * s.a2), 1 + d * (s.b1 * s.b2))
  }

  lemma {:induction false} NumeratorVectorSplit(d: int, s: Squares)
    ensures NumeratorVector(d, s) == Plus(Vector(1, 1, 1, 1), Scaled(-d, Twist12(s, Vector(1, 1, -1, -1))))
  {
  }

  lemma {:induction false} BasisSums(p: Point, o: Point, r: Point)
    ensures SumX(p, o) * r.y == Basis(p, o, r).c1 + Basis(p, o, r).c2
    ensures SumY(p, o) * r.x == Basis(p, o, r).c3 + Basis(p, o, r).c0
  {
    assert (p.x * o.y) * r.y == p.x * (o.y * r.y);
    assert (o.x * p.y) * r.y == o.x * (p.y * r.y);
    assert (p.y * o.y) * r.x == r.x * (p.y * o.y);
    assert (p.x * o.x) * r.x == p.x * (o.x * r.x);
  }

  lemma {:induction false} NumeratorMeaning(d: int, p: Point, o: Point, r: Point)
    ensures Numerator(d, p, o, r) == Dot(Basis(p, o, r), NumeratorVector(d, SquaresOf(p, o, r)))
  {
    var b, s := Basis(p, o, r), SquaresOf(p, o, r);
    var signs, ones := Vector(1, 1, -1, -1), Vector(1, 1, 1, 1);
    BasisSums(p, o, r);
    NumeratorAtoms(SumX(p, o), SumY(p, o), Cross(d, p, o), r.x, r.y, b);
    CrossTimes(d, p, o, r, signs);
    DotPlus(b, ones, Scaled(-d, Twist12(s, signs)));
    NumeratorVectorSplit(d, s);
  }

  lemma {:induction false} CrossTimes(d: int, p: Point, o: Point, r: Point, c: Vector)
    ensures Dot(Basis(p, o, r), Scaled(-d, Twist12(SquaresOf(p, o, r), c)))
            == -(Cross(d, p, o) * Dot(Basis(p, o, r), c))
  {
    var m, e := (p.x * p.y) * (o.x * o.y), Dot(Basis(p, o, r), c);
    CrossInProducts(d, p, o);
    Twist12Meaning(p, o, r, c);
    DotScaled(Basis(p, o, r), -d, Twist12(SquaresOf(p, o, r), c));
    PullFactor(d, m, e);
  }

  lemma {:induction false} PullFactor(d: int, m: int, e: int)
    ensures -d * (m * e) == -((d * m) * e)
  {
    assert d * (m * e) == (d * m) * e;
  }

  lemma {:induction false} NumeratorAtoms(u: int, w: int, t: int, x: int, y: int, b: Vector)
    requires u * y == b.c1 + b.c2 && w * x == b.c3 + b.c0
    ensures (u * (1 - t)) * y + (w * (1 + t)) * x
            == Dot(b, Vector(1, 1, 1, 1)) - t * Dot(b, Vector(1, 1, -1, -1))
  {
    assert (u * (1 - t)) * y == (u * y) - t * (u * y);
    assert (w * (1 + t)) * x == (w * x) + t * (w * x);
  }

  function CoefficientVector(d: int, s: Squares): Vector {
    var n := NumeratorVector(d, s);
    Plus(Scaled(1 - (d * (s.a2 * s.b2)) * (d * (s.a3 * s.b3)), n),
         Plus(Scaled(d * (s.b3 + s.a3), Twist12(s, n)), Scaled(d * (s.b2 + s.a2), Twist13(s, n))))
  }

  lemma {:induction false} DenominatorsMeaning(d: int, p: Point, o: Point, r: Point)
    ensures
      var s := SquaresOf(p, o, r);
      Denominators(d, r, o, p)
      == 1 - (d * (s.a2 * s.b2)) * (d * (s.a3 * s.b3))
         + (d * (s.b3 + s.a3)) * ((p.x * p.y) * (o.x * o.y))
         + (d * (s.b2 + s.a2)) * ((p.x * p.y) * (r.x * r.y))
  {
    FirstDenominators(d, r, o);
    ProductOfSums(r.x, r.y, o.x, o.y);
    DenominatorAtoms(d, r.x * r.y, o.y * o.y + o.x * o.x, o.x * o.y, r.y * r.y + r.x * r.x, p.x * p.y);
  }

  lemma {:induction false} FirstDenominators(d: int, r: Point, o: Point)
    ensures
      var t := Cross(d, r, o);
      (1 + t) * (1 - t)
      == 1 - (d * ((o.x * o.x) * (o.y * o.y))) * (d * ((r.x * r.x) * (r.y * r.y)))
  {
    var t := Cross(d, r, o);
    CrossInProducts(d, r, o);
    EquationInSquares(d, o.x, o.y);
    EquationInSquares(d, r.x, r.y);
    OneMinusSquare(t);
  }

  lemma {:induction false} DenominatorAtoms(d: int, m3: int, s2: int, m2: int, s3: int, m1: int)
    ensures d * ((m3 * s2 + m2 * s3) * m1) == (d * s3) * (m1 * m2) + (d * s2) * (m1 * m3)
  {
    assert (m3 * s2 + m2 * s3) * m1 == s2 * (m1 * m3) + s3 * (m1 * m2);
    assert d * (s2 * (m1 * m3)) == (d * s2) * (m1 * m3);
    assert d * (s3 * (m1 * m2)) == (d * s3) * (m1 * m2);
  }

  lemma {:induction false} ProductMeaning(d: int, p: Point, o: Point, r: Point)
    ensures Numerator(d, p, o, r) * Denominators(d, r, o, p)
            == Dot(Basis(p, o, r), CoefficientVector(d, SquaresOf(p, o, r)))
  {
    var b, s := Basis(p, o, r), SquaresOf(p, o, r);
    var n := NumeratorVector(d, s);
    NumeratorMeaning(d, p, o, r);
    DenominatorsMeaning(d, p, o, r);
    Twist12Meaning(p, o, r, n);
    Twist13Meaning(p, o, r, n);
    ProductAtoms(b, n, Twist12(s, n), Twist13(s, n),
                 1 - (d * (s.a2 * s.b2)) * (d * (s.a3 * s.b3)), d * (s.b3 + s.a3), d * (s.b2 + s.a2),
                 (p.x * p.y) * (o.x * o.y), (p.x * p.y) * (r.x * r.y));
  }

  lemma {:induction false} ProductAtoms(
    b: Vector, n: Vector, n12: Vector, n13: Vector, k: int, f: int, g: int, m12: int, m13: int)
    requires m12 * Dot(b, n) == Dot(b, n12) && m13 * Dot(b, n) == Dot(b, n13)
    ensures Dot(b, n) * (k + f * m12 + g * m13) == Dot(b, Plus(Scaled(k, n), Plus(Scaled(f, n12), Scaled(g, n13))))
  {
    DotScaled(b, k, n);
    DotScaled(b, f, n12);
    DotScaled(b, g, n13);
    DotPlus(b, Scaled(f, n12), Scaled(g, n13));
    DotPlus(b, Scaled(k, n), Plus(Scaled(f, n12), Scaled(g, n13)));
    var e := Dot(b, n);
    assert e * (k + f * m12 + g * m13) == k * e + f * (m12 * e) + g * (m13 * e);
  }

  // ----- the coefficients agree modulo the curve equations

  function Mirrored(s: Squares): Squares {
    Squares(s.a3, s.b3, s.a2, s.b2, s.a1, s.b1)
  }

  /** Translating two of the points by the point (i, 0) of order four. */
  function Shifted12(s: Squares): Squares {
    Squares(-s.b1, -s.a1, -s.b2, -s.a2, s.a3, s.b3)
  }

  function Shifted23(s: Squares): Squares {
    Squares(s.a1, s.b1, -s.b2, -s.a2, -s.b3, -s.a3)
  }

  lemma {:induction false} ShiftedNumerators(d: int, s: Squares)
    ensures
      var n := NumeratorVector(d, s);
      && NumeratorVector(d, Shifted12(s)) == Vector(n.c2, n.c1, n.c0, n.c3)
      && NumeratorVector(d, Shifted23(s)) == Vector(n.c0, n.c3, n.c2, n.c1)
  {
    SignsCancel(s.b2, s.a1);
    SignsCancel(s.b1, s.a2);
    SignsCancel(s.b1, s.b2);
    SignsCancel(s.a1, s.a2);
  }

  /** One coefficient: a numerator coefficient times k plus two twisted ones. */
  function Entry(k: int, n: int, f: int, m: int, e: int, g: int, o: int, h: int): int {
    k * n + (f * (m * e) + g * (o * h))
  }

  lemma {:induction false} Entries(d: int, s: Squares)
    ensures
      var n, v := NumeratorVector(d, s), CoefficientVector(d, s);
      var k, f, g := 1 - (d * (s.a2 * s.b2)) * (d * (s.a3 * s.b3)), d * (s.b3 + s.a3), d * (s.b2 + s.a2);
      && v.c1 == Entry(k, n.c1, f, n.c2, s.a2 * s.b1, g, n.c3, s.a3 * s.b1)
      && v.c2 == Entry(k, n.c2, f, n.c1, s.a1 * s.b2, g, n.c0, s.a1 * s.a3)
      && v.c3 == Entry(k, n.c3, f, n.c0, s.a1 * s.a2, g, n.c1, s.a1 * s.b3)
      && v.c0 == Entry(k, n.c0, f, n.c3, s.b1 * s.b2, g, n.c2, s.b1 * s.b3)
  {
  }

  lemma {:induction false} FlipSecond(k: int, n: int, f: int, m: int, e: int, g: int, o: int, h: int)
    ensures Entry(k, n, f, m, e, -g, o, -h) == Entry(k, n, f, m, e, g, o, h)
  {
    SignsCancel(o, h);
    SignsCancel(g, o * h);
  }

  lemma {:induction false} FlipFirst(k: int, n: int, f: int, m: int, e: int, g: int, o: int, h: int)
    ensures Entry(k, n, -f, m, -e, g, o, h) == Entry(k, n, f, m, e, g, o, h)
  {
    SignsCancel(m, e);
    SignsCancel(f, m * e);
  }

  lemma {:induction false} NegatedSum(d: int, u: int, v: int)
    ensures d * (-v + -u) == -(d * (u + v))
  {
  }

  lemma {:induction false} ShiftedFirst12(d: int, s: Squares)
    ensures CoefficientVector(d, Shifted12(s)).c1 == CoefficientVector(d, s).c2
  {
    var n := NumeratorVector(d, s);
    var k, f, g := 1 - (d * (s.a2 * s.b2)) * (d * (s.a3 * s.b3)), d * (s.b3 + s.a3), d * (s.b2 + s.a2);
    Entries(d, s);
    Entries(d, Shifted12(s));
    ShiftedNumerators(d, s);
    SignsCancel(s.b2, s.a2);
    NegatedSum(d, s.b2, s.a2);
    SignsCancel(s.b2, s.a1);
    SignsCancel(s.a3, s.a1);
    FlipSecond(k, n.c2, f, n.c1, s.a1 * s.b2, g, n.c0, s.a1 * s.a3);
  }

  lemma {:induction false} ShiftedThird12(d: int, s: Squares)
    ensures CoefficientVector(d, Shifted12(s)).c3 == CoefficientVector(d, s).c0
  {
    var n := NumeratorVector(d, s);
    var k, f, g := 1 - (d * (s.a2 * s.b2)) * (d * (s.a3 * s.b3)), d * (s.b3 + s.a3), d * (s.b2 + s.a2);
    Entries(d, s);
    Entries(d, Shifted12(s));
    ShiftedNumerators(d, s);
    SignsCancel(s.b2, s.a2);
    NegatedSum(d, s.b2, s.a2);
    SignsCancel(s.b1, s.b2);
    SignsCancel(s.b1, s.b3);
    FlipSecond(k, n.c0, f, n.c3, s.b1 * s.b2, g, n.c2, s.b1 * s.b3);
  }

  lemma {:induction false} ShiftedThird23(d: int, s: Squares)
    ensures CoefficientVector(d, Shifted23(s)).c3 == CoefficientVector(d, s).c2
  {
    var n := NumeratorVector(d, s);
    var k, f, g := 1 - (d * (s.a2 * s.b2)) * (d * (s.a3 * s.b3)), d * (s.b3 + s.a3), d * (s.b2 + s.a2);
    Entries(d, s);
    Entries(d, Shifted23(s));
    ShiftedNumerators(d, s);
    SignsCancel(s.b2, s.a2);
    NegatedSum(d, s.b2, s.a2);
    SignsCancel(s.b3, s.a3);
    NegatedSum(d, s.b3, s.a3);
    SignsCancel(s.a1, s.b2);
    SignsCancel(s.a1, s.a3);
    FlipFirst(k, n.c2, f, n.c1, s.a1 * s.b2, -g, n.c0, -(s.a1 * s.a3));
    FlipSecond(k, n.c2, f, n.c1, s.a1 * s.b2, g, n.c0, s.a1 * s.a3);
  }

  lemma {:induction false} ShiftedFirst23(d: int, s: Squares)
    ensures CoefficientVector(d, Shifted23(s)).c1 == CoefficientVector(d, s).c0
  {
    var n := NumeratorVector(d, s);
    var k, f, g := 1 - (d * (s.a2 * s.b2)) * (d * (s.a3 * s.b3)), d * (s.b3 + s.a3), d * (s.b2 + s.a2);
    Entries(d, s);
    Entries(d, Shifted23(s));
    ShiftedNumerators(d, s);
    SignsCancel(s.b2, s.a2);
    NegatedSum(d, s.b2, s.a2);
    SignsCancel(s.b3, s.a3);
    NegatedSum(d, s.b3, s.a3);
    SignsCancel(s.b2, s.b1);
    SignsCancel(s.b3, s.b1);
    FlipFirst(k, n.c0, f, n.c3, s.b1 * s.b2, -g, n.c2, -(s.b1 * s.b3));
    FlipSecond(k, n.c0, f, n.c3, s.b1 * s.b2, g, n.c2, s.b1 * s.b3);
  }

  lemma {:induction false} FirstCoefficientAtoms(
      a1: int, b1: int, k1: int, a2: int, b2: int, k2: int, a3: int, b3: int, k3: int,
      u: int, v: int, i: int, j: int, f: int, g: int)
    requires u * a3 == v * b1 && f * b2 == j * b1 && g * b2 == i * a3 && j * k1 == i * k3
    requires f == u * k3 && g == v * k1
    ensures
      (1 - u - j + k2 * f) + (b3 + a3) * (u - i) + (b2 + a2) * (g + f)
      - (1 + v - i - k2 * g) - (b1 + a1) * (v + j)
      == (v + j) * (b1 - a1 - 1 - k1) - (f + g) * (b2 - a2 - 1 - k2) + (u - i) * (b3 - a3 - 1 - k3)
  {
    Spread(v, j, a1, b1, k1);
    Spread(f, g, a2, b2, k2);
    Spread(u, -i, a3, b3, k3);
  }

  lemma {:induction false} Spread(u: int, w: int, a: int, b: int, k: int)
    ensures (u + w) * (b - a - 1 - k) == u * b - u * a - u - u * k + w * b - w * a - w - w * k
    ensures (b + a) * (u + w) == u * b + u * a + w * b + w * a
  {
  }

  lemma {:induction false} FactorOut(d: int, s: int, e: int, m: int)
    ensures (d * s) * ((1 + d * e) * m) == s * (d * m + (d * m) * (d * e))
    ensures (d * s) * ((1 - d * e) * m) == s * (d * m - (d * m) * (d * e))
  {
    assert (1 + d * e) * m == m + m * (d * e);
    assert (1 - d * e) * m == m - m * (d * e);
    var z := d * e;
    assert (d * m) * z == d * (m * z);
    assert (d * s) * (m + m * z) == s * (d * (m + m * z));
    assert (d * s) * (m - m * z) == s * (d * (m - m * z));
  }

  lemma {:induction false} Regroup(d: int, a: int, b: int, a': int, b': int)
    ensures (d * (a * b)) * (d * (a' * b')) == (d * (a * b')) * (d * (a' * b))
    ensures (d * (a * b)) * (d * (a' * b')) == (d * (a * a')) * (d * (b * b'))
  {
    Interchange(a, b, a', b');
    Interchange(a, b, b', a');
    SameProducts(d, a * b, a' * b', a * b', a' * b);
    SameProducts(d, a * b, a' * b', a * a', b * b');
  }

  lemma {:induction false} SameProducts(d: int, m: int, n: int, m': int, n': int)
    requires m * n == m' * n'
    ensures (d * m) * (d * n) == (d * m') * (d * n')
  {
    Interchange(d, m, d, n);
    Interchange(d, m', d, n');
  }

  /** The curve equations of the three points, in terms of the squares. */
  function Residues(d: int, s: Squares): (int, int, int) {
    (SquaredEquation(d, s.a1, s.b1), SquaredEquation(d, s.a2, s.b2), SquaredEquation(d, s.a3, s.b3))
  }

  lemma {:induction false} FirstCoefficientTerms(d: int, s: Squares)
    ensures
      var u, v := d * (s.a2 * s.b1), d * (s.a2 * s.a3);
      var k1, k2, k3 := d * (s.a1 * s.b1), d * (s.a2 * s.b2), d * (s.a3 * s.b3);
      var w := d * (s.a3 * s.b1);
      && CoefficientVector(d, s).c1
         == (1 - k2 * k3) * (1 - u) + (s.b3 + s.a3) * (u - k1 * k2) + (s.b2 + s.a2) * (w + v * k1)
      && CoefficientVector(d, Mirrored(s)).c3
         == (1 - k1 * k2) * (1 + v) + (s.b1 + s.a1) * (v + k2 * k3) + (s.b2 + s.a2) * (w - u * k3)
  {
    FactorOut(d, s.b3 + s.a3, s.a1 * s.b2, s.a2 * s.b1);
    Regroup(d, s.a2, s.b1, s.a1, s.b2);
    FactorOut(d, s.b2 + s.a2, s.a1 * s.a2, s.a3 * s.b1);
    Regroup(d, s.a3, s.b1, s.a2, s.a1);
    FactorOut(d, s.b1 + s.a1, s.b3 * s.b2, s.a3 * s.a2);
    Regroup(d, s.a3, s.a2, s.b3, s.b2);
    FactorOut(d, s.b2 + s.a2, s.a2 * s.b3, s.a3 * s.b1);
    Regroup(d, s.a3, s.b1, s.a2, s.b3);
  }

  lemma {:induction false} FirstCoefficient(q: int, d: int, s: Squares)
    requires Dvd(q, Residues(d, s).0) && Dvd(q, Residues(d, s).1) && Dvd(q, Residues(d, s).2)
    ensures Dvd(q, CoefficientVector(d, s).c1 - CoefficientVector(d, Mirrored(s)).c3)
  {
    FirstCoefficientIdentity(d, s);
    var u, v := d * (s.a2 * s.b1), d * (s.a2 * s.a3);
    var k1, k2, k3 := d * (s.a1 * s.b1), d * (s.a2 * s.b2), d * (s.a3 * s.b3);
    DvdCombine(q, Residues(d, s).0, v + k2 * k3, Residues(d, s).1, -(u * k3 + v * k1),
               Residues(d, s).2, u - k1 * k2);
  }

  lemma {:induction false} FirstCoefficientIdentity(d: int, s: Squares)
    ensures
      var u, v := d * (s.a2 * s.b1), d * (s.a2 * s.a3);
      var k1, k2, k3 := d * (s.a1 * s.b1), d * (s.a2 * s.b2), d * (s.a3 * s.b3);
      CoefficientVector(d, s).c1 - CoefficientVector(d, Mirrored(s)).c3
      == (v + k2 * k3) * Residues(d, s).0 + -(u * k3 + v * k1) * Residues(d, s).1
         + (u - k1 * k2) * Residues(d, s).2
  {
    var u, v := d * (s.a2 * s.b1), d * (s.a2 * s.a3);
    var k1, k2, k3 := d * (s.a1 * s.b1), d * (s.a2 * s.b2), d * (s.a3 * s.b3);
    FirstCoefficientTerms(d, s);
    FirstCoefficientFacts(d, s);
    FirstCoefficientSum(s, u, v, k1, k2, k3, d * (s.a3 * s.b1));
  }

  lemma {:induction false} FirstCoefficientSum(s: Squares, u: int, v: int, k1: int, k2: int, k3: int, w: int)
    requires u * s.a3 == v * s.b1 && (u * k3) * s.b2 == (k2 * k3) * s.b1
    requires (v * k1) * s.b2 == (k1 * k2) * s.a3 && (k2 * k3) * k1 == (k1 * k2) * k3
    ensures
      (1 - k2 * k3) * (1 - u) + (s.b3 + s.a3) * (u - k1 * k2) + (s.b2 + s.a2) * (w + v * k1)
      - ((1 - k1 * k2) * (1 + v) + (s.b1 + s.a1) * (v + k2 * k3) + (s.b2 + s.a2) * (w - u * k3))
      == (v + k2 * k3) * (s.b1 - s.a1 - 1 - k1) + -(u * k3 + v * k1) * (s.b2 - s.a2 - 1 - k2)
         + (u - k1 * k2) * (s.b3 - s.a3 - 1 - k3)
  {
    FirstCoefficientProducts(u, v, k1, k2, k3, w, s.b2 + s.a2);
    FirstCoefficientAtoms(s.a1, s.b1, k1, s.a2, s.b2, k2, s.a3, s.b3, k3,
                          u, v, k1 * k2, k2 * k3, u * k3, v * k1);
    SignsCancel(u * k3 + v * k1, s.b2 - s.a2 - 1 - k2);
  }

  lemma {:induction false} FirstCoefficientProducts(u: int, v: int, k1: int, k2: int, k3: int, w: int, z: int)
    ensures (1 - k2 * k3) * (1 - u) == 1 - u - k2 * k3 + k2 * (u * k3)
    ensures (1 - k1 * k2) * (1 + v) == 1 + v - k1 * k2 - k2 * (v * k1)
    ensures z * (w + v * k1) - z * (w - u * k3) == z * (v * k1 + u * k3)
  {
    assert (k2 * k3) * u == k2 * (u * k3);
    assert (k1 * k2) * v == k2 * (v * k1);
  }

  lemma {:induction false} FirstCoefficientFacts(d: int, s: Squares)
    ensures
      var u, v := d * (s.a2 * s.b1), d * (s.a2 * s.a3);
      var k1, k2, k3 := d * (s.a1 * s.b1), d * (s.a2 * s.b2), d * (s.a3 * s.b3);
      && u * s.a3 == v * s.b1
      && (u * k3) * s.b2 == (k2 * k3) * s.b1
      && (v * k1) * s.b2 == (k1 * k2) * s.a3
      && (k2 * k3) * k1 == (k1 * k2) * k3
  {
    var k1, k3 := d * (s.a1 * s.b1), d * (s.a3 * s.b3);
    MoveFactor(d, s.a2, s.b1, s.a3, 1);
    MoveFactor(d, s.a2, s.b1, s.b2, k3);
    MoveFactor(d, s.a2, s.a3, s.b2, k1);
  }

  lemma {:induction false} MoveFactor(d: int, a: int, b: int, c: int, k: int)
    ensures ((d * (a * b)) * k) * c == ((d * (a * c)) * k) * b
  {
    assert (d * (a * b)) * c == (d * (a * c)) * b by {
      assert (a * b) * c == (a * c) * b;
    }
    var m, n := d * (a * b), d * (a * c);
    assert (m * k) * c == (m * c) * k;
    assert (n * k) * b == (n * b) * k;
  }

  lemma {:induction false} AllCoefficients(q: int, d: int, s: Squares)
    requires Dvd(q, Residues(d, s).0) && Dvd(q, Residues(d, s).1) && Dvd(q, Residues(d, s).2)
    ensures
      var c, m := CoefficientVector(d, s), CoefficientVector(d, Mirrored(s));
      Dvd(q, c.c1 - m.c3) && Dvd(q, c.c2 - m.c2) && Dvd(q, c.c3 - m.c1) && Dvd(q, c.c0 - m.c0)
  {
    SignsCancel(s.b1, s.a1);
    SignsCancel(s.b2, s.a2);
    FirstCoefficient(q, d, s);
    FirstCoefficient(q, d, Mirrored(s));
    DvdScale(q, CoefficientVector(d, Mirrored(s)).c1 - CoefficientVector(d, s).c3, -1);
    FirstCoefficient(q, d, Shifted12(s));
    FirstCoefficient(q, d, Mirrored(Shifted12(s)));
    ShiftedFirst12(d, s);
    ShiftedThird12(d, s);
    ShiftedFirst23(d, Mirrored(s));
    ShiftedThird23(d, Mirrored(s));
    assert Mirrored(Shifted12(s)) == Shifted23(Mirrored(s));
    assert Mirrored(Mirrored(Shifted12(s))) == Shifted12(s);
    DvdScale(q, CoefficientVector(d, Mirrored(s)).c0 - CoefficientVector(d, s).c0, -1);
  }

  /** The two cleared fractions agree modulo the curve equations. */
  lemma {:induction false} CrossMultiplied(q: int, d: int, p: Point, o: Point, r: Point)
    requires Dvd(q, Equation(d, p.x, p.y)) && Dvd(q, Equation(d, o.x, o.y)) && Dvd(q, Equation(d, r.x, r.y))
    ensures Cong(q, Numerator(d, p, o, r) * Denominators(d, r, o, p),
                    Numerator(d, r, o, p) * Denominators(d, p, o, r))
  {
    var b, s := Basis(p, o, r), SquaresOf(p, o, r);
    var c, m := CoefficientVector(d, s), CoefficientVector(d, Mirrored(s));
    EquationInSquares(d, p.x, p.y);
    EquationInSquares(d, o.x, o.y);
    EquationInSquares(d, r.x, r.y);
    AllCoefficients(q, d, s);
    ProductMeaning(d, p, o, r);
    ProductMeaning(d, r, o, p);
    MirroredBasis(p, o, r);
    assert SquaresOf(r, o, p) == Mirrored(s);
    MirroredDot(q, b, c, m);
  }

  lemma {:induction false} MirroredBasis(p: Point, o: Point, r: Point)
    ensures var b := Basis(p, o, r); Basis(r, o, p) == Vector(b.c3, b.c2, b.c1, b.c0)
  {
    assert r.x * (o.x * p.x) == p.x * (o.x * r.x);
  }

  lemma {:induction false} MirroredDot(q: int, b: Vector, c: Vector, m: Vector)
    requires Dvd(q, c.c1 - m.c3) && Dvd(q, c.c2 - m.c2) && Dvd(q, c.c3 - m.c1) && Dvd(q, c.c0 - m.c0)
    ensures Cong(q, Dot(b, c), Dot(Vector(b.c3, b.c2, b.c1, b.c0), m))
  {
    var e1, e2, e3, e0 := c.c1 - m.c3, c.c2 - m.c2, c.c3 - m.c1, c.c0 - m.c0;
    DvdCombine(q, e1, b.c1, e2, b.c2, e3, b.c3);
    DvdScale(q, e0, b.c0);
    DvdSum(q, b.c1 * e1 + b.c2 * e2 + b.c3 * e3, b.c0 * e0);
    DotDifference(b, c, Vector(m.c3, m.c2, m.c1, m.c0));
  }

  lemma {:induction false} DotDifference(b: Vector, c: Vector, m: Vector)
    ensures b.c1 * (c.c1 - m.c1) + b.c2 * (c.c2 - m.c2) + b.c3 * (c.c3 - m.c3) + b.c0 * (c.c0 - m.c0)
            == Dot(b, c) - Dot(b, m)
  {
  }

  // ----- associativity

  /** x((p + o) + r) as a fraction of integers. */
  lemma {:induction false} ThreefoldX(c: Curve, p: Point, o: Point, r: Point)
    requires Lawful(c) && OnCurve(c, p) && OnCurve(c, o) && OnCurve(c, r)
    ensures !Dvd(c.q, Denominators(c.d, p, o, r))
    ensures Cong(c.q, Edwards(c, Edwards(c, p, o), r).x * Denominators(c.d, p, o, r),
                      Numerator(c.d, p, o, r))
  {
    var s, t := Edwards(c, p, o), Cross(c.d, p, o);
    SumMeaning(c, p, o);
    Closure(c, p, o);
    SumMeaning(c, s, r);
    ThreefoldCleared(c.q, c.d, s, r, 1 + t, 1 - t, SumX(p, o), SumY(p, o), Edwards(c, s, r).x);
  }

  lemma {:induction false} ThreefoldCleared(q: int, d: int, s: Point, r: Point, g: int, h: int, u: int, w: int, x: int)
    requires IsPrime(q) && !Dvd(q, g) && !Dvd(q, h) && !Dvd(q, 1 + Cross(d, s, r))
    requires Cong(q, s.x * g, u) && Cong(q, s.y * h, w)
    requires Cong(q, x * (1 + Cross(d, s, r)), s.x * r.y + r.x * s.y)
    ensures !Dvd(q, g * h + d * ((u * w) * (r.x * r.y)))
    ensures Cong(q, x * (g * h + d * ((u * w) * (r.x * r.y))), (u * h) * r.y + (w * g) * r.x)
  {
    ThreefoldDenominator(q, d, s, r, g, h, u, w);
    ThreefoldNumerator(q, s, r, g, h, u, w);
    NonzeroProduct(q, g, h);
    ClearFraction(q, x, s.x * r.y + r.x * s.y, 1 + Cross(d, s, r),
                  g * h, g * h + d * ((u * w) * (r.x * r.y)), (u * h) * r.y + (w * g) * r.x);
  }

  /** If x = n / z, then also x = (n f) / (z f). */
  lemma {:induction false} ClearFraction(q: int, x: int, n: int, z: int, f: int, g: int, m: int)
    requires IsPrime(q) && !Dvd(q, z) && !Dvd(q, f)
    requires Cong(q, x * z, n) && Cong(q, z * f, g) && Cong(q, n * f, m)
    ensures !Dvd(q, g) && Cong(q, x * g, m)
  {
    NonzeroProduct(q, z, f);
    if Dvd(q, g) {
      DvdSum(q, z * f - g, g);
      assert false;
    }
    CongScale(q, x * z, n, f);
    CongScale(q, z * f, g, x);
    CongSym(q, x * (z * f), x * g);
    Reassociate(x, z, f);
    CongTrans(q, x * g, (x * z) * f, n * f);
    CongTrans(q, x * g, n * f, m);
  }

  lemma {:induction false} ThreefoldDenominator(q: int, d: int, s: Point, r: Point, g: int, h: int, u: int, w: int)
    requires Cong(q, s.x * g, u) && Cong(q, s.y * h, w)
    ensures Cong(q, (1 + Cross(d, s, r)) * (g * h), g * h + d * ((u * w) * (r.x * r.y)))
  {
    var m := r.x * r.y;
    CrossInProducts(d, s, r);
    CongMul(q, s.x * g, u, s.y * h, w);
    CongScale(q, (s.x * g) * (s.y * h), u * w, m);
    CongScale(q, ((s.x * g) * (s.y * h)) * m, (u * w) * m, d);
    CongRefl(q, g * h);
    CongAdd(q, g * h, g * h, d * (((s.x * g) * (s.y * h)) * m), d * ((u * w) * m));
    DenominatorClearing(d, s.x, s.y, g, h, m);
  }

  lemma {:induction false} DenominatorClearing(d: int, x: int, y: int, g: int, h: int, m: int)
    ensures (1 + d * ((x * y) * m)) * (g * h) == g * h + d * (((x * g) * (y * h)) * m)
  {
    Interchange(x, g, y, h);
    var n, f := x * y, g * h;
    assert (1 + d * (n * m)) * f == f + (d * (n * m)) * f;
    assert (d * (n * m)) * f == d * ((n * f) * m);
  }

  lemma {:induction false} ThreefoldNumerator(q: int, s: Point, r: Point, g: int, h: int, u: int, w: int)
    requires Cong(q, s.x * g, u) && Cong(q, s.y * h, w)
    ensures Cong(q, (s.x * r.y + r.x * s.y) * (g * h), (u * h) * r.y + (w * g) * r.x)
  {
    CongScale(q, s.x * g, u, h);
    CongScale(q, (s.x * g) * h, u * h, r.y);
    CongScale(q, s.y * h, w, g);
    CongScale(q, (s.y * h) * g, w * g, r.x);
    CongAdd(q, ((s.x * g) * h) * r.y, (u * h) * r.y, ((s.y * h) * g) * r.x, (w * g) * r.x);
    NumeratorClearing(s.x, s.y, r.x, r.y, g, h);
  }

  lemma {:induction false} NumeratorClearing(x: int, y: int, x': int, y': int, g: int, h: int)
    ensures (x * y' + x' * y) * (g * h) == ((x * g) * h) * y' + ((y * h) * g) * x'
  {
    var f := g * h;
    assert (x * y' + x' * y) * f == (x * y') * f + (x' * y) * f;
    assert (x * g) * h == x * f;
    assert (y * h) * g == y * f;
    assert (x * f) * y' == (x * y') * f;
    assert (y * f) * x' == (x' * y) * f;
  }

  lemma {:induction false} Commutative(c: Curve, p: Point, o: Point)
    ensures Edwards(c, p, o) == Edwards(c, o, p)
  {
    CrossInProducts(c.d, p, o);
    CrossInProducts(c.d, o, p);
  }

  lemma {:induction false} AssociativeX(c: Curve, p: Point, o: Point, r: Point)
    requires Lawful(c) && OnCurve(c, p) && OnCurve(c, o) && OnCurve(c, r)
    ensures Edwards(c, Edwards(c, p, o), r).x == Edwards(c, Edwards(c, r, o), p).x
  {
    var v, w := Edwards(c, Edwards(c, p, o), r), Edwards(c, Edwards(c, r, o), p);
    var g, h := Denominators(c.d, p, o, r), Denominators(c.d, r, o, p);
    ThreefoldX(c, p, o, r);
    ThreefoldX(c, r, o, p);
    CrossMultiplied(c.q, c.d, p, o, r);
    SameFraction(c.q, v.x, Numerator(c.d, p, o, r), g, w.x, Numerator(c.d, r, o, p), h);
    Closure(c, p, o);
    Closure(c, Edwards(c, p, o), r);
    Closure(c, r, o);
    Closure(c, Edwards(c, r, o), p);
    Residue(c.q, v.x, w.x);
  }

  lemma {:induction false} SameFraction(q: int, v: int, n: int, g: int, w: int, m: int, h: int)
    requires IsPrime(q) && !Dvd(q, g) && !Dvd(q, h)
    requires Cong(q, v * g, n) && Cong(q, w * h, m) && Cong(q, n * h, m * g)
    ensures Cong(q, v, w)
  {
    CongScale(q, v * g, n, h);
    CongScale(q, w * h, m, g);
    CongTrans(q, (v * g) * h, n * h, m * g);
    CongJoin(q, (v * g) * h, (w * h) * g, m * g);
    Reassociate(v, g, h);
    Reassociate(w, h, g);
    NonzeroProduct(q, g, h);
    Cancel(q, g * h, v, w);
  }

  /** Translation by the point (i, 0) of order four exchanges the coordinates. */
  function Shift(c: Curve, p: Point): Point {
    Point(c.i * p.y, c.i * p.x)
  }

  lemma {:induction false} MinusOneTimes(q: int, j: int, a: int)
    requires Cong(q, j, -1)
    ensures Cong(q, j * a, -a)
  {
    CongScale(q, j, -1, a);
  }

  lemma {:induction false} ShiftOnCurve(c: Curve, p: Point)
    requires Cong(c.q, c.i * c.i, -1) && OnCurve(c, p)
    ensures OnCurve(c, Shift(c, p))
  {
    var a, b, j := p.x * p.x, p.y * p.y, c.i * c.i;
    EquationInSquares(c.d, p.x, p.y);
    EquationInSquares(c.d, c.i * p.y, c.i * p.x);
    Interchange(c.i, p.y, c.i, p.y);
    Interchange(c.i, p.x, c.i, p.x);
    MinusOneTimes(c.q, j, a);
    MinusOneTimes(c.q, j, b);
    SquaredEquationCong(c.q, c.d, j * b, -b, j * a, -a);
    SignsCancel(b, a);
    DvdSum(c.q, SquaredEquation(c.d, j * b, j * a) - SquaredEquation(c.d, a, b), SquaredEquation(c.d, a, b));
  }

  lemma {:induction false} SquaredEquationCong(q: int, d: int, a: int, a': int, b: int, b': int)
    requires Cong(q, a, a') && Cong(q, b, b')
    ensures Cong(q, SquaredEquation(d, a, b), SquaredEquation(d, a', b'))
  {
    CongMul(q, a, a', b, b');
    DvdCombine(q, b - b', 1, a - a', -1, a * b - a' * b', -d);
    Cofactors(a * b, a' * b', -d);
  }

  lemma {:induction false} SameQuotient(q: int, x: int, z: int, n: int, y: int, z': int, n': int)
    requires IsPrime(q) && !Dvd(q, z)
    requires Cong(q, x * z, n) && Cong(q, y * z', n') && Cong(q, z, z') && Cong(q, n, n')
    ensures Cong(q, x, y)
  {
    CongScale(q, z, z', y);
    CongTrans(q, y * z, y * z', n');
    CongTrans(q, x * z, n, n');
    CongJoin(q, z * x, z * y, n');
    Cancel(q, z, x, y);
  }

  lemma {:induction false} CrossShift(c: Curve, p: Point, r: Point)
    requires Cong(c.q, c.i * c.i, -1)
    ensures
      var t, t' := Cross(c.d, p, r), Cross(c.d, p, Shift(c, r));
      Cong(c.q, 1 + t', 1 - t) && Cong(c.q, 1 - t', 1 + t)
  {
    var t, t' := Cross(c.d, p, r), Cross(c.d, p, Shift(c, r));
    CrossInProducts(c.d, p, r);
    CrossInProducts(c.d, p, Shift(c, r));
    CrossShiftProducts(c.d, c.i, p.x * p.y, r.x, r.y);
    MinusOneTimes(c.q, c.i * c.i, t);
    DvdScale(c.q, t' - -t, -1);
  }

  lemma {:induction false} CrossShiftProducts(d: int, i: int, m: int, x: int, y: int)
    ensures d * (m * ((i * y) * (i * x))) == (i * i) * (d * (m * (x * y)))
  {
    Interchange(i, y, i, x);
    var j, n := i * i, x * y;
    assert m * (j * n) == j * (m * n);
    assert d * (j * (m * n)) == j * (d * (m * n));
  }

  /** The abscissa of a sum as a quotient. */
  lemma {:induction false} QuotientX(c: Curve, p: Point, o: Point)
    requires Lawful(c) && OnCurve(c, p) && OnCurve(c, o)
    ensures 0 <= Edwards(c, p, o).x < c.q && !Dvd(c.q, 1 + Cross(c.d, p, o))
    ensures Cong(c.q, Edwards(c, p, o).x * (1 + Cross(c.d, p, o)), SumX(p, o))
  {
    SumMeaning(c, p, o);
  }

  /** The ordinate of a sum as a quotient. */
  lemma {:induction false} QuotientY(c: Curve, p: Point, o: Point)
    requires Lawful(c) && OnCurve(c, p) && OnCurve(c, o)
    ensures 0 <= Edwards(c, p, o).y < c.q && !Dvd(c.q, 1 - Cross(c.d, p, o))
    ensures Cong(c.q, Edwards(c, p, o).y * (1 - Cross(c.d, p, o)), SumY(p, o))
  {
    SumMeaning(c, p, o);
  }

  lemma {:induction false} ScaledSame(q: int, i: int, u: int, v: int, n: int, w: int, z: int)
    requires IsPrime(q) && !Dvd(q, v) && Cong(q, v, z)
    requires Cong(q, u * v, i * n) && Cong(q, w * z, n)
    ensures Cong(q, u, i * w)
  {
    ScaledQuotient(q, i, w, z, n);
    CongRefl(q, i * n);
    SameQuotient(q, u, v, i * n, i * w, z, i * n);
  }

  lemma {:induction false} ShiftSumX(c: Curve, p: Point, r: Point, r': Point)
    requires Lawful(c) && OnCurve(c, p) && OnCurve(c, r) && OnCurve(c, r') && r' == Shift(c, r)
    ensures Cong(c.q, Edwards(c, p, r').x, c.i * Edwards(c, p, r).y)
  {
    QuotientY(c, p, r);
    QuotientX(c, p, r');
    CrossShift(c, p, r);
    ShiftNumerators(c.i, p, r);
    ScaledSame(c.q, c.i, Edwards(c, p, r').x, 1 + Cross(c.d, p, r'), SumY(p, r), Edwards(c, p, r).y,
      1 - Cross(c.d, p, r));
  }

  lemma {:induction false} ShiftSumY(c: Curve, p: Point, r: Point, r': Point)
    requires Lawful(c) && OnCurve(c, p) && OnCurve(c, r) && OnCurve(c, r') && r' == Shift(c, r)
    ensures Cong(c.q, Edwards(c, p, r').y, c.i * Edwards(c, p, r).x)
  {
    QuotientX(c, p, r);
    QuotientY(c, p, r');
    CrossShift(c, p, r);
    ShiftNumerators(c.i, p, r);
    ScaledSame(c.q, c.i, Edwards(c, p, r').y, 1 - Cross(c.d, p, r'), SumX(p, r), Edwards(c, p, r).x,
      1 + Cross(c.d, p, r));
  }

  lemma {:induction false} ShiftSum(c: Curve, p: Point, r: Point)
    requires Lawful(c) && OnCurve(c, p) && OnCurve(c, r)
    ensures OnCurve(c, Shift(c, r))
    ensures
      var s, s' := Edwards(c, p, r), Edwards(c, p, Shift(c, r));
      Cong(c.q, s'.x, c.i * s.y) && Cong(c.q, s'.y, c.i * s.x)
  {
    ShiftOnCurve(c, r);
    ShiftSumX(c, p, r, Shift(c, r));
    ShiftSumY(c, p, r, Shift(c, r));
  }

  lemma {:induction false} ScaledQuotient(q: int, i: int, y: int, z: int, n: int)
    requires Cong(q, y * z, n)
    ensures Cong(q, (i * y) * z, i * n)
  {
    CongScale(q, y * z, n, i);
    Reassociate(i, y, z);
  }

  lemma {:induction false} ShiftNumerators(i: int, p: Point, r: Point)
    ensures p.x * (i * r.x) + (i * r.y) * p.y == i * SumY(p, r)
    ensures p.y * (i * r.x) + p.x * (i * r.y) == i * SumX(p, r)
  {
    Swap(p.x, i, r.x);
    Swap(p.y, i, r.y);
    Swap(p.y, i, r.x);
    Swap(p.x, i, r.y);
    assert i * (p.y * r.y + p.x * r.x) == i * (p.y * r.y) + i * (p.x * r.x);
    assert i * (p.x * r.y + r.x * p.y) == i * (p.x * r.y) + i * (p.y * r.x);
  }

  lemma {:induction false} SumCongX(c: Curve, p: Point, w: Point, w': Point)
    requires Lawful(c) && OnCurve(c, p) && OnCurve(c, w) && OnCurve(c, w')
    requires Cong(c.q, w.x, w'.x) && Cong(c.q, w.y, w'.y)
    ensures Edwards(c, p, w).x == Edwards(c, p, w').x
  {
    var x, x' := Edwards(c, p, w).x, Edwards(c, p, w').x;
    QuotientX(c, p, w);
    QuotientX(c, p, w');
    CrossCong(c.q, c.d, p, w, w');
    SumsCong(c.q, p, w, w');
    SameQuotient(c.q, x, 1 + Cross(c.d, p, w), SumX(p, w), x', 1 + Cross(c.d, p, w'), SumX(p, w'));
    Residue(c.q, x, x');
  }

  lemma {:induction false} SumCongY(c: Curve, p: Point, w: Point, w': Point)
    requires Lawful(c) && OnCurve(c, p) && OnCurve(c, w) && OnCurve(c, w')
    requires Cong(c.q, w.x, w'.x) && Cong(c.q, w.y, w'.y)
    ensures Edwards(c, p, w).y == Edwards(c, p, w').y
  {
    var y, y' := Edwards(c, p, w).y, Edwards(c, p, w').y;
    QuotientY(c, p, w);
    QuotientY(c, p, w');
    CrossCong(c.q, c.d, p, w, w');
    SumsCong(c.q, p, w, w');
    SameQuotient(c.q, y, 1 - Cross(c.d, p, w), SumY(p, w), y', 1 - Cross(c.d, p, w'), SumY(p, w'));
    Residue(c.q, y, y');
  }

  /** The sum depends on its arguments only modulo q. */
  lemma {:induction false} SumCong(c: Curve, p: Point, w: Point, w': Point)
    requires Lawful(c) && OnCurve(c, p) && OnCurve(c, w) && OnCurve(c, w')
    requires Cong(c.q, w.x, w'.x) && Cong(c.q, w.y, w'.y)
    ensures Edwards(c, p, w) == Edwards(c, p, w')
  {
    SumCongX(c, p, w, w');
    SumCongY(c, p, w, w');
  }

  lemma {:induction false} CrossCong(q: int, d: int, p: Point, w: Point, w': Point)
    requires Cong(q, w.x, w'.x) && Cong(q, w.y, w'.y)
    ensures Cong(q, 1 + Cross(d, p, w), 1 + Cross(d, p, w')) && Cong(q, 1 - Cross(d, p, w), 1 - Cross(d, p, w'))
  {
    var m := p.x * p.y;
    CrossInProducts(d, p, w);
    CrossInProducts(d, p, w');
    CongMul(q, w.x, w'.x, w.y, w'.y);
    CongScale(q, w.x * w.y, w'.x * w'.y, m);
    CongScale(q, m * (w.x * w.y), m * (w'.x * w'.y), d);
    CongRefl(q, 1);
    CongAdd(q, 1, 1, Cross(d, p, w), Cross(d, p, w'));
  }

  lemma {:induction false} SumsCong(q: int, p: Point, w: Point, w': Point)
    requires Cong(q, w.x, w'.x) && Cong(q, w.y, w'.y)
    ensures Cong(q, SumX(p, w), SumX(p, w')) && Cong(q, SumY(p, w), SumY(p, w'))
  {
    CongScale(q, w.y, w'.y, p.x);
    CongScale(q, w.x, w'.x, p.y);
    CongAdd(q, p.x * w.y, p.x * w'.y, w.x * p.y, w'.x * p.y);
    CongScale(q, w.y, w'.y, p.y);
    CongScale(q, w.x, w'.x, p.x);
    CongAdd(q, p.y * w.y, p.y * w'.y, p.x * w.x, p.x * w'.x);
  }

  lemma {:induction false} AssociativeY(c: Curve, p: Point, o: Point, r: Point)
    requires Lawful(c) && OnCurve(c, p) && OnCurve(c, o) && OnCurve(c, r)
    ensures Edwards(c, Edwards(c, p, o), r).y == Edwards(c, Edwards(c, r, o), p).y
  {
    var r', s, w := Shift(c, r), Edwards(c, p, o), Edwards(c, r, o);
    Closure(c, p, o);
    Closure(c, r, o);
    Closure(c, s, r);
    Closure(c, w, p);
    ShiftOnCurve(c, r);
    Closure(c, r', o);
    Closure(c, Edwards(c, r', o), p);
    ShiftSum(c, s, r);
    AssociativeX(c, p, o, r');
    ShiftSum(c, o, r);
    Commutative(c, o, r);
    Commutative(c, o, r');
    ShiftOnCurve(c, w);
    SumCong(c, p, Edwards(c, r', o), Shift(c, w));
    ShiftSum(c, p, w);
    Commutative(c, p, w);
    Commutative(c, p, Edwards(c, r', o));
    var y, y' := Edwards(c, s, r).y, Edwards(c, w, p).y;
    var x := Edwards(c, s, r').x;
    CongSym(c.q, x, c.i * y);
    CongTrans(c.q, c.i * y, x, c.i * y');
    RootIsUnit(c);
    Cancel(c.q, c.i, y, y');
    Residue(c.q, y, y');
  }

  lemma {:induction false} RootIsUnit(c: Curve)
    requires Lawful(c)
    ensures !Dvd(c.q, c.i)
  {
    if Dvd(c.q, c.i) {
      DvdScale(c.q, c.i, c.i);
      DvdSum(c.q, c.i * c.i, c.i * c.i - -1);
      DvdScale(c.q, -1, -1);
      UnitNonzero(c.q, 1);
      assert false;
    }
  }

  /** The addition formula is associative on the curve. */
  lemma {:induction false} Associative(c: Curve, p: Point, o: Point, r: Point)
    requires Lawful(c) && OnCurve(c, p) && OnCurve(c, o) && OnCurve(c, r)
    ensures Edwards(c, Edwards(c, p, o), r) == Edwards(c, p, Edwards(c, o, r))
  {
    AssociativeX(c, p, o, r);
    AssociativeY(c, p, o, r);
    Commutative(c, r, o);
    Commutative(c, Edwards(c, r, o), p);
  }

  // ----- identity and inverses

  lemma {:induction false} PowOne(e: nat)
    ensures Pow(1, e) == 1
  {
    if e == 0 {
    } else {
      PowOne(e - 1);
    }
  }

  lemma {:induction false} DivByOne(c: Curve, n: int)
    requires 0 <= n < c.q
    ensures Div(c, n, 1) == n
  {
    PowOne(c.q - 2);
    ModCong(c.q, 1);
    Residue(c.q, ModPow(1, c.q - 2, c.q), 1);
    ModCong(c.q, n * 1);
    Residue(c.q, Div(c, n, 1), n);
  }

  /** (0, 1) is the identity, whatever the constants are. */
  lemma {:induction false} Identity(c: Curve, p: Point)
    requires Reduced(c, p)
    ensures Edwards(c, Zero, p) == p && Edwards(c, p, Zero) == p
  {
    CrossInProducts(c.d, Zero, p);
    DivByOne(c, p.x);
    DivByOne(c, p.y);
    Commutative(c, Zero, p);
  }

  lemma {:induction false} ZeroValid(c: Curve)
    ensures Valid(c, Zero)
  {
    EquationInSquares(c.d, 0, 1);
    DivIntroZero(c.q);
  }

  lemma {:induction false} DivIntroZero(q: int)
    ensures Dvd(q, 0)
  {
    DvdIntro(q, 0, 0);
  }

  function Negate(c: Curve, p: Point): Point {
    Point((-p.x) % c.q, p.y)
  }

  lemma {:induction false} NegateValid(c: Curve, p: Point)
    requires Valid(c, p)
    ensures Valid(c, Negate(c, p))
  {
    var x := (-p.x) % c.q;
    ModCong(c.q, -p.x);
    EquationInSquares(c.d, p.x, p.y);
    EquationInSquares(c.d, x, p.y);
    CongMul(c.q, x, -p.x, x, -p.x);
    SignsCancel(p.x, p.x);
    CongRefl(c.q, p.y * p.y);
    SquaredEquationCong(c.q, c.d, x * x, p.x * p.x, p.y * p.y, p.y * p.y);
    DvdSum(c.q, Equation(c.d, x, p.y) - Equation(c.d, p.x, p.y), Equation(c.d, p.x, p.y));
  }

  lemma {:induction false} OppositeOnCurve(c: Curve, p: Point)
    requires OnCurve(c, p)
    ensures OnCurve(c, Point(-p.x, p.y))
  {
    EquationInSquares(c.d, p.x, p.y);
    EquationInSquares(c.d, -p.x, p.y);
    SignsCancel(p.x, p.x);
  }

  lemma {:induction false} Inverses(c: Curve, p: Point)
    requires Lawful(c) && Valid(c, p)
    ensures Valid(c, Negate(c, p)) && Edwards(c, p, Negate(c, p)) == Zero
  {
    var o := Point(-p.x, p.y);
    NegateValid(c, p);
    OppositeOnCurve(c, p);
    ModCong(c.q, -p.x);
    CongRefl(c.q, p.y);
    SumCong(c, p, Negate(c, p), o);
    SumMeaning(c, p, o);
    OppositeNumerators(c.d, p);
    var s, t := Edwards(c, p, o), Cross(c.d, p, o);
    DivIntroZero(c.q);
    UnitQuotient(c.q, s.x, 1 + t, SumX(p, o), 0);
    UnitQuotient(c.q, s.y, 1 - t, SumY(p, o), 1);
  }

  lemma {:induction false} OppositeNumerators(d: int, p: Point)
    ensures
      var o := Point(-p.x, p.y);
      SumX(p, o) == 0 && SumY(p, o) - (1 - Cross(d, p, o)) == Equation(d, p.x, p.y)
  {
    CrossInProducts(d, p, Point(-p.x, p.y));
    OppositeProducts(d, p.x, p.y);
    EquationInSquares(d, p.x, p.y);
  }

  lemma {:induction false} OppositeProducts(d: int, x: int, y: int)
    ensures 1 - d * ((x * y) * ((-x) * y)) == 1 + d * ((x * y) * (x * y))
    ensures x * y + (-x) * y == 0 && y * y + x * (-x) == y * y - x * x
  {
  }

  /** If v z = n with z invertible and n = e z, then v = e. */
  lemma {:induction false} UnitQuotient(q: int, v: int, z: int, n: int, e: int)
    requires IsPrime(q) && !Dvd(q, z) && 0 <= v < q && 0 <= e < q
    requires Cong(q, v * z, n) && Cong(q, n, e * z)
    ensures v == e
  {
    CongTrans(q, v * z, n, e * z);
    Cancel(q, z, v, e);
    Residue(q, v, e);
  }
}

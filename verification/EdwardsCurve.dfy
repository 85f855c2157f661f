/** The twisted Edwards curve -x^2 + y^2 = 1 + d x^2 y^2 over the integers modulo q,
    with the addition formula of the signature checkers, and the proof that the
    formula is total and closed. */
module EdwardsCurve {
  import opened Ring
  import opened Congruence
  import opened PrimeField

  datatype Point = Point(x: int, y: int)

  /** The constants of one verifier: Q, L, D, I and B. */
  datatype CurveConstants = Curve(q: nat, l: nat, d: int, i: int, base: Point)
  type Curve = c: CurveConstants | c.q >= 3 && c.l >= 1 witness Curve(3, 1, 0, 0, Point(0, 1))

  const Zero := Point(0, 1)

  function Equation(d: int, x: int, y: int): int {
    -x * x + y * y - 1 - d * x * x * y * y
  }

  ghost predicate OnCurve(c: Curve, p: Point) {
    Dvd(c.q, Equation(c.d, p.x, p.y))
  }

  predicate Reduced(c: Curve, p: Point) {
    0 <= p.x < c.q && 0 <= p.y < c.q
  }

  ghost predicate Valid(c: Curve, p: Point) {
    Reduced(c, p) && OnCurve(c, p)
  }

  /** What the formula needs from the constants: q is a prime with q % 8 == 5,
      i squares to -1 and d is not a square. */
  ghost predicate Lawful(c: Curve) {
    && IsPrime(c.q)
    && c.q % 8 == 5
    && Cong(c.q, c.i * c.i, -1)
    && forall s :: !Cong(c.q, Mul(s, s), c.d)
  }

  lemma {:induction false} OddModulus(c: Curve)
    requires Lawful(c)
    ensures c.q % 2 == 1
  {
  }

  /** d x1 x2 y1 y2, the variable part of both denominators. */
  function Cross(d: int, p: Point, o: Point): int {
    d * p.x * o.x * p.y * o.y
  }

  /** n / v in the field: n * pow(v, Q - 2, Q) % Q. */
  function Div(c: Curve, n: int, v: int): int {
    n * ModPow(v, c.q - 2, c.q) % c.q
  }

  function Edwards(c: Curve, p: Point, o: Point): Point {
    var t := Cross(c.d, p, o);
    Point(
      Div(c, p.x * o.y + o.x * p.y, 1 + t),
      Div(c, p.y * o.y + p.x * o.x, 1 - t))
  }

  // ----- the denominators never vanish

  /** The equation in terms of a = x^2 and b = y^2. */
  function SquaredEquation(d: int, a: int, b: int): int {
    b - a - 1 - d * (a * b)
  }

  lemma {:induction false} EquationInSquares(d: int, x: int, y: int)
    ensures Equation(d, x, y) == SquaredEquation(d, x * x, y * y)
    ensures (x * y) * (x * y) == (x * x) * (y * y)
  {
    assert (x * y) * (x * y) == (x * x) * (y * y);
    assert d * x * x * y * y == d * ((x * x) * (y * y));
  }

  lemma {:induction false} SquareOfSum(i: int, e: int, x: int, y: int)
    requires e * e == 1
    ensures (i * x + e * y) * (i * x + e * y) == (i * i) * (x * x) + 2 * (i * (x * y)) * e + y * y
  {
    var u, v := i * x, e * y;
    assert (u + v) * (u + v) == u * u + 2 * (u * v) + v * v;
    assert u * u == (i * i) * (x * x);
    assert v * v == (e * e) * (y * y);
    assert u * v == (i * (x * y)) * e;
  }

  lemma {:induction false} CrossInProducts(d: int, p: Point, o: Point)
    ensures
      var m, n := p.x * p.y, o.x * o.y;
      var k, l := d * (m * m), d * (n * n);
      var t := Cross(d, p, o);
      t == d * (m * n) && t * t == k * l && m * t == k * n
  {
    var m, n := p.x * p.y, o.x * o.y;
    assert d * p.x * o.x * p.y * o.y == d * (m * n);
    var t := d * (m * n);
    assert t * t == (d * d) * ((m * n) * (m * n));
    Interchange(m, n, m, n);
    Interchange(d, d, m * m, n * n);
    assert m * t == d * (m * (m * n));
  }

  /** If d x1 x2 y1 y2 is e = 1 or e = -1, then d times a square is a square. */
  lemma {:induction false} KeyCongruence(c: Curve, e: int, p: Point, o: Point)
    requires Lawful(c) && OnCurve(c, p) && OnCurve(c, o)
    requires e * e == 1 && Dvd(c.q, e - Cross(c.d, p, o))
    ensures
      var v, w := c.i * p.x + e * p.y, (p.x * p.y) * (c.i * o.x + 1 * o.y);
      Dvd(c.q, v * v - c.d * (w * w))
  {
    KeyIdentity(c.d, c.i, e, p, o);
    var t, j := Cross(c.d, p, o), c.i * c.i;
    var k := c.d * ((p.x * p.y) * (p.x * p.y));
    KeyDvd(c.q, Equation(c.d, p.x, p.y), k, Equation(c.d, o.x, o.y),
           p.x * p.x - k * (o.x * o.x), j, e + t + 2 * (c.i * (p.x * p.y)), e - t);
  }

  lemma {:induction false} KeyDvd(q: int, e1: int, k: int, e2: int, f: int, j: int, g: int, h: int)
    requires Dvd(q, e1) && Dvd(q, e2) && Cong(q, j, -1) && Dvd(q, h)
    ensures Dvd(q, e1 - k * e2 + f * (j + 1) + g * h)
  {
    DvdCombine(q, e2, -k, j - -1, f, h, g);
    DvdSum(q, e1, -k * e2 + f * (j + 1) + g * h);
  }

  lemma {:induction false} KeyIdentity(d: int, i: int, e: int, p: Point, o: Point)
    requires e * e == 1
    ensures
      var v, w := i * p.x + e * p.y, (p.x * p.y) * (i * o.x + 1 * o.y);
      var t, k := Cross(d, p, o), d * ((p.x * p.y) * (p.x * p.y));
      v * v - d * (w * w)
      == Equation(d, p.x, p.y) - k * Equation(d, o.x, o.y)
         + (p.x * p.x - k * (o.x * o.x)) * (i * i + 1)
         + (e + t + 2 * (i * (p.x * p.y))) * (e - t)
  {
    var m, n, z := p.x * p.y, o.x * o.y, i * o.x + 1 * o.y;
    EquationInSquares(d, p.x, p.y);
    EquationInSquares(d, o.x, o.y);
    SquareOfSum(i, e, p.x, p.y);
    SquareOfSum(i, 1, o.x, o.y);
    CrossInProducts(d, p, o);
    PullSquare(d, m, z);
    KeyAtoms(d * (m * m), d * (n * n), Cross(d, p, o), i, i * i, e, m, n,
             p.x * p.x, o.x * o.x, p.y * p.y, o.y * o.y);
  }

  lemma {:induction false} PullSquare(d: int, m: int, z: int)
    ensures d * ((m * z) * (m * z)) == (d * (m * m)) * (z * z)
  {
    Interchange(m, z, m, z);
  }

  lemma {:induction false} KeyAtoms(k: int, l: int, t: int, i: int, j: int, e: int, m: int, n: int, a: int, a': int,
                 b: int, b': int)
    requires t * t == k * l && m * t == k * n && e * e == 1
    ensures
      (j * a + 2 * (i * m) * e + b) - k * (j * a' + 2 * (i * n) * 1 + b')
      == (b - a - 1 - k) - k * (b' - a' - 1 - l) + (a - k * a') * (j + 1)
         + (e + t + 2 * (i * m)) * (e - t)
  {
    Expand1(j, a, k, a');
    Expand2(e, t, i * m);
    Expand3(k, j, a', i * n, b');
    Expand4(k, b', a', l);
    assert (i * m) * t == k * (i * n) by {
      KeyMove(i, m, t, k, n);
    }
  }

  lemma {:induction false} KeyMove(i: int, m: int, t: int, k: int, n: int)
    requires m * t == k * n
    ensures (i * m) * t == k * (i * n)
  {
    assert (i * m) * t == i * (m * t);
    assert k * (i * n) == i * (k * n);
  }

  lemma {:induction false} Expand1(j: int, a: int, k: int, a': int)
    ensures (a - k * a') * (j + 1) == j * a + a - k * (j * a') - k * a'
  {
    assert (k * a') * j == k * (j * a');
  }
  lemma {:induction false} Expand2(e: int, t: int, s: int)
    ensures (e + t + 2 * s) * (e - t) == e * e - t * t + 2 * s * e - 2 * (s * t)
  {
  }
  lemma {:induction false} Expand3(k: int, j: int, a: int, u: int, b: int)
    ensures k * (j * a + 2 * u * 1 + b) == k * (j * a) + 2 * (k * u) + k * b
  {
  }
  lemma {:induction false} Expand4(k: int, b: int, a: int, l: int)
    ensures k * (b - a - 1 - l) == k * b - k * a - k - k * l
  {
  }

  lemma {:induction false} RatioIsRoot(q: int, d: int, v: int, w: int) returns (s: int)
    requires IsPrime(q) && !Dvd(q, w) && Dvd(q, v * v - d * (w * w))
    ensures Cong(q, Mul(s, s), d)
  {
    var u := ModPow(w, q - 2, q);
    Inverse(q, w);
    CongMul(q, w * u, 1, w * u, 1);
    CongScale(q, (w * u) * (w * u), 1, d);
    CongScale(q, v * v, d * (w * w), u * u);
    PullSquare(d, w, u);
    Interchange(v, u, v, u);
    s := v * u;
    CongTrans(q, s * s, d * ((w * u) * (w * u)), d * 1);
  }

  lemma {:induction false} SquareRatio(c: Curve, v: int, w: int)
    requires Lawful(c) && Dvd(c.q, v * v - c.d * (w * w))
    ensures Dvd(c.q, w)
  {
    if !Dvd(c.q, w) {
      var s := RatioIsRoot(c.q, c.d, v, w);
      assert false;
    }
  }

  lemma {:induction false} UnitSquare(q: int, e: int)
    requires q >= 2 && e * e == 1
    ensures !Dvd(q, e)
  {
    if Dvd(q, e) {
      DvdScale(q, e, e);
      UnitNonzero(q, 1);
    }
  }

  lemma {:induction false} FactorOfCross(c: Curve, e: int, p: Point, o: Point)
    requires e * e == 1 && Dvd(c.q, e - Cross(c.d, p, o))
    ensures !Dvd(c.q, p.x * p.y) && !Dvd(c.q, o.y)
  {
    var m, n, t := p.x * p.y, o.x * o.y, Cross(c.d, p, o);
    CrossInProducts(c.d, p, o);
    if Dvd(c.q, m) || Dvd(c.q, o.y) {
      if Dvd(c.q, m) {
        DvdScale(c.q, m, n);
      } else {
        DvdScale(c.q, o.y, o.x);
        DvdScale(c.q, n, m);
      }
      DvdScale(c.q, m * n, c.d);
      DvdSum(c.q, e - t, t);
      UnitSquare(c.q, e);
      assert false;
    }
  }

  /** Neither denominator of the addition formula vanishes modulo q. */
  lemma {:induction false} Denominator(c: Curve, e: int, p: Point, o: Point)
    requires Lawful(c) && OnCurve(c, p) && OnCurve(c, o) && e * e == 1
    ensures !Dvd(c.q, e - Cross(c.d, p, o))
  {
    if Dvd(c.q, e - Cross(c.d, p, o)) {
      var p', o' := Point(p.x, -p.y), Point(o.x, -o.y);
      var z, z' := c.i * o.x + 1 * o.y, c.i * o.x + 1 * -o.y;
      FactorOfCross(c, e, p, o);
      KeyCongruence(c, e, p, o);
      SquareRatio(c, c.i * p.x + e * p.y, (p.x * p.y) * z);
      Euclid(c.q, p.x * p.y, z);
      MirrorPoint(c, e, p, o);
      KeyCongruence(c, e, p', o');
      FactorOfCross(c, e, p', o');
      SquareRatio(c, c.i * p.x + e * -p.y, (p.x * -p.y) * z');
      Euclid(c.q, p.x * -p.y, z');
      DvdSum(c.q, z, z');
      Euclid(c.q, 2, o.y);
      UnitNonzero(c.q, 2);
      assert false;
    }
  }

  lemma {:induction false} MirrorPoint(c: Curve, e: int, p: Point, o: Point)
    ensures Equation(c.d, p.x, -p.y) == Equation(c.d, p.x, p.y)
    ensures Equation(c.d, o.x, -o.y) == Equation(c.d, o.x, o.y)
    ensures Cross(c.d, Point(p.x, -p.y), Point(o.x, -o.y)) == Cross(c.d, p, o)
  {
    MirrorEquation(c.d, p.x, p.y);
    MirrorEquation(c.d, o.x, o.y);
    MirrorCross(c.d, p, o);
  }

  lemma {:induction false} MirrorEquation(d: int, x: int, y: int)
    ensures Equation(d, x, -y) == Equation(d, x, y)
  {
    EquationInSquares(d, x, y);
    EquationInSquares(d, x, -y);
    SignsCancel(y, y);
  }

  lemma {:induction false} MirrorCross(d: int, p: Point, o: Point)
    ensures Cross(d, Point(p.x, -p.y), Point(o.x, -o.y)) == Cross(d, p, o)
  {
    var p', o' := Point(p.x, -p.y), Point(o.x, -o.y);
    CrossInProducts(d, p, o);
    CrossInProducts(d, p', o');
    SignsCancel(p.x, p.y);
    SignsCancel(o.x, o.y);
    SignsCancel(p.x * p.y, o.x * o.y);
  }

  // ----- the sum in cleared form

  lemma {:induction false} DivMeaning(c: Curve, n: int, v: int)
    requires IsPrime(c.q) && !Dvd(c.q, v)
    ensures Cong(c.q, Div(c, n, v) * v, n) && 0 <= Div(c, n, v) < c.q
  {
    Inverse(c.q, v);
    QuotientMeaning(c.q, n, v, ModPow(v, c.q - 2, c.q));
  }

  lemma {:induction false} QuotientMeaning(q: int, n: int, v: int, u: int)
    requires q > 0 && Cong(q, v * u, 1)
    ensures Cong(q, (n * u % q) * v, n) && 0 <= n * u % q < q
  {
    ModCong(q, n * u);
    CongScale(q, n * u % q, n * u, v);
    CongScale(q, v * u, 1, n);
    Reassociate(n, u, v);
    CongTrans(q, (n * u % q) * v, n * (v * u), n * 1);
  }

  /** The sum s of p and o satisfies s.x (1 + t) = x1 y2 + x2 y1 and
      s.y (1 - t) = y1 y2 + x1 x2, with both factors invertible. */
  lemma {:induction false} SumMeaning(c: Curve, p: Point, o: Point)
    requires Lawful(c) && OnCurve(c, p) && OnCurve(c, o)
    ensures
      var s, t := Edwards(c, p, o), Cross(c.d, p, o);
      && Reduced(c, s)
      && !Dvd(c.q, 1 + t) && !Dvd(c.q, 1 - t)
      && Cong(c.q, s.x * (1 + t), p.x * o.y + o.x * p.y)
      && Cong(c.q, s.y * (1 - t), p.y * o.y + p.x * o.x)
  {
    var t := Cross(c.d, p, o);
    Denominator(c, 1, p, o);
    Denominator(c, -1, p, o);
    if Dvd(c.q, 1 + t) {
      DvdScale(c.q, 1 + t, -1);
      assert false;
    }
    DivMeaning(c, p.x * o.y + o.x * p.y, 1 + t);
    DivMeaning(c, p.y * o.y + p.x * o.x, 1 - t);
  }

  // ----- closure

  /** The equation of the sum, multiplied by both squared denominators. */
  function Cleared(d: int, u: int, w: int, t: int): int {
    -(u * u) * ((1 - t) * (1 - t)) + (w * w) * ((1 + t) * (1 + t))
    - ((1 + t) * (1 - t)) * ((1 + t) * (1 - t)) - d * ((u * u) * (w * w))
  }

  lemma {:induction false} ClearedSum(d: int, x: int, y: int, t: int)
    ensures
      var f := (1 + t) * (1 - t);
      (f * f) * Equation(d, x, y) == Cleared(d, x * (1 + t), y * (1 - t), t)
  {
    var g, h := 1 + t, 1 - t;
    var f := g * h;
    EquationInSquares(d, x, y);
    Interchange(x, g, x, g);
    Interchange(y, h, y, h);
    Interchange(g, h, g, h);
    ClearedAtoms(d, x * x, y * y, g * g, h * h);
  }

  lemma {:induction false} ClearedAtoms(d: int, a: int, b: int, g: int, h: int)
    ensures (g * h) * (b - a - 1 - d * (a * b))
            == -(a * g) * h + (b * h) * g - g * h - d * ((a * g) * (b * h))
  {
    Interchange(a, g, b, h);
    assert (g * h) * (d * (a * b)) == d * ((a * b) * (g * h));
    assert (a * g) * h == (g * h) * a;
    assert (b * h) * g == (g * h) * b;
  }

  lemma {:induction false} ClearedCong(q: int, d: int, u: int, u': int, w: int, w': int, t: int)
    requires Cong(q, u, u') && Cong(q, w, w')
    ensures Cong(q, Cleared(d, u, w, t), Cleared(d, u', w', t))
  {
    CongMul(q, u, u', u, u');
    CongMul(q, w, w', w, w');
    ClearedCongAtoms(q, d, u * u, u' * u', w * w, w' * w', (1 - t) * (1 - t), (1 + t) * (1 + t),
                     ((1 + t) * (1 - t)) * ((1 + t) * (1 - t)));
  }

  lemma {:induction false} ClearedCongAtoms(q: int, d: int, a: int, a': int, b: int, b': int, h: int, g: int, f: int)
    requires Cong(q, a, a') && Cong(q, b, b')
    ensures Cong(q, -a * h + b * g - f - d * (a * b), -a' * h + b' * g - f - d * (a' * b'))
  {
    CongMul(q, a, a', b, b');
    DvdCombine(q, a - a', -h, b - b', g, a * b - a' * b', -d);
  }

  /** The cleared numerator in terms of g = y^2 - x^2 and k = d x^2 y^2. */
  function Reduction(g1: int, k1: int, g2: int, k2: int): int {
    (g1 * g2) * (1 + k1 * k2) - (1 - k1 * k2) * (1 - k1 * k2) - k1 * (g2 * g2) - k2 * (g1 * g1)
  }

  lemma {:induction false} DifferenceOfSquares(x1: int, y1: int, x2: int, y2: int)
    ensures
      var u, w := x1 * y2 + x2 * y1, y1 * y2 + x1 * x2;
      w * w - u * u == (y1 * y1 - x1 * x1) * (y2 * y2 - x2 * x2)
  {
    var p, r, s, t := y1 * y2, x1 * x2, x1 * y2, x2 * y1;
    assert (p + r) * (p + r) == p * p + 2 * (p * r) + r * r;
    assert (s + t) * (s + t) == s * s + 2 * (s * t) + t * t;
    SquaresOfProducts(x1, y1, x2, y2);
    FourProducts(y1 * y1, x1 * x1, y2 * y2, x2 * x2);
  }

  lemma {:induction false} SquaresOfProducts(x1: int, y1: int, x2: int, y2: int)
    ensures (y1 * y2) * (y1 * y2) == (y1 * y1) * (y2 * y2)
    ensures (x1 * x2) * (x1 * x2) == (x1 * x1) * (x2 * x2)
    ensures (x1 * y2) * (x1 * y2) == (x1 * x1) * (y2 * y2)
    ensures (x2 * y1) * (x2 * y1) == (y1 * y1) * (x2 * x2)
    ensures (y1 * y2) * (x1 * x2) == (x1 * y1) * (x2 * y2)
    ensures (x1 * y2) * (x2 * y1) == (x1 * y1) * (x2 * y2)
  {
    Interchange(y1, y2, y1, y2);
    Interchange(x1, x2, x1, x2);
    Interchange(x1, y2, x1, y2);
    Interchange(x2, y1, x2, y1);
    Interchange(y1, y2, x1, x2);
    Interchange(x1, y2, y1, x2);
  }

  lemma {:induction false} FourProducts(b1: int, a1: int, b2: int, a2: int)
    ensures (b1 - a1) * (b2 - a2) == b1 * b2 - a1 * b2 - b1 * a2 + a1 * a2
    ensures (b1 + a1) * (b2 + a2) == b1 * b2 + a1 * b2 + b1 * a2 + a1 * a2
  {
  }

  lemma {:induction false} SumOfSquares(x1: int, y1: int, x2: int, y2: int)
    ensures
      var u, w := x1 * y2 + x2 * y1, y1 * y2 + x1 * x2;
      w * w + u * u
      == (y1 * y1 + x1 * x1) * (y2 * y2 + x2 * x2) + 4 * ((x1 * y1) * (x2 * y2))
  {
    var p, r, s, t := y1 * y2, x1 * x2, x1 * y2, x2 * y1;
    assert (p + r) * (p + r) == p * p + 2 * (p * r) + r * r;
    assert (s + t) * (s + t) == s * s + 2 * (s * t) + t * t;
    SquaresOfProducts(x1, y1, x2, y2);
    FourProducts(y1 * y1, x1 * x1, y2 * y2, x2 * x2);
  }

  lemma {:induction false} ProductOfSums(x1: int, y1: int, x2: int, y2: int)
    ensures
      var u, w := x1 * y2 + x2 * y1, y1 * y2 + x1 * x2;
      u * w == (x1 * y1) * (y2 * y2 + x2 * x2) + (x2 * y2) * (y1 * y1 + x1 * x1)
  {
    var p, r, s, t := y1 * y2, x1 * x2, x1 * y2, x2 * y1;
    assert (s + t) * (p + r) == s * p + s * r + t * p + t * r;
    Interchange(x1, y2, y1, y2);
    Interchange(x2, y1, y2, y1);
    Interchange(x1, y2, x1, x2);
    Interchange(x2, y1, x2, x1);
  }

  lemma {:induction false} ClosureIdentity(d: int, p: Point, o: Point)
    ensures
      var u, w := p.x * o.y + o.x * p.y, p.y * o.y + p.x * o.x;
      var m, n := p.x * p.y, o.x * o.y;
      Cleared(d, u, w, Cross(d, p, o))
      == Reduction(p.y * p.y - p.x * p.x, d * (m * m), o.y * o.y - o.x * o.x, d * (n * n))
  {
    var u, w := p.x * o.y + o.x * p.y, p.y * o.y + p.x * o.x;
    DifferenceOfSquares(p.x, p.y, o.x, o.y);
    SumOfSquares(p.x, p.y, o.x, o.y);
    ProductOfSums(p.x, p.y, o.x, o.y);
    CrossInProducts(d, p, o);
    EquationInSquares(d, p.x, p.y);
    EquationInSquares(d, o.x, o.y);
    Interchange(u, w, u, w);
    ClosureAtoms(d, u * u, w * w, u * w, p.x * p.x, p.y * p.y, o.x * o.x, o.y * o.y,
                 p.x * p.y, o.x * o.y, Cross(d, p, o));
  }

  lemma {:induction false} ClosureAtoms(d: int, u: int, w: int, v: int, a1: int, b1: int, a2: int, b2: int,
                     m: int, n: int, t: int)
    requires w - u == (b1 - a1) * (b2 - a2)
    requires w + u == (b1 + a1) * (b2 + a2) + 4 * (m * n)
    requires v == m * (b2 + a2) + n * (b1 + a1) && u * w == v * v
    requires m * m == a1 * b1 && n * n == a2 * b2
    requires t == d * (m * n) && t * t == (d * (m * m)) * (d * (n * n))
    ensures
      -u * ((1 - t) * (1 - t)) + w * ((1 + t) * (1 + t))
      - ((1 + t) * (1 - t)) * ((1 + t) * (1 - t)) - d * (u * w)
      == Reduction(b1 - a1, d * (m * m), b2 - a2, d * (n * n))
  {
    var k, l, s1, s2 := d * (m * m), d * (n * n), b1 + a1, b2 + a2;
    SplitByParity(u, w, t);
    SquareOfCombination(d, m, n, s1, s2);
    SquareOfSumByDifference(a1, b1, k);
    SquareOfSumByDifference(a2, b2, k);
    SquareOfSumByDifference(a1, b1, l);
    SquareOfSumByDifference(a2, b2, l);
    EightfoldTerm(d, m, n);
    assert 2 * (t * (w + u)) == 2 * (t * (s1 * s2)) + 8 * (t * (m * n));
  }

  lemma {:induction false} SplitByParity(u: int, w: int, t: int)
    ensures -u * ((1 - t) * (1 - t)) + w * ((1 + t) * (1 + t)) == (w - u) * (1 + t * t) + 2 * (t * (w + u))
    ensures ((1 + t) * (1 - t)) * ((1 + t) * (1 - t)) == (1 - t * t) * (1 - t * t)
  {
    var r := t * t;
    assert (1 - t) * (1 - t) == 1 - 2 * t + r;
    assert (1 + t) * (1 + t) == 1 + 2 * t + r;
    assert (1 + t) * (1 - t) == 1 - r;
    assert -u * (1 - 2 * t + r) == -u + 2 * (t * u) - u * r;
    assert w * (1 + 2 * t + r) == w + 2 * (t * w) + w * r;
    assert (w - u) * (1 + r) == w - u + w * r - u * r;
  }

  lemma {:induction false} SquareOfCombination(d: int, m: int, n: int, s1: int, s2: int)
    ensures
      var v := m * s2 + n * s1;
      d * (v * v) == (d * (m * m)) * (s2 * s2) + 2 * ((d * (m * n)) * (s1 * s2)) + (d * (n * n)) * (s1 * s1)
  {
    var f, g := m * s2, n * s1;
    assert (f + g) * (f + g) == f * f + 2 * (f * g) + g * g;
    PullSquare(d, m, s2);
    PullSquare(d, n, s1);
    Interchange(m, s2, n, s1);
    assert d * ((m * n) * (s2 * s1)) == (d * (m * n)) * (s1 * s2);
  }

  lemma {:induction false} SquareOfSumByDifference(a: int, b: int, k: int)
    ensures k * ((b + a) * (b + a)) == k * ((b - a) * (b - a)) + 4 * (k * (a * b))
  {
    assert (b + a) * (b + a) == (b - a) * (b - a) + 4 * (a * b);
  }

  lemma {:induction false} EightfoldTerm(d: int, m: int, n: int)
    ensures (d * (m * m)) * (n * n) == (d * (m * n)) * (m * n)
    ensures (d * (n * n)) * (m * m) == (d * (m * n)) * (m * n)
  {
    PullSquare(d, m, n);
    PullSquare(d, n, m);
  }

  lemma {:induction false} ReductionVanishes(q: int, g1: int, k1: int, g2: int, k2: int)
    requires Dvd(q, g1 - 1 - k1) && Dvd(q, g2 - 1 - k2)
    ensures Dvd(q, Reduction(g1, k1, g2, k2))
  {
    var f := 1 + k1 * k2;
    var e1, e2 := g1 - 1 - k1, g2 - 1 - k2;
    DvdScale(q, e1, g2 * f - k2 * (g1 + 1 + k1));
    DvdScale(q, e2, (1 + k1) * f - k1 * (g2 + 1 + k2));
    DvdSum(q, (g2 * f - k2 * (g1 + 1 + k1)) * e1, ((1 + k1) * f - k1 * (g2 + 1 + k2)) * e2);
    ReductionCofactors(g1, k1, g2, k2);
  }

  lemma {:induction false} ReductionCofactors(g1: int, k1: int, g2: int, k2: int)
    ensures
      var f := 1 + k1 * k2;
      Reduction(g1, k1, g2, k2)
      == (g2 * f - k2 * (g1 + 1 + k1)) * (g1 - 1 - k1) + ((1 + k1) * f - k1 * (g2 + 1 + k2)) * (g2 - 1 - k2)
  {
    var f, h1, h2 := 1 + k1 * k2, 1 + k1, 1 + k2;
    CofactorTerm(g2, f, g1, h1);
    CofactorTerm(h1, f, g2, h2);
    DifferenceTerm(k2, g1, h1);
    DifferenceTerm(k1, g2, h2);
    Cofactors(g2 * f, k2 * (g1 + h1), g1 - h1);
    Cofactors(h1 * f, k1 * (g2 + h2), g2 - h2);
    ReductionAtOne(k1, k2);
  }

  lemma {:induction false} CofactorTerm(g: int, f: int, u: int, v: int)
    ensures (g * f) * (u - v) == (u * g) * f - (v * g) * f
  {
    assert (u * g) * f == (g * f) * u;
    assert (v * g) * f == (g * f) * v;
  }

  lemma {:induction false} DifferenceTerm(k: int, g: int, h: int)
    ensures (k * (g + h)) * (g - h) == k * (g * g) - k * (h * h)
  {
    assert (k * (g + h)) * (g - h) == k * ((g + h) * (g - h));
  }

  lemma {:induction false} Cofactors(u: int, v: int, e: int)
    ensures (u - v) * e == u * e - v * e
  {
  }

  lemma {:induction false} ReductionAtOne(k1: int, k2: int)
    ensures Reduction(1 + k1, k1, 1 + k2, k2) == 0
  {
    var r, h1, h2 := k1 * k2, 1 + k1, 1 + k2;
    assert h1 * h2 == 1 + k1 + k2 + r;
    assert (1 + k1 + k2 + r) * (1 + r) == 1 + k1 + k2 + 2 * r + k1 * r + k2 * r + r * r;
    assert k1 * (h2 * h2) == k1 + 2 * r + k2 * r;
    assert k2 * (h1 * h1) == k2 + 2 * r + k1 * r;
    assert (1 - r) * (1 - r) == 1 - 2 * r + r * r;
  }

  /** The sum of two points of the curve is a point of the curve. */
  lemma {:induction false} Closure(c: Curve, p: Point, o: Point)
    requires Lawful(c) && OnCurve(c, p) && OnCurve(c, o)
    ensures Valid(c, Edwards(c, p, o))
  {
    var s, t := Edwards(c, p, o), Cross(c.d, p, o);
    var u, w := p.x * o.y + o.x * p.y, p.y * o.y + p.x * o.x;
    var f := (1 + t) * (1 - t);
    SumMeaning(c, p, o);
    EquationInSquares(c.d, p.x, p.y);
    EquationInSquares(c.d, o.x, o.y);
    ReductionVanishes(c.q, p.y * p.y - p.x * p.x, c.d * ((p.x * p.y) * (p.x * p.y)),
                      o.y * o.y - o.x * o.x, c.d * ((o.x * o.y) * (o.x * o.y)));
    ClosureIdentity(c.d, p, o);
    ClearedCong(c.q, c.d, s.x * (1 + t), u, s.y * (1 - t), w, t);
    DvdSum(c.q, Cleared(c.d, s.x * (1 + t), s.y * (1 - t), t) - Cleared(c.d, u, w, t), Cleared(c.d, u, w, t));
    ClearedSum(c.d, s.x, s.y, t);
    NonzeroProduct(c.q, 1 + t, 1 - t);
    NonzeroProduct(c.q, f, f);
    Euclid(c.q, f * f, Equation(c.d, s.x, s.y));
  }
}

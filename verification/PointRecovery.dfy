/** xrecover: the even x coordinate that belongs to a y coordinate. */
module PointRecovery {
  import opened Ring
  import opened Congruence
  import opened PrimeField
  import opened EdwardsCurve
  import opened EdwardsGroup

  /** The candidate (u / v)^((Q + 3) / 8), multiplied by I if it is a root of -u / v. */
  function RootCandidate(c: Curve, xx: int): int {
    var x := ModPow(xx, (c.q + 3) / 8, c.q);
    if (x * x - xx) % c.q != 0 then x * c.i % c.q else x
  }

  function XRecover(c: Curve, y: int): int {
    var xx := Div(c, y * y - 1, c.d * y * y + 1);
    Evened(c.q, RootCandidate(c, xx))
  }

  /** The even one of x and Q - x. */
  function Evened(q: int, x: int): int {
    if x % 2 == 1 then q - x else x
  }

  /** With odd q the result is an even residue, whatever y is. */
  lemma {:induction false} XRecoverRange(c: Curve, y: int)
    requires c.q % 2 == 1
    ensures 0 <= XRecover(c, y) < c.q && XRecover(c, y) % 2 == 0
  {
    var xx := Div(c, y * y - 1, c.d * y * y + 1);
    RootCandidateRange(c, xx);
    EvenedRange(c.q, RootCandidate(c, xx));
  }

  lemma {:induction false} EvenedRange(q: int, x: int)
    requires q % 2 == 1 && 0 <= x < q
    ensures 0 <= Evened(q, x) < q && Evened(q, x) % 2 == 0
  {
  }

  lemma {:induction false} RootCandidateRange(c: Curve, xx: int)
    ensures 0 <= RootCandidate(c, xx) < c.q
  {
    ModCong(c.q, Pow(xx, (c.q + 3) / 8));
    ModCong(c.q, ModPow(xx, (c.q + 3) / 8, c.q) * c.i);
  }

  lemma {:induction false} RootsAgree(q: int, a: int, b: int)
    requires IsPrime(q) && Cong(q, a * a, b * b)
    ensures Cong(q, a, b) || Cong(q, a, -b)
  {
    assert a * a - b * b == (a - b) * (a + b);
    Euclid(q, a - b, a + b);
  }

  lemma {:induction false} PowOfSquare(s: int, e: nat)
    ensures Pow(s * s, e) == Pow(s, 2 * e)
  {
    PowOfProduct(s, s, e);
    PowAdd(s, e, e);
  }

  /** s^((q + 3) / 2) is plus or minus s^2. */
  lemma {:induction false} HalfPower(q: int, s: int)
    requires IsPrime(q) && q % 8 == 5
    ensures Cong(q, Pow(s, (q + 3) / 2), s * s) || Cong(q, Pow(s, (q + 3) / 2), -(s * s))
  {
    var n := (q - 1) / 2;
    PowAdd(s, n, 2);
    assert Pow(s, 2) == s * s by {
      assert Pow(s, 1) == s;
    }
    if Dvd(q, s) {
      DvdScale(q, s, s);
      DvdScale(q, s * s, Pow(s, n));
      DvdSum(q, Pow(s, n) * (s * s), s * s);
    } else {
      Fermat(q, s);
      PowAdd(s, n, n);
      RootsAgree(q, Pow(s, n), 1);
      HalfPowerSign(q, Pow(s, n), s * s);
    }
  }

  lemma {:induction false} HalfPowerSign(q: int, h: int, w: int)
    requires Cong(q, h, 1) || Cong(q, h, -1)
    ensures Cong(q, h * w, w) || Cong(q, h * w, -w)
  {
    if Cong(q, h, 1) {
      CongScale(q, h, 1, w);
    } else {
      CongScale(q, h, -1, w);
    }
  }

  /** The square of xx^((q + 3) / 8) is plus or minus xx, for a square xx. */
  lemma {:induction false} CandidateSquare(q: int, xx: int, s: int, e: nat)
    requires IsPrime(q) && q % 8 == 5 && 8 * e == q + 3 && Cong(q, xx, s * s)
    ensures
      var x := ModPow(xx, e, q);
      Cong(q, x * x, s * s) || Cong(q, x * x, -(s * s))
  {
    var x := ModPow(xx, e, q);
    SquareOfResidue(q, Pow(xx, e));
    PowAdd(xx, e, e);
    PowCong(q, xx, s * s, 2 * e);
    CongTrans(q, x * x, Pow(xx, 2 * e), Pow(s * s, 2 * e));
    PowOfSquare(s, 2 * e);
    HalfPower(q, s);
    assert 4 * e == (q + 3) / 2;
    if Cong(q, Pow(s, 4 * e), s * s) {
      CongTrans(q, x * x, Pow(s, 4 * e), s * s);
    } else {
      CongTrans(q, x * x, Pow(s, 4 * e), -(s * s));
    }
  }

  /** If xx is the square of s, the candidate is a square root of xx. */
  lemma {:induction false} CandidateIsRoot(c: Curve, xx: int, s: int)
    requires Lawful(c) && Cong(c.q, xx, s * s)
    ensures Cong(c.q, RootCandidate(c, xx) * RootCandidate(c, xx), s * s)
  {
    var x := ModPow(xx, (c.q + 3) / 8, c.q);
    CandidateSquare(c.q, xx, s, (c.q + 3) / 8);
    DvdIffMod(c.q, x * x - xx);
    if Cong(c.q, x * x, xx) {
      CongTrans(c.q, x * x, xx, s * s);
    } else {
      if Cong(c.q, x * x, s * s) {
        CongJoin(c.q, x * x, xx, s * s);
        assert false;
      }
      TwistedRoot(c, x, s * s);
    }
  }

  lemma {:induction false} TwistedRoot(c: Curve, x: int, w: int)
    requires Lawful(c) && Cong(c.q, x * x, -w)
    ensures Cong(c.q, (x * c.i % c.q) * (x * c.i % c.q), w)
  {
    SquareOfResidue(c.q, x * c.i);
    Interchange(x, c.i, x, c.i);
    CongMul(c.q, x * x, -w, c.i * c.i, -1);
    var r := x * c.i % c.q;
    CongTrans(c.q, r * r, (x * x) * (c.i * c.i), w);
  }

  lemma {:induction false} RootDenominator(c: Curve, y: int)
    requires Lawful(c)
    ensures !Dvd(c.q, c.d * y * y + 1)
  {
    if Dvd(c.q, c.d * y * y + 1) {
      assert c.d * y * y == c.d * (y * y);
      DvdSum(c.q, c.i * c.i - -1, c.d * y * y + 1);
      SquareRatio(c, c.i, y);
      DvdScale(c.q, y, y);
      DvdScale(c.q, y * y, c.d);
      DvdSum(c.q, c.d * (y * y) + 1, c.d * (y * y));
      UnitNonzero(c.q, 1);
      assert false;
    }
  }

  /** The equation of the curve, solved for x^2. */
  lemma {:induction false} SolvedForX(d: int, x: int, y: int)
    ensures (x * x) * (d * y * y + 1) - (y * y - 1) == -Equation(d, x, y)
  {
    Reassociate(d, y, y);
    EquationInSquares(d, x, y);
    Distribute(x * x, d * (y * y), 1);
    Swap(x * x, d, y * y);
  }

  lemma {:induction false} QuotientIsSquare(c: Curve, x: int, y: int)
    requires Lawful(c) && OnCurve(c, Point(x, y))
    ensures Cong(c.q, Div(c, y * y - 1, c.d * y * y + 1), x * x)
  {
    var v, n := c.d * y * y + 1, y * y - 1;
    RootDenominator(c, y);
    DivMeaning(c, n, v);
    SolvedForX(c.d, x, y);
    DvdScale(c.q, Equation(c.d, x, y), -1);
    CongJoin(c.q, Div(c, n, v) * v, (x * x) * v, n);
    Cancel(c.q, v, Div(c, n, v), x * x);
  }

  lemma {:induction false} OppositeSquare(q: int, x: int)
    ensures Cong(q, (q - x) * (q - x), x * x)
  {
    assert (q - x) * (q - x) - x * x == (q - 2 * x) * q;
    DvdIntro(q, q - 2 * x, (q - x) * (q - x) - x * x);
  }

  lemma {:induction false} EvenedSquare(q: int, x: int, w: int)
    requires Cong(q, x * x, w)
    ensures Cong(q, Evened(q, x) * Evened(q, x), w)
  {
    OppositeSquare(q, x);
    var r := Evened(q, x);
    if x % 2 == 1 {
      CongTrans(q, r * r, x * x, w);
    }
  }

  /** For a point of the curve, xrecover finds the even one of x and Q - x. */
  lemma {:induction false} XRecoverMeaning(c: Curve, p: Point)
    requires Lawful(c) && Valid(c, p)
    ensures XRecover(c, p.y) == if p.x % 2 == 0 then p.x else c.q - p.x
  {
    var xx := Div(c, p.y * p.y - 1, c.d * p.y * p.y + 1);
    QuotientIsSquare(c, p.x, p.y);
    CandidateIsRoot(c, xx, p.x);
    EvenedSquare(c.q, RootCandidate(c, xx), p.x * p.x);
    OddModulus(c);
    XRecoverRange(c, p.y);
    RootsAgree(c.q, XRecover(c, p.y), p.x);
    EvenRoot(c.q, XRecover(c, p.y), p.x);
  }

  lemma {:induction false} EvenRoot(q: int, r: int, x: int)
    requires q % 2 == 1 && 0 <= r < q && r % 2 == 0 && 0 <= x < q
    requires Cong(q, r, x) || Cong(q, r, -x)
    ensures r == if x % 2 == 0 then x else q - x
  {
    if Cong(q, r, x) {
      Residue(q, r, x);
    } else if x == 0 {
      Residue(q, r, 0);
    } else {
      DvdIntro(q, -1, -x - (q - x));
      CongTrans(q, r, -x, q - x);
      Residue(q, r, q - x);
    }
  }

  /** xrecover lands on the curve exactly when y belongs to some point of it. */
  lemma {:induction false} RecoverableIff(c: Curve, y: int)
    requires Lawful(c) && 0 <= y < c.q
    ensures OnCurve(c, Point(XRecover(c, y), y)) <==> exists x :: OnCurve(c, Point(x, y))
  {
    if x :| OnCurve(c, Point(x, y)) {
      var p := Point(x % c.q, y);
      ReducedOnCurve(c, x, y);
      XRecoverMeaning(c, p);
      OppositeResidue(c, p);
    }
  }

  lemma {:induction false} ReducedOnCurve(c: Curve, x: int, y: int)
    requires OnCurve(c, Point(x, y)) && 0 <= y < c.q
    ensures Valid(c, Point(x % c.q, y))
  {
    ModCong(c.q, x);
    EquationCong(c, x % c.q, x, y);
  }

  lemma {:induction false} EquationCong(c: Curve, x: int, x': int, y: int)
    requires Cong(c.q, x * x, x' * x') || Cong(c.q, x, x')
    requires OnCurve(c, Point(x', y))
    ensures OnCurve(c, Point(x, y))
  {
    if Cong(c.q, x, x') {
      CongMul(c.q, x, x', x, x');
    }
    EquationInSquares(c.d, x, y);
    EquationInSquares(c.d, x', y);
    CongRefl(c.q, y * y);
    SquaredEquationCong(c.q, c.d, x * x, x' * x', y * y, y * y);
    DvdSum(c.q, Equation(c.d, x, y) - Equation(c.d, x', y), Equation(c.d, x', y));
  }

  lemma {:induction false} OppositeResidue(c: Curve, p: Point)
    requires OnCurve(c, p)
    ensures OnCurve(c, Point(c.q - p.x, p.y))
  {
    OppositeSquare(c.q, p.x);
    EquationCong(c, c.q - p.x, p.x, p.y);
  }
}

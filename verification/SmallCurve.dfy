/** A curve small enough to compute with that meets every hypothesis of the verifier
    results, so none of them holds for want of a curve. */
module SmallCurve {
  import opened Bytes
  import opened Congruence
  import opened PrimeField
  import opened EdwardsCurve
  import opened EdwardsGroup
  import opened ScalarMultiplication
  import opened Signature

  /** -x^2 + y^2 = 1 + 5 x^2 y^2 modulo 13, with a point of order 3. */
  const Small: Curve := Curve(13, 3, 5, 5, Point(4, 10))

  lemma {:induction false} ThirteenIsPrime()
    ensures IsPrime(13)
  {
    forall m | 1 < m < 13 ensures !Dvd(m, 13) {
      DvdIffMod(m, 13);
      assert m in {2, 3, 4, 5, 6, 7, 8, 9, 10, 11, 12};
    }
  }

  lemma {:induction false} SquareResidues(r: int)
    requires 0 <= r < 13
    ensures (r * r) % 13 in {0, 1, 3, 4, 9, 10, 12}
  {
    assert r in {0, 1, 2, 3, 4, 5, 6, 7, 8, 9, 10, 11, 12};
  }

  lemma {:induction false} FiveIsNoSquare(s: int)
    ensures !Cong(13, Mul(s, s), 5)
  {
    var r := s % 13;
    ModCong(13, s);
    if Cong(13, Mul(s, s), 5) {
      CongMul(13, r, s, r, s);
      CongTrans(13, r * r, s * s, 5);
      CongIffMod(13, r * r, 5);
      SquareResidues(r);
      assert false;
    }
  }

  lemma {:induction false} SmallLawful()
    ensures Lawful(Small) && Valid(Small, Small.base)
  {
    ThirteenIsPrime();
    forall s ensures !Cong(13, Mul(s, s), 5) {
      FiveIsNoSquare(s);
    }
    CongIffMod(13, 25, -1);
    DvdIffMod(13, Equation(5, 4, 10));
  }

  /** The quotients 80 / 8001 and 116 / -7999 modulo 13. */
  lemma {:induction false} SmallQuotients(x: int, y: int)
    requires 0 <= x < 13 && 0 <= y < 13
    requires Cong(13, x * 8001, 80) && Cong(13, y * -7999, 116)
    ensures x == 9 && y == 10
  {
    var k := Quotient(13, x * 8001 - 80);
    var l := Quotient(13, y * -7999 - 116);
  }

  /** Twice the base point is its negative; c stands for the curve so that its powers
      are not computed. */
  lemma {:induction false} SmallDouble(c: Curve, p: Point)
    requires Lawful(c) && c.q == 13 && c.d == 5 && p == Point(4, 10) && OnCurve(c, p)
    ensures Edwards(c, p, p) == Point(9, 10)
  {
    SumMeaning(c, p, p);
    assert Cross(c.d, p, p) == 8000;
    SmallQuotients(Edwards(c, p, p).x, Edwards(c, p, p).y);
  }

  /** A point whose double is its negative, and not the identity, has order 3. */
  lemma {:induction false} OrderThree(c: Curve, p: Point, n: Point)
    requires Lawful(c) && Valid(c, p) && p != Zero && n != Zero
    requires n == Negate(c, p) && Edwards(c, p, p) == n
    ensures HasOrder(c, p, 3)
  {
    Inverses(c, p);
    Commutative(c, p, n);
    Identity(c, p);
    assert Multiple(c, 1, p) == Edwards(c, Multiple(c, 0, p), p);
    assert Multiple(c, 2, p) == Edwards(c, Multiple(c, 1, p), p);
    assert Multiple(c, 3, p) == Edwards(c, Multiple(c, 2, p), p);
  }

  lemma {:induction false} SmallGenerated()
    ensures Generated(Small)
  {
    SmallLawful();
    SmallDouble(Small, Small.base);
    OrderThree(Small, Small.base, Point(9, 10));
    Pow256Values();
  }
}

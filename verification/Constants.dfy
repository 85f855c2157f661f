/** The constants Q, L, D, I and B that both checkers compute at start-up. */
module Constants {
  import opened Bytes
  import opened Congruence
  import opened PrimeField
  import opened EdwardsCurve
  import opened PointRecovery
  import opened PointCodec
  import opened ScalarMultiplication
  import opened Signature

  /** 2**255 - 19 */
  const Q: nat := 0x7fffffffffffffff_ffffffffffffffff_ffffffffffffffff_ffffffffffffffed

  /** 2**252 + 27742317777372353535851937790883648493 */
  const L: nat := 0x1000000000000000_0000000000000000_14def9dea2f79cd6_5812631a5cf5d3ed

  /** D, I, BY and BX from Q, as the checkers derive them. */
  function Derived(q: nat, l: nat): Curve
    requires q >= 3 && l >= 1
  {
    var d := (-121665 * ModPow(121666, q - 2, q)) % q;
    var i := ModPow(2, (q - 1) / 4, q);
    var baseY := 4 * ModPow(5, q - 2, q) % q;
    var baseX := XRecover(Curve(q, l, d, i, Zero), baseY);
    Curve(q, l, d, i, Point(baseX, baseY))
  }

  /** c is the curve of the checkers. */
  ghost predicate IsEd25519(c: Curve) {
    c.q == Q && c.l == L && c == Derived(c.q, c.l)
  }

  lemma {:induction false} ConstantsFit()
    ensures Q % 8 == 5 && L % 2 == 1 && Q < SignBit && L < Pow256(32)
  {
    Pow256Values();
  }

  /** The parts of Lawful and Generated that follow from the way D, I and B are
      derived; primality, the non-square D and the order of B stay hypotheses. */
  lemma {:induction false} Ed25519Generated(c: Curve)
    requires IsEd25519(c)
    requires IsPrime(c.q)
    requires forall s :: !Cong(c.q, Mul(s, s), c.d)
    requires exists x :: OnCurve(c, Point(x, c.base.y))
    requires HasOrder(c, c.base, c.l)
    ensures Generated(c)
  {
    ConstantsFit();
    SquareRootOfMinusOne(c.q);
    BaseIsValid(c);
  }

  lemma {:induction false} BaseIsValid(c: Curve)
    requires Lawful(c) && c == Derived(c.q, c.l) && exists x :: OnCurve(c, Point(x, c.base.y))
    ensures Valid(c, c.base)
  {
    var c0 := Curve(c.q, c.l, c.d, c.i, Zero);
    ModCong(c.q, 4 * ModPow(5, c.q - 2, c.q));
    RecoverableIff(c, c.base.y);
    OddModulus(c);
    XRecoverRange(c, c.base.y);
    SameRoot(c, c0, c.base.y);
  }

  /** xrecover does not look at the base point. */
  lemma {:induction false} SameRoot(c: Curve, c0: Curve, y: int)
    requires c.q == c0.q && c.d == c0.d && c.i == c0.i
    ensures XRecover(c, y) == XRecover(c0, y)
  {
  }

  /** The honest-signer theorem for the constants of the checkers. */
  lemma {:induction false} Ed25519HonestSignature(
    c: Curve, hash: Hash, secret: nat, nonce: nat, message: seq<Byte>, scalar: nat)
    requires IsEd25519(c)
    requires IsPrime(c.q)
    requires forall s :: !Cong(c.q, Mul(s, s), c.d)
    requires exists x :: OnCurve(c, Point(x, c.base.y))
    requires HasOrder(c, c.base, c.l)
    requires secret % c.l != 0 && nonce % c.l != 0 && scalar < Pow256(32)
    ensures Valid(c, Multiple(c, secret, c.base)) && Valid(c, Multiple(c, nonce, c.base))
    ensures
      var public, first := EncodePoint(Multiple(c, secret, c.base)), EncodePoint(Multiple(c, nonce, c.base));
      VerifyBytes(c, hash, public, message, first + ToLittle(scalar, 32))
      <==> scalar == HonestScalar(c, secret, nonce, Challenge(c, hash, first, public, message))
  {
    Ed25519Generated(c);
    HonestSignature(c, hash, secret, nonce, message, scalar);
  }
}

/** decodepoint: strict decoding of compressed points, in the two forms of the
    checkers, and the matching encoder. */
module PointCodec {
  import opened Ring
  import opened Outcome
  import opened Bytes
  import opened Congruence
  import opened EdwardsCurve
  import opened EdwardsGroup
  import opened ScalarMultiplication
  import opened PointRecovery

  /** 1 << 255 */
  const SignBit: nat := 0x8000000000000000_0000000000000000_0000000000000000_0000000000000000

  lemma {:induction false} SignBitIsHalf()
    ensures Pow256(32) == 2 * SignBit
  {
    Pow256Values();
  }

  /** (y | ((x & 1) << 255)).to_bytes(32, "little") for y below 1 << 255 */
  function EncodePoint(p: Point): seq<Byte>
    requires p.y >= 0
  {
    ToLittle(p.y + (p.x % 2) * SignBit, 32)
  }

  /** The recovered x or its negation, whichever should have the parity of the sign bit. */
  function SignedRoot(c: Curve, y: int, sign: nat): int {
    WithParity(c.q, XRecover(c, y), sign)
  }

  function WithParity(q: int, x: int, sign: nat): int {
    if x % 2 != sign then q - x else x
  }

  predicate SatisfiesEquation(c: Curve, p: Point) {
    Equation(c.d, p.x, p.y) % c.q == 0
  }

  /** The checks shared by both forms, once the point is known. */
  predicate Acceptable(c: Curve, encoded: seq<Byte>, p: Point)
    requires p.y >= 0
  {
    && EncodePoint(p) == encoded
    && SatisfiesEquation(c, p)
    && ScalarMult(c, p, c.l) == Zero
    && ScalarMult(c, p, 8) != Zero
  }

  /** decodepoint of the signer handoff checker. */
  function DecodePoint(c: Curve, encoded: seq<Byte>): Option<Point> {
    if |encoded| != 32 then None
    else
      var value := FromLittle(encoded);
      var y := value % SignBit;
      if y >= c.q then None
      else
        var sign := value / SignBit;
        if XRecover(c, y) == 0 && sign == 1 then None
        else
          var x := SignedRoot(c, y, sign);
          if x >= c.q then None
          else if Acceptable(c, encoded, Point(x, y)) then Some(Point(x, y))
          else None
  }

  /** decodepoint of the TLS identity handoff checker, which omits the range test on x. */
  function DecodePointUnranged(c: Curve, encoded: seq<Byte>): Option<Point> {
    if |encoded| != 32 then None
    else
      var value := FromLittle(encoded);
      var y := value % SignBit;
      if y >= c.q then None
      else
        var sign := value / SignBit;
        if XRecover(c, y) == 0 && sign == 1 then None
        else
          var x := SignedRoot(c, y, sign);
          if Acceptable(c, encoded, Point(x, y)) then Some(Point(x, y)) else None
  }

  // ----- what holds for any odd q, without number theory

  lemma {:induction false} MulAtLeast(k: nat, s: nat)
    requires k >= 2
    ensures k * s >= 2 * s
  {
    assert k * s == (k - 2) * s + 2 * s;
  }

  lemma {:induction false} SplitSign(s: nat, value: nat)
    requires s > 0 && value < 2 * s
    ensures value / s == 0 || value / s == 1
    ensures value == value % s + (value / s) * s && 0 <= value % s < s
  {
    var k, r := value / s, value % s;
    assert value == k * s + r;
    if k >= 2 {
      MulAtLeast(k, s);
      assert false;
    }
  }

  lemma {:induction false} JoinSign(s: nat, y: nat, sign: nat)
    requires y < s && sign < 2
    ensures (y + sign * s) % s == y && (y + sign * s) / s == sign && y + sign * s < 2 * s
  {
    if sign == 1 {
      SplitSign(s, y + s);
    } else {
      SplitSign(s, y);
    }
  }

  /** The chosen x is a residue with the wanted parity. */
  lemma {:induction false} SignedRootRange(c: Curve, y: int, sign: nat)
    requires c.q % 2 == 1 && sign < 2 && !(XRecover(c, y) == 0 && sign == 1)
    ensures 0 <= SignedRoot(c, y, sign) < c.q && SignedRoot(c, y, sign) % 2 == sign
  {
    XRecoverRange(c, y);
    ParityRange(c.q, XRecover(c, y), sign);
  }

  lemma {:induction false} ParityRange(q: int, root: int, sign: nat)
    requires q % 2 == 1 && 0 <= root < q && root % 2 == 0 && sign < 2 && !(root == 0 && sign == 1)
    ensures 0 <= WithParity(q, root, sign) < q && WithParity(q, root, sign) % 2 == sign
  {
  }

  /** The two fields that decodepoint reads off the bytes. */
  lemma {:induction false} SplitFields(encoded: seq<Byte>)
    requires |encoded| == 32
    ensures
      var value := FromLittle(encoded);
      var y, sign := value % SignBit, value / SignBit;
      0 <= y < SignBit && 0 <= sign < 2 && ToLittle(y + sign * SignBit, 32) == encoded
  {
    FromLittleBound(encoded);
    SignBitIsHalf();
    SplitSign(SignBit, FromLittle(encoded));
    LittleReencode(encoded);
  }

  /** The canonical bytes are always the input bytes. */
  lemma {:induction false} CandidateIsCanonical(c: Curve, encoded: seq<Byte>)
    requires c.q % 2 == 1 && |encoded| == 32
    ensures
      var value := FromLittle(encoded);
      var y, sign := value % SignBit, value / SignBit;
      var x := SignedRoot(c, y, sign);
      sign < 2 && (!(XRecover(c, y) == 0 && sign == 1) ==> 0 <= x < c.q && EncodePoint(Point(x, y)) == encoded)
  {
    SplitFields(encoded);
    var y, sign := FromLittle(encoded) % SignBit, FromLittle(encoded) / SignBit;
    if !(XRecover(c, y) == 0 && sign == 1) {
      SignedRootRange(c, y, sign);
      EncodeBySign(SignedRoot(c, y, sign), y, sign);
    }
  }

  lemma {:induction false} EncodeBySign(x: int, y: nat, sign: nat)
    requires x % 2 == sign
    ensures EncodePoint(Point(x, y)) == ToLittle(y + sign * SignBit, 32)
  {
  }

  /** The dropped test on x can never fail. */
  lemma {:induction false} DecodersAgree(c: Curve, encoded: seq<Byte>)
    requires c.q % 2 == 1
    ensures DecodePointUnranged(c, encoded) == DecodePoint(c, encoded)
  {
    if |encoded| == 32 {
      CandidateIsCanonical(c, encoded);
    }
  }

  /** Decoding never yields the identity, for any constants. */
  lemma {:induction false} DecodeNeverIdentity(c: Curve, encoded: seq<Byte>)
    ensures DecodePoint(c, encoded) != Some(Zero)
  {
    IdentityFixed(c, 8);
  }

  /** Decoding is injective: the input is the encoding of the decoded point. */
  lemma {:induction false} DecodeInjective(c: Curve, e1: seq<Byte>, e2: seq<Byte>)
    requires DecodePoint(c, e1).Some? && DecodePoint(c, e1) == DecodePoint(c, e2)
    ensures e1 == e2
  {
  }

  // ----- decoding accepts exactly the encodings of the non-zero points of order l

  ghost predicate InSubgroup(c: Curve, p: Point) {
    Valid(c, p) && Multiple(c, c.l, p) == Zero && p != Zero
  }

  lemma {:induction false} EightfoldNonzero(c: Curve, p: Point)
    requires Lawful(c) && Valid(c, p) && c.l % 2 == 1 && Multiple(c, c.l, p) == Zero
    ensures Multiple(c, 8, p) == Zero <==> p == Zero
  {
    MultipleOfZero(c, 8);
    if Multiple(c, 8, p) == Zero {
      // l * l leaves remainder 1 on division by 8
      var k := c.l * c.l;
      MultipleOfProduct(c, c.l, c.l, p);
      MultipleOfZero(c, c.l);
      OddSquare(c.l);
      MultipleModulo(c, p, 8, k);
      Identity(c, p);
      assert Multiple(c, 1, p) == p;
    }
  }

  lemma {:induction false} OddSquare(l: nat)
    requires l % 2 == 1
    ensures (l * l) % 8 == 1
  {
    var h := l / 2;
    OddSquareHalf(h);
    var g := (h * (h + 1)) / 2;
    assert (2 * h + 1) * (2 * h + 1) == 4 * (h * (h + 1)) + 1;
    assert l * l == 8 * g + 1;
  }

  lemma {:induction false} OddSquareHalf(h: nat)
    ensures (h * (h + 1)) % 2 == 0
  {
    if h % 2 == 0 {
      Reassociate(2, h / 2, h + 1);
    } else {
      Swap(h, 2, (h + 1) / 2);
    }
  }

  lemma {:induction false} AcceptableMeaning(c: Curve, p: Point)
    requires Lawful(c) && Reduced(c, p) && c.l % 2 == 1
    ensures Acceptable(c, EncodePoint(p), p) <==> InSubgroup(c, p)
  {
    DvdIffMod(c.q, Equation(c.d, p.x, p.y));
    if OnCurve(c, p) {
      ScalarMultIsMultiple(c, p, c.l);
      ScalarMultIsMultiple(c, p, 8);
      if Multiple(c, c.l, p) == Zero {
        EightfoldNonzero(c, p);
      }
    }
  }

  lemma {:induction false} EncodeFields(c: Curve, p: Point)
    requires Reduced(c, p) && c.q <= SignBit
    ensures
      var e := EncodePoint(p);
      |e| == 32 && FromLittle(e) % SignBit == p.y && FromLittle(e) / SignBit == p.x % 2
  {
    SignBitIsHalf();
    JoinSign(SignBit, p.y, p.x % 2);
    LittleRoundTrip(p.y + (p.x % 2) * SignBit, 32);
  }

  lemma {:induction false} DecodedFields(c: Curve, encoded: seq<Byte>, p: Point)
    requires c.q % 2 == 1 && DecodePoint(c, encoded) == Some(p)
    ensures Reduced(c, p) && EncodePoint(p) == encoded && Acceptable(c, encoded, p)
  {
    CandidateIsCanonical(c, encoded);
  }

  lemma {:induction false} DecodeSound(c: Curve, encoded: seq<Byte>, p: Point)
    requires Lawful(c) && c.l % 2 == 1 && DecodePoint(c, encoded) == Some(p)
    ensures InSubgroup(c, p) && encoded == EncodePoint(p)
  {
    OddModulus(c);
    DecodedFields(c, encoded, p);
    AcceptedInSubgroup(c, encoded, p);
  }

  lemma {:induction false} AcceptedInSubgroup(c: Curve, encoded: seq<Byte>, p: Point)
    requires Lawful(c) && c.l % 2 == 1 && Reduced(c, p) && Acceptable(c, encoded, p)
    ensures InSubgroup(c, p)
  {
    AcceptableMeaning(c, p);
  }

  lemma {:induction false} ParityOfRoot(q: int, x: int, root: int)
    requires q % 2 == 1 && 0 <= x < q && root == if x % 2 == 0 then x else q - x
    ensures WithParity(q, root, x % 2) == x && !(root == 0 && x % 2 == 1)
  {
  }

  lemma {:induction false} SignedRootMeaning(c: Curve, p: Point)
    requires Lawful(c) && Valid(c, p)
    ensures SignedRoot(c, p.y, p.x % 2) == p.x && !(XRecover(c, p.y) == 0 && p.x % 2 == 1)
  {
    OddModulus(c);
    XRecoverMeaning(c, p);
    ParityOfRoot(c.q, p.x, XRecover(c, p.y));
  }

  /** Compressing and then decoding gives the point back. */
  lemma {:induction false} DecodeComplete(c: Curve, p: Point)
    requires Lawful(c) && c.l % 2 == 1 && c.q <= SignBit && InSubgroup(c, p)
    ensures DecodePoint(c, EncodePoint(p)) == Some(p)
  {
    EncodeFields(c, p);
    SignedRootMeaning(c, p);
    AcceptableMeaning(c, p);
  }

  /** decodepoint returns p exactly on the encoding of p, for p a non-zero point
      whose l-fold multiple is zero. */
  lemma {:induction false} DecodeMeaning(c: Curve, encoded: seq<Byte>, p: Point)
    requires Lawful(c) && c.l % 2 == 1 && c.q <= SignBit
    ensures DecodePoint(c, encoded) == Some(p) <==> InSubgroup(c, p) && encoded == EncodePoint(p)
  {
    if DecodePoint(c, encoded) == Some(p) {
      DecodeSound(c, encoded, p);
    }
    if InSubgroup(c, p) && encoded == EncodePoint(p) {
      DecodeComplete(c, p);
    }
  }
}

/** What it takes for one signature to be accepted for two messages, and what that means
    for policies and receipts. */
module SignatureReuse {
  import opened Outcome
  import opened Bytes
  import opened PrimeField
  import opened EdwardsCurve
  import opened ScalarMultiplication
  import opened PointCodec
  import opened Signature
  import opened CanonicalBytes

  /** A non-zero point of the subgroup tells scalars below l apart. */
  lemma {:induction false} KeyInjective(c: Curve, key: Point, commitment: Point, k1: nat, k2: nat)
    requires Lawful(c) && IsPrime(c.l) && InSubgroup(c, key) && InSubgroup(c, commitment) && k1 < c.l && k2 < c.l
    requires Edwards(c, commitment, Multiple(c, k1, key)) == Edwards(c, commitment, Multiple(c, k2, key))
    ensures k1 == k2
  {
    MultipleValid(c, k1, key);
    MultipleValid(c, k2, key);
    CancelPoint(c, commitment, Multiple(c, k1, key), Multiple(c, k2, key));
    PrimeOrder(c, key, c.l);
    MultipleInjective(c, key, c.l, k1, k2);
  }

  lemma {:induction false} ChallengeReduced(
    c: Curve, hash: Hash, commitment: seq<Byte>, public: seq<Byte>, message: seq<Byte>)
    ensures Challenge(c, hash, commitment, public, message) < c.l
  {
  }

  /** A signature accepted for one message is accepted for another one exactly when both
      have the same challenge. */
  lemma {:induction false} ReuseIffSameChallenge(
    c: Curve, hash: Hash, public: seq<Byte>, m1: seq<Byte>, m2: seq<Byte>, signature: seq<Byte>)
    requires Generated(c) && IsPrime(c.l) && VerifyBytes(c, hash, public, m1, signature)
    ensures VerifyBytes(c, hash, public, m2, signature) <==>
            Challenge(c, hash, signature[..32], public, m1) == Challenge(c, hash, signature[..32], public, m2)
  {
    if VerifyBytes(c, hash, public, m2, signature) {
      var key, commitment := DecodePoint(c, public).value, DecodePoint(c, signature[..32]).value;
      var k1 := Challenge(c, hash, signature[..32], public, m1);
      var k2 := Challenge(c, hash, signature[..32], public, m2);
      DecodeSound(c, public, key);
      DecodeSound(c, signature[..32], commitment);
      ScalarMultIsMultiple(c, key, k1);
      ScalarMultIsMultiple(c, key, k2);
      KeyInjective(c, key, commitment, k1, k2);
    }
  }

  // ----- policies and receipts

  /** The two kinds of document that are signed. */
  datatype Signed = Policy(snapshot: Snapshot) | Acknowledgement(receipt: Receipt)

  function SignedBytes(d: Signed): Option<seq<Byte>> {
    match d
    case Policy(s) => CanonicalSnapshot(s)
    case Acknowledgement(r) => CanonicalReceipt(r)
  }

  /** The document without its signature. */
  function Content(d: Signed): Signed {
    match d
    case Policy(s) => Policy(UnsignedSnapshot(s))
    case Acknowledgement(r) => Acknowledgement(UnsignedReceipt(r))
  }

  /** Documents of either kind have the same bytes exactly when they have the same content. */
  lemma {:induction false} SignedInjective(a: Signed, b: Signed)
    requires SignedBytes(a).Some? && SignedBytes(b).Some?
    ensures SignedBytes(a) == SignedBytes(b) <==> Content(a) == Content(b)
  {
    match (a, b)
    case (Policy(s), Policy(t)) => SnapshotInjective(s, t);
    case (Acknowledgement(r), Acknowledgement(t)) => ReceiptInjective(r, t);
    case (Policy(s), Acknowledgement(r)) => DomainsSeparate(s, r);
    case (Acknowledgement(r), Policy(s)) => DomainsSeparate(s, r);
  }

  /** Two different inputs whose hashes agree modulo l. */
  predicate Collision(c: Curve, hash: Hash, x: seq<Byte>, y: seq<Byte>) {
    x != y && FromLittle(hash(x)) % c.l == FromLittle(hash(y)) % c.l
  }

  /** A signature accepted for one document is accepted for another one exactly when the
      two have the same content or collide under the hash. */
  lemma {:induction false} ReuseNeedsCollision(
    c: Curve, hash: Hash, public: seq<Byte>, a: Signed, b: Signed, signature: seq<Byte>)
    requires Generated(c) && IsPrime(c.l) && SignedBytes(a).Some? && SignedBytes(b).Some?
    requires VerifyBytes(c, hash, public, SignedBytes(a).value, signature)
    ensures VerifyBytes(c, hash, public, SignedBytes(b).value, signature) <==>
            || Content(a) == Content(b)
            || Collision(c, hash, signature[..32] + public + SignedBytes(a).value,
                         signature[..32] + public + SignedBytes(b).value)
  {
    var x, y := SignedBytes(a).value, SignedBytes(b).value;
    var head := signature[..32] + public;
    ReuseIffSameChallenge(c, hash, public, x, y, signature);
    SignedInjective(a, b);
    assert (head + x)[|head|..] == x && (head + y)[|head|..] == y;
  }
}

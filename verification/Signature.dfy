/** verify_ed25519 in the two forms of the checkers, and what acceptance means. */
module Signature {
  import opened Outcome
  import opened Bytes
  import opened EdwardsCurve
  import opened ScalarMultiplication
  import opened PointCodec

  /** SHA-512, kept abstract. */
  type Hash = seq<Byte> -> seq<Byte>

  /** base64.b64decode(text, validate=True), with None for a raised error. */
  type Base64 = string -> Option<seq<Byte>>

  function Challenge(c: Curve, hash: Hash, commitment: seq<Byte>, public: seq<Byte>, message: seq<Byte>): nat {
    FromLittle(hash(commitment + public + message)) % c.l
  }

  /** The checks on decoded bytes in the signer handoff checker. */
  predicate VerifyBytes(c: Curve, hash: Hash, public: seq<Byte>, message: seq<Byte>, signature: seq<Byte>) {
    && |public| == 32
    && |signature| == 64
    && var key := DecodePoint(c, public);
       var commitment := DecodePoint(c, signature[..32]);
       var scalar := FromLittle(signature[32..]);
       && key.Some?
       && commitment.Some?
       && key.value != Zero
       && commitment.value != Zero
       && scalar < c.l
       && ScalarMult(c, c.base, scalar)
          == Edwards(c, commitment.value,
                     ScalarMult(c, key.value, Challenge(c, hash, signature[..32], public, message)))
  }

  predicate Verify(c: Curve, base64: Base64, hash: Hash, public: string, message: seq<Byte>, signature: string) {
    var p, s := base64(public), base64(signature);
    p.Some? && s.Some? && VerifyBytes(c, hash, p.value, message, s.value)
  }

  /** The TLS identity handoff checker: no range test on x and no identity tests. */
  predicate VerifyBytesShort(c: Curve, hash: Hash, public: seq<Byte>, message: seq<Byte>, signature: seq<Byte>) {
    && |public| == 32
    && |signature| == 64
    && var key := DecodePointUnranged(c, public);
       var commitment := DecodePointUnranged(c, signature[..32]);
       var scalar := FromLittle(signature[32..]);
       && key.Some?
       && commitment.Some?
       && scalar < c.l
       && ScalarMult(c, c.base, scalar)
          == Edwards(c, commitment.value,
                     ScalarMult(c, key.value, Challenge(c, hash, signature[..32], public, message)))
  }

  predicate VerifyShort(c: Curve, base64: Base64, hash: Hash, public: string, message: seq<Byte>, signature: string) {
    var p, s := base64(public), base64(signature);
    p.Some? && s.Some? && VerifyBytesShort(c, hash, p.value, message, s.value)
  }

  /** The shorter verifier gives the same verdict on every input. */
  lemma {:induction false} VerifiersAgree(
    c: Curve, base64: Base64, hash: Hash, public: string, message: seq<Byte>, signature: string)
    requires c.q % 2 == 1
    ensures VerifyShort(c, base64, hash, public, message, signature)
            <==> Verify(c, base64, hash, public, message, signature)
  {
    var p, s := base64(public), base64(signature);
    if p.Some? && s.Some? && |s.value| == 64 {
      DecodersAgree(c, p.value);
      DecodersAgree(c, s.value[..32]);
      DecodeNeverIdentity(c, p.value);
      DecodeNeverIdentity(c, s.value[..32]);
    }
  }

  // ----- what acceptance means

  /** The remaining facts about the constants. */
  ghost predicate Generated(c: Curve) {
    && Lawful(c)
    && c.l % 2 == 1
    && c.q <= SignBit
    && c.l <= Pow256(32)
    && Valid(c, c.base)
    && HasOrder(c, c.base, c.l)
  }

  /** The bytes spell a key, a commitment and a reduced scalar that satisfy the
      group equation. */
  ghost predicate Spells(c: Curve, hash: Hash, public: seq<Byte>, message: seq<Byte>, signature: seq<Byte>,
                         key: Point, commitment: Point, scalar: nat)
  {
    && InSubgroup(c, key)
    && InSubgroup(c, commitment)
    && scalar < c.l
    && public == EncodePoint(key)
    && signature == EncodePoint(commitment) + ToLittle(scalar, 32)
    && Multiple(c, scalar, c.base)
       == Edwards(c, commitment,
                  Multiple(c, Challenge(c, hash, EncodePoint(commitment), public, message), key))
  }

  lemma {:induction false} SpellsAccepted(
    c: Curve, hash: Hash, public: seq<Byte>, message: seq<Byte>, signature: seq<Byte>,
                       key: Point, commitment: Point, scalar: nat)
    requires Generated(c) && Spells(c, hash, public, message, signature, key, commitment, scalar)
    ensures VerifyBytes(c, hash, public, message, signature)
  {
    var first := EncodePoint(commitment);
    EncodeFields(c, key);
    EncodeFields(c, commitment);
    LittleRoundTrip(scalar, 32);
    assert signature[..32] == first && signature[32..] == ToLittle(scalar, 32);
    DecodeComplete(c, key);
    DecodeComplete(c, commitment);
    ScalarMultIsMultiple(c, c.base, scalar);
    ScalarMultIsMultiple(c, key, Challenge(c, hash, first, public, message));
  }

  lemma {:induction false} AcceptedSpells(
    c: Curve, hash: Hash, public: seq<Byte>, message: seq<Byte>, signature: seq<Byte>)
      returns (key: Point, commitment: Point, scalar: nat)
    requires Generated(c) && VerifyBytes(c, hash, public, message, signature)
    ensures Spells(c, hash, public, message, signature, key, commitment, scalar)
  {
    key, commitment := DecodePoint(c, public).value, DecodePoint(c, signature[..32]).value;
    scalar := FromLittle(signature[32..]);
    DecodeSound(c, public, key);
    DecodeSound(c, signature[..32], commitment);
    LittleReencode(signature[32..]);
    assert signature == signature[..32] + signature[32..];
    ScalarMultIsMultiple(c, c.base, scalar);
    ScalarMultIsMultiple(c, key, Challenge(c, hash, signature[..32], public, message));
  }

  /** Acceptance, for all byte strings: exactly the spellings of solutions of the
      group equation among the non-zero points of the subgroup. */
  lemma {:induction false} VerifyMeaning(
    c: Curve, hash: Hash, public: seq<Byte>, message: seq<Byte>, signature: seq<Byte>)
    requires Generated(c)
    ensures VerifyBytes(c, hash, public, message, signature)
            <==> exists key, commitment, scalar ::
                   Spells(c, hash, public, message, signature, key, commitment, scalar)
  {
    if VerifyBytes(c, hash, public, message, signature) {
      var key, commitment, scalar := AcceptedSpells(c, hash, public, message, signature);
    }
    if key, commitment, scalar :| Spells(c, hash, public, message, signature, key, commitment, scalar) {
      SpellsAccepted(c, hash, public, message, signature, key, commitment, scalar);
    }
  }

  /** For a fixed key, commitment and message at most one scalar is accepted. */
  lemma {:induction false} UniqueSignature(
    c: Curve, hash: Hash, public: seq<Byte>, message: seq<Byte>, s1: seq<Byte>, s2: seq<Byte>)
    requires Generated(c)
    requires VerifyBytes(c, hash, public, message, s1) && VerifyBytes(c, hash, public, message, s2)
    requires s1[..32] == s2[..32]
    ensures s1 == s2
  {
    var n1, n2 := FromLittle(s1[32..]), FromLittle(s2[32..]);
    ScalarMultIsMultiple(c, c.base, n1);
    ScalarMultIsMultiple(c, c.base, n2);
    MultipleInjective(c, c.base, c.l, n1, n2);
    LittleReencode(s1[32..]);
    LittleReencode(s2[32..]);
    assert s1 == s1[..32] + s1[32..];
    assert s2 == s2[..32] + s2[32..];
  }

  // ----- honest signers

  /** A secret scalar that is not a multiple of l gives a decodable point. */
  lemma {:induction false} HonestPoint(c: Curve, secret: nat)
    requires Generated(c) && secret % c.l != 0
    ensures InSubgroup(c, Multiple(c, secret, c.base))
  {
    MultipleValid(c, secret, c.base);
    MultiplesCommute(c, c.l, secret, c.base);
    MultipleOfZero(c, secret);
    MultipleZeroIff(c, c.base, c.l, secret);
  }

  /** S = (r + k a) mod l, below l. */
  function HonestScalar(c: Curve, secret: nat, nonce: nat, k: nat): (s: nat)
    ensures s < c.l
  {
    (nonce + k * secret) % c.l
  }

  lemma {:induction false} HonestSum(c: Curve, secret: nat, nonce: nat, k: nat)
    requires Generated(c)
    ensures Edwards(c, Multiple(c, nonce, c.base), Multiple(c, k, Multiple(c, secret, c.base)))
            == Multiple(c, HonestScalar(c, secret, nonce, k), c.base)
  {
    CombinationModulo(c, c.base, c.l, nonce, k, secret);
  }

  lemma {:induction false} HonestAccepted(c: Curve, hash: Hash, secret: nat, nonce: nat, message: seq<Byte>)
    requires Generated(c) && secret % c.l != 0 && nonce % c.l != 0
    ensures Valid(c, Multiple(c, secret, c.base)) && Valid(c, Multiple(c, nonce, c.base))
    ensures
      var public, first := EncodePoint(Multiple(c, secret, c.base)), EncodePoint(Multiple(c, nonce, c.base));
      var s := HonestScalar(c, secret, nonce, Challenge(c, hash, first, public, message));
      |first| == 32 && VerifyBytes(c, hash, public, message, first + ToLittle(s, 32))
  {
    var key, commitment := Multiple(c, secret, c.base), Multiple(c, nonce, c.base);
    HonestPoint(c, secret);
    HonestPoint(c, nonce);
    EncodeFields(c, commitment);
    var public, first := EncodePoint(key), EncodePoint(commitment);
    var k := Challenge(c, hash, first, public, message);
    var s := HonestScalar(c, secret, nonce, k);
    HonestSum(c, secret, nonce, k);
    SpellsAccepted(c, hash, public, message, first + ToLittle(s, 32), key, commitment, s);
  }

  /** Sections 5.1.6 and 5.1.7 of RFC 8032: for a key a B and a commitment r B the
      verifier accepts the scalar (r + k a) mod l, and no other one. */
  lemma {:induction false} HonestSignature(
    c: Curve, hash: Hash, secret: nat, nonce: nat, message: seq<Byte>, scalar: nat)
    requires Generated(c) && secret % c.l != 0 && nonce % c.l != 0 && scalar < Pow256(32)
    ensures Valid(c, Multiple(c, secret, c.base)) && Valid(c, Multiple(c, nonce, c.base))
    ensures
      var public, first := EncodePoint(Multiple(c, secret, c.base)), EncodePoint(Multiple(c, nonce, c.base));
      VerifyBytes(c, hash, public, message, first + ToLittle(scalar, 32))
      <==> scalar == HonestScalar(c, secret, nonce, Challenge(c, hash, first, public, message))
  {
    HonestAccepted(c, hash, secret, nonce, message);
    var public, first := EncodePoint(Multiple(c, secret, c.base)), EncodePoint(Multiple(c, nonce, c.base));
    var s := HonestScalar(c, secret, nonce, Challenge(c, hash, first, public, message));
    if VerifyBytes(c, hash, public, message, first + ToLittle(scalar, 32)) {
      HonestUnique(c, hash, public, message, first, scalar, s);
    }
  }

  lemma {:induction false} HonestUnique(
    c: Curve, hash: Hash, public: seq<Byte>, message: seq<Byte>, first: seq<Byte>, s: nat, t: nat)
    requires Generated(c) && s < Pow256(32) && t < Pow256(32) && |first| == 32
    requires VerifyBytes(c, hash, public, message, first + ToLittle(s, 32))
    requires VerifyBytes(c, hash, public, message, first + ToLittle(t, 32))
    ensures s == t
  {
    var b1, b2 := ToLittle(s, 32), ToLittle(t, 32);
    LittleRoundTrip(s, 32);
    LittleRoundTrip(t, 32);
    assert (first + b1)[..32] == (first + b2)[..32] == first;
    UniqueSignature(c, hash, public, message, first + b1, first + b2);
    assert (first + b1)[32..] == b1 && (first + b2)[32..] == b2;
  }
}

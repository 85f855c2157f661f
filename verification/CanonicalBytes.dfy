/** The bytes that trust policies and receipts are signed over: a domain string,
    then length-prefixed strings, fixed-width integers and counted lists. */
module CanonicalBytes {
  import opened Outcome
  import opened Bytes
  import opened Utf8

  datatype Credential = Credential(serviceId: Text, credentialId: Text, publicKey: Text)
  datatype Revocation = Revocation(serviceId: Text, credentialId: Text)
  datatype Authentication = Authentication(schema: Text, algorithm: Text, keyId: Text, signature: Text)
  datatype ReceiptAuthentication = ReceiptAuthentication(schema: Text, algorithm: Text, signature: Text)

  datatype Snapshot = Snapshot(
    schema: Text,
    clusterId: Text,
    generation: int,
    issuedAtMs: int,
    expiresAtMs: int,
    trusted: seq<Credential>,
    revokedServices: seq<Text>,
    revokedCredentials: seq<Revocation>,
    gateways: seq<Text>,
    authentication: Authentication)

  datatype Receipt = Receipt(
    schema: Text,
    clusterId: Text,
    generation: int,
    rootKeyId: Text,
    snapshotSignature: Text,
    receiverServiceId: Text,
    receiverCredentialId: Text,
    appliedAtMs: int,
    authentication: ReceiptAuthentication)

  /** b"inferlab.service-trust-policy.v2\0" */
  const PolicyDomain: seq<Byte> := [
    105, 110, 102, 101, 114, 108, 97, 98, 46, 115, 101, 114, 118, 105, 99, 101, 45, 116, 114, 117, 115,
    116, 45, 112, 111, 108, 105, 99, 121, 46, 118, 50, 0]

  /** b"inferlab.service-trust-receipt.v1\0" */
  const ReceiptDomain: seq<Byte> := [
    105, 110, 102, 101, 114, 108, 97, 98, 46, 115, 101, 114, 118, 105, 99, 101, 45, 116, 114, 117, 115,
    116, 45, 114, 101, 99, 101, 105, 112, 116, 46, 118, 49, 0]

  // ----- encoders; None stands for a raised OverflowError or UnicodeEncodeError

  /** value.to_bytes(width, "big") */
  function EncodeInt(value: int, width: nat): Option<seq<Byte>> {
    if 0 <= value < Pow256(width) then Some(ToBig(value, width)) else None
  }

  /** append_string */
  function EncodeText(t: Text): Option<seq<Byte>> {
    var encoded :- Encode(t);
    var length :- EncodeInt(|encoded|, 4);
    Some(length + encoded)
  }

  function EncodeCredential(c: Credential): Option<seq<Byte>> {
    var service :- EncodeText(c.serviceId);
    var credential :- EncodeText(c.credentialId);
    var key :- EncodeText(c.publicKey);
    Some(service + credential + key)
  }

  function EncodeRevocation(r: Revocation): Option<seq<Byte>> {
    var service :- EncodeText(r.serviceId);
    var credential :- EncodeText(r.credentialId);
    Some(service + credential)
  }

  /** The bodies of a list, in order. */
  function EncodeItems<T>(encode: T -> Option<seq<Byte>>, items: seq<T>): Option<seq<Byte>> {
    if |items| == 0 then Some([])
    else
      var front :- EncodeItems(encode, items[..|items| - 1]);
      var last :- encode(items[|items| - 1]);
      Some(front + last)
  }

  /** append_count followed by the items. */
  function EncodeList<T>(encode: T -> Option<seq<Byte>>, items: seq<T>): Option<seq<Byte>> {
    var count :- EncodeInt(|items|, 4);
    var body :- EncodeItems(encode, items);
    Some(count + body)
  }

  function CanonicalSnapshot(s: Snapshot): Option<seq<Byte>> {
    var schema :- EncodeText(s.schema);
    var cluster :- EncodeText(s.clusterId);
    var generation :- EncodeInt(s.generation, 8);
    var issued :- EncodeInt(s.issuedAtMs, 8);
    var expires :- EncodeInt(s.expiresAtMs, 8);
    var trusted :- EncodeList(EncodeCredential, s.trusted);
    var services :- EncodeList(EncodeText, s.revokedServices);
    var credentials :- EncodeList(EncodeRevocation, s.revokedCredentials);
    var gateways :- EncodeList(EncodeText, s.gateways);
    var authSchema :- EncodeText(s.authentication.schema);
    var algorithm :- EncodeText(s.authentication.algorithm);
    var keyId :- EncodeText(s.authentication.keyId);
    Some(PolicyDomain + schema + cluster + generation + issued + expires + trusted + services
         + credentials + gateways + authSchema + algorithm + keyId)
  }

  function CanonicalReceipt(r: Receipt): Option<seq<Byte>> {
    var schema :- EncodeText(r.schema);
    var cluster :- EncodeText(r.clusterId);
    var generation :- EncodeInt(r.generation, 8);
    var rootKey :- EncodeText(r.rootKeyId);
    var signature :- EncodeText(r.snapshotSignature);
    var service :- EncodeText(r.receiverServiceId);
    var credential :- EncodeText(r.receiverCredentialId);
    var applied :- EncodeInt(r.appliedAtMs, 8);
    var authSchema :- EncodeText(r.authentication.schema);
    var algorithm :- EncodeText(r.authentication.algorithm);
    Some(ReceiptDomain + schema + cluster + generation + rootKey + signature + service + credential
         + applied + authSchema + algorithm)
  }

  // ----- decoders: a value and the bytes after it

  type Reader<+T> = seq<Byte> -> Option<(T, seq<Byte>)>

  function ReadInt(width: nat, b: seq<Byte>): Option<(int, seq<Byte>)> {
    if |b| < width then None else Some((FromBig(b[..width]), b[width..]))
  }

  function ReadText(b: seq<Byte>): Option<(Text, seq<Byte>)> {
    var (length, rest) :- ReadInt(4, b);
    if |rest| < length then None
    else
      var text :- Decode(rest[..length]);
      Some((text, rest[length..]))
  }

  function ReadCredential(b: seq<Byte>): Option<(Credential, seq<Byte>)> {
    var (service, b1) :- ReadText(b);
    var (credential, b2) :- ReadText(b1);
    var (key, b3) :- ReadText(b2);
    Some((Credential(service, credential, key), b3))
  }

  function ReadRevocation(b: seq<Byte>): Option<(Revocation, seq<Byte>)> {
    var (service, b1) :- ReadText(b);
    var (credential, b2) :- ReadText(b1);
    Some((Revocation(service, credential), b2))
  }

  function ReadItems<T>(read: Reader<T>, n: nat, b: seq<Byte>): Option<(seq<T>, seq<Byte>)> {
    if n == 0 then Some(([], b))
    else
      var (front, b1) :- ReadItems(read, n - 1, b);
      var (last, b2) :- read(b1);
      Some((front + [last], b2))
  }

  function ReadList<T>(read: Reader<T>, b: seq<Byte>): Option<(seq<T>, seq<Byte>)> {
    var (count, rest) :- ReadInt(4, b);
    if count < 0 then None else ReadItems(read, count, rest)
  }

  /** Everything that is signed: all fields but the signature. */
  function UnsignedSnapshot(s: Snapshot): Snapshot {
    s.(authentication := s.authentication.(signature := []))
  }

  function UnsignedReceipt(r: Receipt): Receipt {
    r.(authentication := r.authentication.(signature := []))
  }

  function ReadSnapshot(b: seq<Byte>): Option<(Snapshot, seq<Byte>)> {
    if |b| < |PolicyDomain| || b[..|PolicyDomain|] != PolicyDomain then None
    else
      var (schema, b1) :- ReadText(b[|PolicyDomain|..]);
      var (cluster, b2) :- ReadText(b1);
      var (generation, b3) :- ReadInt(8, b2);
      var (issued, b4) :- ReadInt(8, b3);
      var (expires, b5) :- ReadInt(8, b4);
      var (trusted, b6) :- ReadList(ReadCredential, b5);
      var (services, b7) :- ReadList(ReadText, b6);
      var (credentials, b8) :- ReadList(ReadRevocation, b7);
      var (gateways, b9) :- ReadList(ReadText, b8);
      var (authSchema, b10) :- ReadText(b9);
      var (algorithm, b11) :- ReadText(b10);
      var (keyId, b12) :- ReadText(b11);
      Some((Snapshot(schema, cluster, generation, issued, expires, trusted, services, credentials, gateways,
                     Authentication(authSchema, algorithm, keyId, [])), b12))
  }

  function ReadReceipt(b: seq<Byte>): Option<(Receipt, seq<Byte>)> {
    if |b| < |ReceiptDomain| || b[..|ReceiptDomain|] != ReceiptDomain then None
    else
      var (schema, b1) :- ReadText(b[|ReceiptDomain|..]);
      var (cluster, b2) :- ReadText(b1);
      var (generation, b3) :- ReadInt(8, b2);
      var (rootKey, b4) :- ReadText(b3);
      var (signature, b5) :- ReadText(b4);
      var (service, b6) :- ReadText(b5);
      var (credential, b7) :- ReadText(b6);
      var (applied, b8) :- ReadInt(8, b7);
      var (authSchema, b9) :- ReadText(b8);
      var (algorithm, b10) :- ReadText(b9);
      Some((Receipt(schema, cluster, generation, rootKey, signature, service, credential, applied,
                    ReceiptAuthentication(authSchema, algorithm, [])), b10))
  }

  // ----- every encoder is inverted by its reader, whatever bytes follow

  /** read undoes an encoding e of v in front of any other bytes. */
  ghost predicate Inverts<T(!new)>(encode: T -> Option<seq<Byte>>, read: Reader<T>) {
    forall v, rest :: encode(v).Some? ==> read(encode(v).value + rest) == Some((v, rest))
  }

  lemma {:induction false} IntInverse(value: int, width: nat, rest: seq<Byte>)
    requires EncodeInt(value, width).Some?
    ensures ReadInt(width, EncodeInt(value, width).value + rest) == Some((value, rest))
  {
    var e := ToBig(value, width);
    BigRoundTrip(value, width);
    assert (e + rest)[..width] == e && (e + rest)[width..] == rest;
  }

  lemma {:induction false} TextInverse(t: Text, rest: seq<Byte>)
    requires EncodeText(t).Some?
    ensures ReadText(EncodeText(t).value + rest) == Some((t, rest))
  {
    var encoded := Encode(t).value;
    var length := EncodeInt(|encoded|, 4).value;
    IntInverse(|encoded|, 4, encoded + rest);
    assert (length + encoded) + rest == length + (encoded + rest);
    assert (encoded + rest)[..|encoded|] == encoded && (encoded + rest)[|encoded|..] == rest;
    RoundTrip(t);
  }

  lemma {:induction false} TextInverts()
    ensures Inverts(EncodeText, ReadText)
  {
    forall t, rest | EncodeText(t).Some? {
      TextInverse(t, rest);
    }
  }

  lemma {:induction false} CredentialInverts()
    ensures Inverts(EncodeCredential, ReadCredential)
  {
    forall c, rest | EncodeCredential(c).Some?
      ensures ReadCredential(EncodeCredential(c).value + rest) == Some((c, rest))
    {
      var e1, e2, e3 := EncodeText(c.serviceId).value, EncodeText(c.credentialId).value, EncodeText(c.publicKey).value;
      assert (e1 + e2 + e3) + rest == e1 + (e2 + (e3 + rest));
      TextInverse(c.serviceId, e2 + (e3 + rest));
      TextInverse(c.credentialId, e3 + rest);
      TextInverse(c.publicKey, rest);
    }
  }

  lemma {:induction false} RevocationInverts()
    ensures Inverts(EncodeRevocation, ReadRevocation)
  {
    forall r, rest | EncodeRevocation(r).Some?
      ensures ReadRevocation(EncodeRevocation(r).value + rest) == Some((r, rest))
    {
      var e1, e2 := EncodeText(r.serviceId).value, EncodeText(r.credentialId).value;
      assert (e1 + e2) + rest == e1 + (e2 + rest);
      TextInverse(r.serviceId, e2 + rest);
      TextInverse(r.credentialId, rest);
    }
  }

  lemma {:induction false} ItemsInverse<T(!new)>(
      encode: T -> Option<seq<Byte>>, read: Reader<T>, items: seq<T>, rest: seq<Byte>)
    requires Inverts(encode, read) && EncodeItems(encode, items).Some?
    ensures ReadItems(read, |items|, EncodeItems(encode, items).value + rest) == Some((items, rest))
  {
    if |items| == 0 {
      assert [] + rest == rest;
    } else {
      var k := |items| - 1;
      var front, last := EncodeItems(encode, items[..k]).value, encode(items[k]).value;
      assert (front + last) + rest == front + (last + rest);
      ItemsInverse(encode, read, items[..k], last + rest);
      assert items[..k] + [items[k]] == items;
    }
  }

  lemma {:induction false} ListInverse<T(!new)>(
      encode: T -> Option<seq<Byte>>, read: Reader<T>, items: seq<T>, rest: seq<Byte>)
    requires Inverts(encode, read) && EncodeList(encode, items).Some?
    ensures ReadList(read, EncodeList(encode, items).value + rest) == Some((items, rest))
  {
    var count, body := EncodeInt(|items|, 4).value, EncodeItems(encode, items).value;
    assert (count + body) + rest == count + (body + rest);
    IntInverse(|items|, 4, body + rest);
    ItemsInverse(encode, read, items, rest);
  }

  lemma {:induction false} Regroup(a: seq<Byte>, b: seq<Byte>, rest: seq<Byte>)
    ensures (a + b) + rest == a + (b + rest)
  {
  }

  lemma {:induction false} RegroupTwo(a: seq<Byte>, b: seq<Byte>, c: seq<Byte>, rest: seq<Byte>)
    ensures (a + b + c) + rest == a + (b + (c + rest))
  {
    Regroup(a + b, c, rest);
    Regroup(a, b, c + rest);
  }

  lemma {:induction false} RegroupFour(
    a: seq<Byte>, b: seq<Byte>, c: seq<Byte>, d: seq<Byte>, e: seq<Byte>, rest: seq<Byte>)
    ensures (a + b + c + d + e) + rest == a + (b + (c + (d + (e + rest))))
  {
    RegroupTwo(a + b + c, d, e, rest);
    RegroupTwo(a, b, c, d + (e + rest));
  }

  /** The decoder recovers every field but the signature, and stops at its end. */
  lemma {:induction false} SnapshotInverse(s: Snapshot, rest: seq<Byte>)
    requires CanonicalSnapshot(s).Some?
    ensures ReadSnapshot(CanonicalSnapshot(s).value + rest) == Some((UnsignedSnapshot(s), rest))
  {
    var e1, e2 := EncodeText(s.schema).value, EncodeText(s.clusterId).value;
    var e3, e4, e5 := EncodeInt(s.generation, 8).value, EncodeInt(s.issuedAtMs, 8).value,
      EncodeInt(s.expiresAtMs, 8).value;
    var e6, e7 := EncodeList(EncodeCredential, s.trusted).value, EncodeList(EncodeText, s.revokedServices).value;
    var e8, e9 := EncodeList(EncodeRevocation, s.revokedCredentials).value, EncodeList(EncodeText, s.gateways).value;
    var e10, e11, e12 := EncodeText(s.authentication.schema).value,
      EncodeText(s.authentication.algorithm).value, EncodeText(s.authentication.keyId).value;
    var t12 := e12 + rest;
    var t11 := e11 + t12;
    var t10 := e10 + t11;
    var t9 := e9 + t10;
    var t8 := e8 + t9;
    var t7 := e7 + t8;
    var t6 := e6 + t7;
    var t5 := e5 + t6;
    var t4 := e4 + t5;
    var t3 := e3 + t4;
    var t2 := e2 + t3;
    var t1 := e1 + t2;
    RegroupFour(PolicyDomain + e1 + e2 + e3 + e4 + e5 + e6 + e7 + e8, e9, e10, e11, e12, rest);
    RegroupFour(PolicyDomain + e1 + e2 + e3 + e4, e5, e6, e7, e8, t9);
    RegroupFour(PolicyDomain, e1, e2, e3, e4, t5);
    assert (PolicyDomain + t1)[..|PolicyDomain|] == PolicyDomain && (PolicyDomain + t1)[|PolicyDomain|..] == t1;
    TextInverts();
    CredentialInverts();
    RevocationInverts();
    TextInverse(s.schema, t2);
    TextInverse(s.clusterId, t3);
    IntInverse(s.generation, 8, t4);
    IntInverse(s.issuedAtMs, 8, t5);
    IntInverse(s.expiresAtMs, 8, t6);
    ListInverse(EncodeCredential, ReadCredential, s.trusted, t7);
    ListInverse(EncodeText, ReadText, s.revokedServices, t8);
    ListInverse(EncodeRevocation, ReadRevocation, s.revokedCredentials, t9);
    ListInverse(EncodeText, ReadText, s.gateways, t10);
    TextInverse(s.authentication.schema, t11);
    TextInverse(s.authentication.algorithm, t12);
    TextInverse(s.authentication.keyId, rest);
  }

  lemma {:induction false} ReceiptInverse(r: Receipt, rest: seq<Byte>)
    requires CanonicalReceipt(r).Some?
    ensures ReadReceipt(CanonicalReceipt(r).value + rest) == Some((UnsignedReceipt(r), rest))
  {
    var e1, e2, e3 := EncodeText(r.schema).value, EncodeText(r.clusterId).value, EncodeInt(r.generation, 8).value;
    var e4, e5 := EncodeText(r.rootKeyId).value, EncodeText(r.snapshotSignature).value;
    var e6, e7 := EncodeText(r.receiverServiceId).value, EncodeText(r.receiverCredentialId).value;
    var e8 := EncodeInt(r.appliedAtMs, 8).value;
    var e9, e10 := EncodeText(r.authentication.schema).value, EncodeText(r.authentication.algorithm).value;
    var t10 := e10 + rest;
    var t9 := e9 + t10;
    var t8 := e8 + t9;
    var t7 := e7 + t8;
    var t6 := e6 + t7;
    var t5 := e5 + t6;
    var t4 := e4 + t5;
    var t3 := e3 + t4;
    var t2 := e2 + t3;
    var t1 := e1 + t2;
    RegroupTwo(ReceiptDomain + e1 + e2 + e3 + e4 + e5 + e6 + e7 + e8, e9, e10, rest);
    RegroupFour(ReceiptDomain + e1 + e2 + e3 + e4, e5, e6, e7, e8, t9);
    RegroupFour(ReceiptDomain, e1, e2, e3, e4, t5);
    assert (ReceiptDomain + t1)[..|ReceiptDomain|] == ReceiptDomain && (ReceiptDomain + t1)[|ReceiptDomain|..] == t1;
    TextInverse(r.schema, t2);
    TextInverse(r.clusterId, t3);
    IntInverse(r.generation, 8, t4);
    TextInverse(r.rootKeyId, t5);
    TextInverse(r.snapshotSignature, t6);
    TextInverse(r.receiverServiceId, t7);
    TextInverse(r.receiverCredentialId, t8);
    IntInverse(r.appliedAtMs, 8, t9);
    TextInverse(r.authentication.schema, t10);
    TextInverse(r.authentication.algorithm, rest);
  }

  // ----- what a signature over these bytes binds

  /** No policy encoding is a prefix of the encoding of a policy with other signed fields. */
  lemma {:induction false} SnapshotPrefixFree(s: Snapshot, t: Snapshot)
    requires CanonicalSnapshot(s).Some? && CanonicalSnapshot(t).Some?
    requires CanonicalSnapshot(s).value <= CanonicalSnapshot(t).value
    ensures UnsignedSnapshot(s) == UnsignedSnapshot(t) && CanonicalSnapshot(s) == CanonicalSnapshot(t)
  {
    var b, e := CanonicalSnapshot(s).value, CanonicalSnapshot(t).value;
    SnapshotInverse(s, e[|b|..]);
    assert b + e[|b|..] == e;
    SnapshotInverse(t, []);
    assert e + [] == e;
  }

  lemma {:induction false} ReceiptPrefixFree(r: Receipt, t: Receipt)
    requires CanonicalReceipt(r).Some? && CanonicalReceipt(t).Some?
    requires CanonicalReceipt(r).value <= CanonicalReceipt(t).value
    ensures UnsignedReceipt(r) == UnsignedReceipt(t) && CanonicalReceipt(r) == CanonicalReceipt(t)
  {
    var b, e := CanonicalReceipt(r).value, CanonicalReceipt(t).value;
    ReceiptInverse(r, e[|b|..]);
    assert b + e[|b|..] == e;
    ReceiptInverse(t, []);
    assert e + [] == e;
  }

  /** Equal policy bytes mean equal signed fields, and conversely. */
  lemma {:induction false} SnapshotInjective(s: Snapshot, t: Snapshot)
    requires CanonicalSnapshot(s).Some?
    ensures CanonicalSnapshot(s) == CanonicalSnapshot(t) <==> UnsignedSnapshot(s) == UnsignedSnapshot(t)
  {
    if CanonicalSnapshot(s) == CanonicalSnapshot(t) {
      SnapshotPrefixFree(s, t);
    }
    if UnsignedSnapshot(s) == UnsignedSnapshot(t) {
      assert CanonicalSnapshot(s) == CanonicalSnapshot(UnsignedSnapshot(s));
      assert CanonicalSnapshot(t) == CanonicalSnapshot(UnsignedSnapshot(t));
    }
  }

  lemma {:induction false} ReceiptInjective(r: Receipt, t: Receipt)
    requires CanonicalReceipt(r).Some?
    ensures CanonicalReceipt(r) == CanonicalReceipt(t) <==> UnsignedReceipt(r) == UnsignedReceipt(t)
  {
    if CanonicalReceipt(r) == CanonicalReceipt(t) {
      ReceiptPrefixFree(r, t);
    }
    if UnsignedReceipt(r) == UnsignedReceipt(t) {
      assert CanonicalReceipt(r) == CanonicalReceipt(UnsignedReceipt(r));
      assert CanonicalReceipt(t) == CanonicalReceipt(UnsignedReceipt(t));
    }
  }

  lemma {:induction false} SnapshotDomain(s: Snapshot)
    requires CanonicalSnapshot(s).Some?
    ensures PolicyDomain <= CanonicalSnapshot(s).value
  {
    var b := CanonicalSnapshot(s).value;
    SnapshotInverse(s, []);
    assert b + [] == b;
  }

  lemma {:induction false} ReceiptDomainFirst(r: Receipt)
    requires CanonicalReceipt(r).Some?
    ensures ReceiptDomain <= CanonicalReceipt(r).value
  {
    var b := CanonicalReceipt(r).value;
    ReceiptInverse(r, []);
    assert b + [] == b;
  }

  lemma {:induction false} DomainMarks(b: seq<Byte>, e: seq<Byte>)
    requires PolicyDomain <= b && ReceiptDomain <= e
    ensures !(b <= e) && !(e <= b)
  {
    assert b[23] == PolicyDomain[23] == 112;
    assert e[23] == ReceiptDomain[23] == 114;
  }

  /** A policy encoding and a receipt encoding are never prefixes of one another. */
  lemma {:induction false} DomainsSeparate(s: Snapshot, r: Receipt)
    requires CanonicalSnapshot(s).Some? && CanonicalReceipt(r).Some?
    ensures !(CanonicalSnapshot(s).value <= CanonicalReceipt(r).value)
    ensures !(CanonicalReceipt(r).value <= CanonicalSnapshot(s).value)
  {
    SnapshotDomain(s);
    ReceiptDomainFirst(r);
    DomainMarks(CanonicalSnapshot(s).value, CanonicalReceipt(r).value);
  }

  // ----- when encoding raises

  predicate Fits(t: Text) {
    Encode(t).Some? && |Encode(t).value| < 0x1_0000_0000
  }

  predicate Unsigned64(n: int) {
    0 <= n < 0x1_0000_0000_0000_0000
  }

  predicate SnapshotFits(s: Snapshot) {
    && Fits(s.schema) && Fits(s.clusterId)
    && Unsigned64(s.generation) && Unsigned64(s.issuedAtMs) && Unsigned64(s.expiresAtMs)
    && |s.trusted| < 0x1_0000_0000
    && (forall c | c in s.trusted :: Fits(c.serviceId) && Fits(c.credentialId) && Fits(c.publicKey))
    && |s.revokedServices| < 0x1_0000_0000
    && (forall t | t in s.revokedServices :: Fits(t))
    && |s.revokedCredentials| < 0x1_0000_0000
    && (forall c | c in s.revokedCredentials :: Fits(c.serviceId) && Fits(c.credentialId))
    && |s.gateways| < 0x1_0000_0000
    && (forall t | t in s.gateways :: Fits(t))
    && Fits(s.authentication.schema) && Fits(s.authentication.algorithm) && Fits(s.authentication.keyId)
  }

  lemma {:induction false} TextDefined(t: Text)
    ensures EncodeText(t).Some? <==> Fits(t)
  {
    Pow256Values();
  }

  lemma {:induction false} IntDefined(n: int)
    ensures EncodeInt(n, 8).Some? <==> Unsigned64(n)
  {
    Pow256Values();
  }

  lemma {:induction false} ItemsDefined<T(!new)>(encode: T -> Option<seq<Byte>>, items: seq<T>)
    ensures EncodeItems(encode, items).Some? <==> forall v | v in items :: encode(v).Some?
  {
    if |items| == 0 {
    } else {
      var k := |items| - 1;
      ItemsDefined(encode, items[..k]);
      assert items == items[..k] + [items[k]];
    }
  }

  lemma {:induction false} ListDefined<T(!new)>(encode: T -> Option<seq<Byte>>, items: seq<T>)
    ensures EncodeList(encode, items).Some?
            <==> |items| < 0x1_0000_0000 && forall v | v in items :: encode(v).Some?
  {
    Pow256Values();
    ItemsDefined(encode, items);
  }

  lemma {:induction false} CredentialDefined(c: Credential)
    ensures EncodeCredential(c).Some? <==> Fits(c.serviceId) && Fits(c.credentialId) && Fits(c.publicKey)
  {
    TextDefined(c.serviceId);
    TextDefined(c.credentialId);
    TextDefined(c.publicKey);
  }

  lemma {:induction false} RevocationDefined(r: Revocation)
    ensures EncodeRevocation(r).Some? <==> Fits(r.serviceId) && Fits(r.credentialId)
  {
    TextDefined(r.serviceId);
    TextDefined(r.credentialId);
  }

  lemma {:induction false} ListsDefined(s: Snapshot)
    ensures EncodeList(EncodeCredential, s.trusted).Some? <==>
            |s.trusted| < 0x1_0000_0000
            && forall c | c in s.trusted :: Fits(c.serviceId) && Fits(c.credentialId) && Fits(c.publicKey)
    ensures EncodeList(EncodeText, s.revokedServices).Some? <==>
            |s.revokedServices| < 0x1_0000_0000 && forall t | t in s.revokedServices :: Fits(t)
    ensures EncodeList(EncodeRevocation, s.revokedCredentials).Some? <==>
            |s.revokedCredentials| < 0x1_0000_0000
            && forall c | c in s.revokedCredentials :: Fits(c.serviceId) && Fits(c.credentialId)
    ensures EncodeList(EncodeText, s.gateways).Some? <==>
            |s.gateways| < 0x1_0000_0000 && forall t | t in s.gateways :: Fits(t)
  {
    ListDefined(EncodeCredential, s.trusted);
    ListDefined(EncodeText, s.revokedServices);
    ListDefined(EncodeRevocation, s.revokedCredentials);
    ListDefined(EncodeText, s.gateways);
    forall c: Credential {
      CredentialDefined(c);
    }
    forall c: Revocation {
      RevocationDefined(c);
    }
    forall t: Text {
      TextDefined(t);
    }
  }

  /** canonical_snapshot raises exactly when some field is too long, out of range or
      holds a lone surrogate. */
  lemma {:induction false} SnapshotDefined(s: Snapshot)
    ensures CanonicalSnapshot(s).Some? <==> SnapshotFits(s)
  {
    TextDefined(s.schema);
    TextDefined(s.clusterId);
    IntDefined(s.generation);
    IntDefined(s.issuedAtMs);
    IntDefined(s.expiresAtMs);
    ListsDefined(s);
    TextDefined(s.authentication.schema);
    TextDefined(s.authentication.algorithm);
    TextDefined(s.authentication.keyId);
  }

  predicate ReceiptFits(r: Receipt) {
    && Fits(r.schema) && Fits(r.clusterId) && Unsigned64(r.generation)
    && Fits(r.rootKeyId) && Fits(r.snapshotSignature)
    && Fits(r.receiverServiceId) && Fits(r.receiverCredentialId) && Unsigned64(r.appliedAtMs)
    && Fits(r.authentication.schema) && Fits(r.authentication.algorithm)
  }

  /** Likewise for canonical_receipt. */
  lemma {:induction false} ReceiptDefined(r: Receipt)
    ensures CanonicalReceipt(r).Some? <==> ReceiptFits(r)
  {
    TextDefined(r.schema);
    TextDefined(r.clusterId);
    IntDefined(r.generation);
    TextDefined(r.rootKeyId);
    TextDefined(r.snapshotSignature);
    TextDefined(r.receiverServiceId);
    TextDefined(r.receiverCredentialId);
    IntDefined(r.appliedAtMs);
    TextDefined(r.authentication.schema);
    TextDefined(r.authentication.algorithm);
  }
}

/** canonical_snapshot and canonical_receipt as the checkers run them: a byte array
    that grows in place. An append returns false where the original raises. */
module SigningBuffer {
  import opened Outcome
  import opened Bytes
  import opened Utf8
  import opened CanonicalBytes

  class ByteArray {
    var data: seq<Byte>

    constructor (initial: seq<Byte>)
      ensures data == initial
    {
      data := initial;
    }

    /** output.extend(value.to_bytes(width, "big")) */
    method ExtendInt(value: int, width: nat) returns (ok: bool)
      modifies this
      ensures ok == EncodeInt(value, width).Some?
      ensures data == if ok then old(data) + EncodeInt(value, width).value else old(data)
    {
      var encoded := EncodeInt(value, width);
      ok := encoded.Some?;
      if ok {
        data := data + encoded.value;
      }
    }

    method AppendString(value: Text) returns (ok: bool)
      modifies this
      ensures ok == EncodeText(value).Some?
      ensures data == if ok then old(data) + EncodeText(value).value else old(data)
    {
      var encoded := Encode(value);
      ok := encoded.Some?;
      if ok {
        ok := ExtendInt(|encoded.value|, 4);
        if ok {
          data := data + encoded.value;
          Regroup(old(data), EncodeInt(|encoded.value|, 4).value, encoded.value);
        }
      }
    }

    method AppendCredential(c: Credential) returns (ok: bool)
      modifies this
      ensures ok == EncodeCredential(c).Some?
      ensures ok ==> data == old(data) + EncodeCredential(c).value
    {
      ok := AppendString(c.serviceId);
      if ok {
        ok := AppendString(c.credentialId);
      }
      if ok {
        ok := AppendString(c.publicKey);
      }
      if ok {
        var e1, e2, e3 := EncodeText(c.serviceId).value, EncodeText(c.credentialId).value,
          EncodeText(c.publicKey).value;
        Regroup(old(data), e1, e2);
        Regroup(old(data), e1 + e2, e3);
      }
    }

    method AppendRevocation(r: Revocation) returns (ok: bool)
      modifies this
      ensures ok == EncodeRevocation(r).Some?
      ensures ok ==> data == old(data) + EncodeRevocation(r).value
    {
      ok := AppendString(r.serviceId);
      if ok {
        ok := AppendString(r.credentialId);
      }
      if ok {
        Regroup(old(data), EncodeText(r.serviceId).value, EncodeText(r.credentialId).value);
      }
    }

    method AppendCredentialsItems(items: seq<Credential>) returns (ok: bool)
      modifies this
      ensures ok == EncodeItems(EncodeCredential, items).Some?
      ensures ok ==> data == old(data) + EncodeItems(EncodeCredential, items).value
    {
      for i := 0 to |items|
        invariant EncodeItems(EncodeCredential, items[..i]).Some?
        invariant data == old(data) + EncodeItems(EncodeCredential, items[..i]).value
      {
        ok := AppendCredential(items[i]);
        ItemsStep(EncodeCredential, items, i);
        if !ok {
          return;
        }
        Regroup(old(data), EncodeItems(EncodeCredential, items[..i]).value, EncodeCredential(items[i]).value);
      }
      ok := true;
      assert items[..|items|] == items;
    }

    method AppendCredentials(items: seq<Credential>) returns (ok: bool)
      modifies this
      ensures ok == EncodeList(EncodeCredential, items).Some?
      ensures ok ==> data == old(data) + EncodeList(EncodeCredential, items).value
    {
      ok := ExtendInt(|items|, 4);
      if ok {
        ok := AppendCredentialsItems(items);
        if ok {
          Regroup(old(data), EncodeInt(|items|, 4).value, EncodeItems(EncodeCredential, items).value);
        }
      }
    }

    method AppendStringsItems(items: seq<Text>) returns (ok: bool)
      modifies this
      ensures ok == EncodeItems(EncodeText, items).Some?
      ensures ok ==> data == old(data) + EncodeItems(EncodeText, items).value
    {
      for i := 0 to |items|
        invariant EncodeItems(EncodeText, items[..i]).Some?
        invariant data == old(data) + EncodeItems(EncodeText, items[..i]).value
      {
        ok := AppendString(items[i]);
        ItemsStep(EncodeText, items, i);
        if !ok {
          return;
        }
        Regroup(old(data), EncodeItems(EncodeText, items[..i]).value, EncodeText(items[i]).value);
      }
      ok := true;
      assert items[..|items|] == items;
    }

    method AppendStrings(items: seq<Text>) returns (ok: bool)
      modifies this
      ensures ok == EncodeList(EncodeText, items).Some?
      ensures ok ==> data == old(data) + EncodeList(EncodeText, items).value
    {
      ok := ExtendInt(|items|, 4);
      if ok {
        ok := AppendStringsItems(items);
        if ok {
          Regroup(old(data), EncodeInt(|items|, 4).value, EncodeItems(EncodeText, items).value);
        }
      }
    }

    method AppendRevocationsItems(items: seq<Revocation>) returns (ok: bool)
      modifies this
      ensures ok == EncodeItems(EncodeRevocation, items).Some?
      ensures ok ==> data == old(data) + EncodeItems(EncodeRevocation, items).value
    {
      for i := 0 to |items|
        invariant EncodeItems(EncodeRevocation, items[..i]).Some?
        invariant data == old(data) + EncodeItems(EncodeRevocation, items[..i]).value
      {
        ok := AppendRevocation(items[i]);
        ItemsStep(EncodeRevocation, items, i);
        if !ok {
          return;
        }
        Regroup(old(data), EncodeItems(EncodeRevocation, items[..i]).value, EncodeRevocation(items[i]).value);
      }
      ok := true;
      assert items[..|items|] == items;
    }

    method AppendRevocations(items: seq<Revocation>) returns (ok: bool)
      modifies this
      ensures ok == EncodeList(EncodeRevocation, items).Some?
      ensures ok ==> data == old(data) + EncodeList(EncodeRevocation, items).value
    {
      ok := ExtendInt(|items|, 4);
      if ok {
        ok := AppendRevocationsItems(items);
        if ok {
          Regroup(old(data), EncodeInt(|items|, 4).value, EncodeItems(EncodeRevocation, items).value);
        }
      }
    }
  }

  lemma {:induction false} ItemsPrefix<T>(encode: T -> Option<seq<Byte>>, items: seq<T>, i: nat)
    requires i <= |items| && EncodeItems(encode, items).Some?
    ensures EncodeItems(encode, items[..i]).Some?
    decreases |items|
  {
    if i == |items| {
      assert items[..i] == items;
    } else {
      var front := items[..|items| - 1];
      ItemsPrefix(encode, front, i);
      assert front[..i] == items[..i];
    }
  }

  lemma {:induction false} ItemsStep<T>(encode: T -> Option<seq<Byte>>, items: seq<T>, i: nat)
    requires i < |items| && EncodeItems(encode, items[..i]).Some?
    ensures encode(items[i]).Some? ==>
              EncodeItems(encode, items[..i + 1])
              == Some(EncodeItems(encode, items[..i]).value + encode(items[i]).value)
    ensures encode(items[i]).None? ==> EncodeItems(encode, items).None?
  {
    assert items[..i + 1][..i] == items[..i];
    if EncodeItems(encode, items).Some? {
      ItemsPrefix(encode, items, i + 1);
    }
  }

  method SnapshotBytes(s: Snapshot) returns (r: Option<seq<Byte>>)
    ensures r == CanonicalSnapshot(s)
  {
    r := None;
    var output := new ByteArray(PolicyDomain);
    var ok := output.AppendString(s.schema);
    if !ok { return; }
    ok := output.AppendString(s.clusterId);
    if !ok { return; }
    ok := output.ExtendInt(s.generation, 8);
    if !ok { return; }
    ok := output.ExtendInt(s.issuedAtMs, 8);
    if !ok { return; }
    ok := output.ExtendInt(s.expiresAtMs, 8);
    if !ok { return; }
    ok := output.AppendCredentials(s.trusted);
    if !ok { return; }
    ok := output.AppendStrings(s.revokedServices);
    if !ok { return; }
    ok := output.AppendRevocations(s.revokedCredentials);
    if !ok { return; }
    ok := output.AppendStrings(s.gateways);
    if !ok { return; }
    ok := output.AppendString(s.authentication.schema);
    if !ok { return; }
    ok := output.AppendString(s.authentication.algorithm);
    if !ok { return; }
    ok := output.AppendString(s.authentication.keyId);
    if !ok { return; }
    r := Some(output.data);
  }

  method ReceiptBytes(receipt: Receipt) returns (r: Option<seq<Byte>>)
    ensures r == CanonicalReceipt(receipt)
  {
    r := None;
    var output := new ByteArray(ReceiptDomain);
    var ok := output.AppendString(receipt.schema);
    if !ok { return; }
    ok := output.AppendString(receipt.clusterId);
    if !ok { return; }
    ok := output.ExtendInt(receipt.generation, 8);
    if !ok { return; }
    ok := output.AppendString(receipt.rootKeyId);
    if !ok { return; }
    ok := output.AppendString(receipt.snapshotSignature);
    if !ok { return; }
    ok := output.AppendString(receipt.receiverServiceId);
    if !ok { return; }
    ok := output.AppendString(receipt.receiverCredentialId);
    if !ok { return; }
    ok := output.ExtendInt(receipt.appliedAtMs, 8);
    if !ok { return; }
    ok := output.AppendString(receipt.authentication.schema);
    if !ok { return; }
    ok := output.AppendString(receipt.authentication.algorithm);
    if !ok { return; }
    r := Some(output.data);
  }
}

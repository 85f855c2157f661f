/** UTF-8 encoding of Python strings. */
module Utf8 {
  import opened Bytes
  import opened Outcome

  type CodePoint = n: int | 0 <= n < 0x110000
  type Text = seq<CodePoint>

  /** str.encode() raises on a lone surrogate. */
  predicate Surrogate(n: CodePoint) {
    0xD800 <= n < 0xE000
  }

  function EncodeChar(n: CodePoint): (b: seq<Byte>)
    ensures 1 <= |b| <= 4
  {
    if n < 0x80 then [n]
    else if n < 0x800 then [0xC0 + n / 64, 0x80 + n % 64]
    else if n < 0x10000 then [0xE0 + n / 4096, 0x80 + n / 64 % 64, 0x80 + n % 64]
    else [0xF0 + n / 262144, 0x80 + n / 4096 % 64, 0x80 + n / 64 % 64, 0x80 + n % 64]
  }

  function Encode(s: Text): Option<seq<Byte>> {
    if |s| == 0 then Some([])
    else if Surrogate(s[0]) then None
    else
      var rest :- Encode(s[1..]);
      Some(EncodeChar(s[0]) + rest)
  }

  predicate Encodable(s: Text) {
    forall i | 0 <= i < |s| :: !Surrogate(s[i])
  }

  lemma {:induction false} EncodeDefined(s: Text)
    ensures Encode(s).Some? <==> Encodable(s)
  {
    if |s| == 0 {
    } else {
      EncodeDefined(s[1..]);
      assert Encodable(s) <==> !Surrogate(s[0]) && Encodable(s[1..]) by {
        assert forall i | 0 < i < |s| :: s[i] == s[1..][i - 1];
      }
    }
  }

  /** The number of bytes announced by a leading byte. */
  function Width(b: Byte): nat {
    if b < 0xC0 then 1 else if b < 0xE0 then 2 else if b < 0xF0 then 3 else 4
  }

  function Payload(b: seq<Byte>): int
    requires 1 <= |b| <= 4
  {
    var lead: int := b[0];
    if |b| == 1 then lead
    else if |b| == 2 then (lead - 0xC0) * 64 + Continuation(b[1])
    else if |b| == 3 then (lead - 0xE0) * 4096 + Continuation(b[1]) * 64 + Continuation(b[2])
    else (lead - 0xF0) * 262144 + Continuation(b[1]) * 4096 + Continuation(b[2]) * 64 + Continuation(b[3])
  }

  function Continuation(b: int): int { b - 0x80 }

  function Decode(b: seq<Byte>): Option<Text> {
    if |b| == 0 then Some([])
    else
      var k := Width(b[0]);
      if |b| < k then None
      else
        var n := Payload(b[..k]);
        if !(0 <= n < 0x110000) then None
        else
          var rest :- Decode(b[k..]);
          Some([n] + rest)
  }

  lemma {:induction false} CharRoundTrip(n: CodePoint)
    ensures Width(EncodeChar(n)[0]) == |EncodeChar(n)| && Payload(EncodeChar(n)) == n
  {
    var m := n / 64;
    var l := m / 64;
    assert n / 4096 == l && n / 262144 == l / 64;
  }

  /** Decoding gives back every string that can be encoded. */
  lemma {:induction false} RoundTrip(s: Text)
    requires Encode(s).Some?
    ensures Decode(Encode(s).value) == Some(s)
  {
    if |s| == 0 {
    } else {
      RoundTrip(s[1..]);
      var c, rest := EncodeChar(s[0]), Encode(s[1..]).value;
      CharRoundTrip(s[0]);
      assert (c + rest)[..|c|] == c && (c + rest)[|c|..] == rest;
      assert [s[0]] + s[1..] == s;
    }
  }
}

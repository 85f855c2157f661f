/** Fixed-width integers as byte strings, little and big endian. */
module Bytes {
  import opened Ring

  type Byte = n: int | 0 <= n < 256

  function Pow256(n: nat): nat {
    if n == 0 then 1 else 256 * Pow256(n - 1)
  }

  lemma {:induction false} Pow256Add(m: nat, n: nat)
    ensures Pow256(m + n) == Pow256(m) * Pow256(n)
  {
    if m == 0 {
    } else {
      Pow256Add(m - 1, n);
      Reassociate(256, Pow256(m - 1), Pow256(n));
    }
  }

  lemma {:induction false} Pow256Values()
    ensures Pow256(4) == 0x1_0000_0000
    ensures Pow256(8) == 0x1_0000_0000_0000_0000
    ensures Pow256(16) == 0x1_0000_0000_0000_0000_0000_0000_0000_0000
    ensures Pow256(32) == 0x1_0000_0000_0000_0000_0000_0000_0000_0000_0000_0000_0000_0000_0000_0000_0000_0000
  {
    assert Pow256(2) == 256 * Pow256(1);
    Pow256Add(2, 2);
    Pow256Add(4, 4);
    Pow256Add(8, 8);
    Pow256Add(16, 16);
  }

  /** int.from_bytes(b, "little") */
  function FromLittle(b: seq<Byte>): nat {
    if |b| == 0 then 0 else b[0] + 256 * FromLittle(b[1..])
  }

  /** value.to_bytes(n, "little") for a value that fits */
  function ToLittle(value: nat, n: nat): seq<Byte> {
    if n == 0 then [] else [value % 256] + ToLittle(value / 256, n - 1)
  }

  lemma {:induction false} FromLittleBound(b: seq<Byte>)
    ensures FromLittle(b) < Pow256(|b|)
  {
    if |b| == 0 {
    } else {
      FromLittleBound(b[1..]);
    }
  }

  lemma {:induction false} LittleRoundTrip(value: nat, n: nat)
    requires value < Pow256(n)
    ensures |ToLittle(value, n)| == n && FromLittle(ToLittle(value, n)) == value
  {
    if n == 0 {
    } else {
      LittleRoundTrip(value / 256, n - 1);
      assert ToLittle(value, n)[1..] == ToLittle(value / 256, n - 1);
    }
  }

  lemma {:induction false} LittleReencode(b: seq<Byte>)
    ensures ToLittle(FromLittle(b), |b|) == b
  {
    if |b| == 0 {
    } else {
      LittleReencode(b[1..]);
      assert FromLittle(b) % 256 == b[0] && FromLittle(b) / 256 == FromLittle(b[1..]);
    }
  }

  /** value.to_bytes(n, "big") for a value that fits */
  function ToBig(value: nat, n: nat): (b: seq<Byte>)
    ensures |b| == n
  {
    if n == 0 then [] else ToBig(value / 256, n - 1) + [value % 256]
  }

  /** int.from_bytes(b, "big") */
  function FromBig(b: seq<Byte>): nat {
    if |b| == 0 then 0 else 256 * FromBig(b[..|b| - 1]) + b[|b| - 1]
  }

  lemma {:induction false} BigRoundTrip(value: nat, n: nat)
    requires value < Pow256(n)
    ensures FromBig(ToBig(value, n)) == value
  {
    if n == 0 {
    } else {
      BigRoundTrip(value / 256, n - 1);
      assert ToBig(value, n)[..n - 1] == ToBig(value / 256, n - 1);
    }
  }
}

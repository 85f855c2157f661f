/** Divisibility and congruence of integers, stated with an explicit quotient so
    that proofs stay inside the ring of integers. */
module Congruence {

  function Mul(a: int, b: int): int { a * b }

  ghost predicate Dvd(q: int, n: int) {
    exists k :: Mul(k, q) == n
  }

  ghost predicate Cong(q: int, a: int, b: int) {
    Dvd(q, a - b)
  }

  lemma Quotient(q: int, n: int) returns (k: int)
    requires Dvd(q, n)
    ensures n == k * q
  {
    k :| Mul(k, q) == n;
  }

  lemma DvdIntro(q: int, k: int, n: int)
    requires n == k * q
    ensures Dvd(q, n)
  {
    assert Mul(k, q) == n;
  }

  lemma DvdSum(q: int, a: int, b: int)
    requires Dvd(q, a) && Dvd(q, b)
    ensures Dvd(q, a + b) && Dvd(q, a - b)
  {
    var j := Quotient(q, a);
    var k := Quotient(q, b);
    DvdIntro(q, j + k, a + b);
    DvdIntro(q, j - k, a - b);
  }

  lemma DvdScale(q: int, a: int, c: int)
    requires Dvd(q, a)
    ensures Dvd(q, c * a) && Dvd(q, a * c)
  {
    var k := Quotient(q, a);
    assert c * a == (c * k) * q;
    DvdIntro(q, c * k, c * a);
  }

  /** A combination of multiples of q is a multiple of q. */
  lemma DvdCombine(q: int, n1: int, c1: int, n2: int, c2: int, n3: int, c3: int)
    requires Dvd(q, n1) && Dvd(q, n2) && Dvd(q, n3)
    ensures Dvd(q, c1 * n1 + c2 * n2 + c3 * n3)
  {
    DvdScale(q, n1, c1);
    DvdScale(q, n2, c2);
    DvdScale(q, n3, c3);
    DvdSum(q, c1 * n1, c2 * n2);
    DvdSum(q, c1 * n1 + c2 * n2, c3 * n3);
  }

  lemma CongRefl(q: int, a: int)
    ensures Cong(q, a, a)
  {
    DvdIntro(q, 0, a - a);
  }

  lemma CongSym(q: int, a: int, b: int)
    requires Cong(q, a, b)
    ensures Cong(q, b, a)
  {
    DvdScale(q, a - b, -1);
  }

  lemma CongTrans(q: int, a: int, b: int, c: int)
    requires Cong(q, a, b) && Cong(q, b, c)
    ensures Cong(q, a, c)
  {
    DvdSum(q, a - b, b - c);
  }

  /** Two values congruent to a third one. */
  lemma CongJoin(q: int, a: int, b: int, c: int)
    requires Cong(q, a, c) && Cong(q, b, c)
    ensures Cong(q, a, b)
  {
    CongSym(q, b, c);
    CongTrans(q, a, c, b);
  }

  lemma CongAdd(q: int, a: int, a': int, b: int, b': int)
    requires Cong(q, a, a') && Cong(q, b, b')
    ensures Cong(q, a + b, a' + b') && Cong(q, a - b, a' - b')
  {
    DvdSum(q, a - a', b - b');
    assert (a - a') + (b - b') == (a + b) - (a' + b');
    assert (a - a') - (b - b') == (a - b) - (a' - b');
  }

  lemma CongMul(q: int, a: int, a': int, b: int, b': int)
    requires Cong(q, a, a') && Cong(q, b, b')
    ensures Cong(q, a * b, a' * b')
  {
    DvdScale(q, a - a', b);
    DvdScale(q, b - b', a');
    DvdSum(q, (a - a') * b, (b - b') * a');
    assert (a - a') * b + (b - b') * a' == a * b - a' * b';
  }

  lemma CongScale(q: int, a: int, b: int, c: int)
    requires Cong(q, a, b)
    ensures Cong(q, c * a, c * b) && Cong(q, a * c, b * c)
  {
    CongRefl(q, c);
    CongMul(q, c, c, a, b);
  }

  /** The remainder operator picks the representative in [0, q). */
  lemma ModCong(q: int, a: int)
    requires q > 0
    ensures Cong(q, a % q, a) && 0 <= a % q < q
  {
    DvdIntro(q, -(a / q), a % q - a);
  }

  lemma SmallMultiple(q: int, k: int)
    requires q > 0 && -q < k * q < q
    ensures k == 0
  {
  }

  lemma Residue(q: int, a: int, b: int)
    requires q > 0 && 0 <= a < q && 0 <= b < q && Cong(q, a, b)
    ensures a == b
  {
    var k := Quotient(q, a - b);
    SmallMultiple(q, k);
  }

  lemma CongIffMod(q: int, a: int, b: int)
    requires q > 0
    ensures Cong(q, a, b) <==> a % q == b % q
  {
    ModCong(q, a);
    ModCong(q, b);
    if Cong(q, a, b) {
      CongTrans(q, a % q, a, b);
      CongJoin(q, a % q, b % q, b);
      Residue(q, a % q, b % q);
    } else if a % q == b % q {
      CongSym(q, a % q, a);
      CongTrans(q, a, a % q, b);
    }
  }

  lemma DvdIffMod(q: int, n: int)
    requires q > 0
    ensures Dvd(q, n) <==> n % q == 0
  {
    CongIffMod(q, n, 0);
    ModCong(q, 0);
    CongIffMod(q, 0, 0);
    DvdIntro(q, 0, 0);
    assert 0 % q == 0 by {
      CongRefl(q, 0);
      Residue(q, 0 % q, 0);
    }
  }
}

/** Arithmetic modulo a prime: Euclid's lemma, Fermat's little theorem, inverses
    by exponentiation, and the square root of -1 that the verifier relies on. */
module PrimeField {
  import opened Ring
  import opened Congruence

  ghost predicate IsPrime(q: int) {
    q >= 2 && forall m :: 1 < m < q ==> !Dvd(m, q)
  }

  /** Euclid's lemma by descent on the first factor. */
  lemma {:induction false} EuclidDescent(q: int, a: int, b: int)
    requires IsPrime(q) && 0 < a < q && Dvd(q, a * b)
    ensures Dvd(q, b)
    decreases a
  {
    if a == 1 {
      assert a * b == b;
    } else {
      var k, r := q / a, q % a;
      assert q == k * a + r;
      if r == 0 {
        DvdIntro(a, k, q);
        assert false;
      }
      assert r * b == b * q - k * (a * b) by {
        assert (k * a + r) * b == q * b;
      }
      DvdIntro(q, b, b * q);
      DvdScale(q, a * b, k);
      DvdSum(q, b * q, k * (a * b));
      EuclidDescent(q, r, b);
    }
  }

  lemma {:induction false} Euclid(q: int, a: int, b: int)
    requires IsPrime(q) && Dvd(q, a * b)
    ensures Dvd(q, a) || Dvd(q, b)
  {
    var r := a % q;
    ModCong(q, a);
    DvdIffMod(q, a);
    if r != 0 {
      CongScale(q, r, a, b);
      DvdSum(q, a * b, r * b - a * b);
      EuclidDescent(q, r, b);
    }
  }

  lemma {:induction false} Cancel(q: int, c: int, a: int, b: int)
    requires IsPrime(q) && !Dvd(q, c) && Cong(q, c * a, c * b)
    ensures Cong(q, a, b)
  {
    assert c * a - c * b == c * (a - b);
    Euclid(q, c, a - b);
  }

  lemma {:induction false} NonzeroProduct(q: int, a: int, b: int)
    requires IsPrime(q) && !Dvd(q, a) && !Dvd(q, b)
    ensures !Dvd(q, a * b)
  {
    if Dvd(q, a * b) {
      Euclid(q, a, b);
    }
  }

  // ----- powers

  function Pow(b: int, e: nat): int {
    if e == 0 then 1 else b * Pow(b, e - 1)
  }

  /** Python's three-argument pow: pow(b, e, m). */
  function ModPow(b: int, e: nat, m: int): int
    requires m > 0
  {
    Pow(b, e) % m
  }

  lemma {:induction false} PowAdd(b: int, m: nat, n: nat)
    ensures Pow(b, m + n) == Pow(b, m) * Pow(b, n)
  {
    if m == 0 {
    } else {
      PowAdd(b, m - 1, n);
      Reassociate(b, Pow(b, m - 1), Pow(b, n));
    }
  }

  lemma {:induction false} PowOfProduct(a: int, b: int, e: nat)
    ensures Pow(a * b, e) == Pow(a, e) * Pow(b, e)
  {
    if e == 0 {
    } else {
      PowOfProduct(a, b, e - 1);
      Interchange(a, b, Pow(a, e - 1), Pow(b, e - 1));
    }
  }

  lemma {:induction false} PowCong(q: int, a: int, b: int, e: nat)
    requires Cong(q, a, b)
    ensures Cong(q, Pow(a, e), Pow(b, e))
  {
    if e == 0 {
      CongRefl(q, 1);
    } else {
      PowCong(q, a, b, e - 1);
      CongMul(q, a, b, Pow(a, e - 1), Pow(b, e - 1));
    }
  }

  // ----- Fermat's little theorem

  ghost function Pick<T>(s: set<T>): T
    requires s != {}
  {
    var i :| i in s;
    i
  }

  ghost function Product(s: set<int>): int {
    if s == {} then 1 else Pick(s) * Product(s - {Pick(s)})
  }

  lemma {:induction false} ProductRemove(s: set<int>, y: int)
    requires y in s
    ensures Product(s) == y * Product(s - {y})
    decreases |s|
  {
    var x := Pick(s);
    if x == y {
    } else {
      ProductRemove(s - {x}, y);
      ProductRemove(s - {y}, x);
      assert s - {x} - {y} == s - {y} - {x};
      Swap(x, y, Product(s - {x} - {y}));
    }
  }

  lemma {:induction false} ProductInsert(s: set<int>, y: int)
    requires y !in s
    ensures Product(s + {y}) == y * Product(s)
  {
    ProductRemove(s + {y}, y);
    assert s + {y} - {y} == s;
  }

  /** {1, ..., q - 1} */
  ghost function Units(q: int): (s: set<int>)
    requires q >= 1
    ensures |s| == q - 1
    ensures forall i :: i in s <==> 1 <= i < q
    decreases q
  {
    if q == 1 then {} else Units(q - 1) + {q - 1}
  }

  ghost function Scale(q: int, a: int, i: int): int
    requires q > 0
  {
    (a * i) % q
  }

  ghost function Scaled(q: int, a: int, s: set<int>): set<int>
    requires q > 0
  {
    set i | i in s :: Scale(q, a, i)
  }

  lemma {:induction false} UnitNonzero(q: int, i: int)
    requires 1 <= i < q
    ensures !Dvd(q, i)
  {
    if Dvd(q, i) {
      DvdIntro(q, 0, 0);
      Residue(q, i, 0);
    }
  }

  lemma {:induction false} ScaleInjective(q: int, a: int, i: int, j: int)
    requires IsPrime(q) && !Dvd(q, a) && 1 <= i < q && 1 <= j < q
    requires Scale(q, a, i) == Scale(q, a, j)
    ensures i == j
  {
    CongIffMod(q, a * i, a * j);
    Cancel(q, a, i, j);
    Residue(q, i, j);
  }

  lemma {:induction false} ScaledSplit(q: int, a: int, s: set<int>, i: int)
    requires IsPrime(q) && !Dvd(q, a) && s <= Units(q) && i in s
    ensures Scale(q, a, i) !in Scaled(q, a, s - {i})
    ensures Scaled(q, a, s) == Scaled(q, a, s - {i}) + {Scale(q, a, i)}
  {
    forall j | j in s && Scale(q, a, j) == Scale(q, a, i) ensures j == i {
      ScaleInjective(q, a, i, j);
    }
  }

  lemma {:induction false} ScaledStep(q: int, y: int, a: int, i: int, image: int, p: int, w: int)
    requires Cong(q, y, a * i) && Cong(q, image, p * w)
    ensures Cong(q, y * image, (a * p) * (i * w))
  {
    CongMul(q, y, a * i, image, p * w);
    Interchange(a, i, p, w);
  }

  lemma {:induction false} ScaledProduct(q: int, a: int, s: set<int>)
    requires IsPrime(q) && !Dvd(q, a) && s <= Units(q)
    ensures |Scaled(q, a, s)| == |s|
    ensures Cong(q, Product(Scaled(q, a, s)), Pow(a, |s|) * Product(s))
    decreases |s|
  {
    if s == {} {
      CongRefl(q, 1);
    } else {
      var i := Pick(s);
      var rest := s - {i};
      var y, image := Scale(q, a, i), Scaled(q, a, rest);
      ScaledProduct(q, a, rest);
      ScaledSplit(q, a, s, i);
      ProductInsert(image, y);
      ModCong(q, a * i);
      ScaledStep(q, y, a, i, Product(image), Pow(a, |rest|), Product(rest));
    }
  }

  lemma {:induction false} ProductOfUnits(q: int, s: set<int>)
    requires IsPrime(q) && s <= Units(q)
    ensures !Dvd(q, Product(s))
    decreases |s|
  {
    if s == {} {
      UnitNonzero(q, 1);
    } else {
      ProductOfUnits(q, s - {Pick(s)});
      UnitNonzero(q, Pick(s));
      NonzeroProduct(q, Pick(s), Product(s - {Pick(s)}));
    }
  }

  lemma {:induction false} SubsetOfSameSize(a: set<int>, b: set<int>)
    requires a <= b && |a| == |b|
    ensures a == b
  {
    assert |b - a| == 0;
  }

  lemma {:induction false} ScaledUnits(q: int, a: int)
    requires IsPrime(q) && !Dvd(q, a)
    ensures Scaled(q, a, Units(q)) == Units(q)
  {
    forall i | i in Units(q) ensures Scale(q, a, i) in Units(q) {
      UnitNonzero(q, i);
      NonzeroProduct(q, a, i);
      DvdIffMod(q, a * i);
      ModCong(q, a * i);
    }
    ScaledProduct(q, a, Units(q));
    SubsetOfSameSize(Scaled(q, a, Units(q)), Units(q));
  }

  lemma {:induction false} CancelOne(q: int, w: int, p: int)
    requires IsPrime(q) && !Dvd(q, w) && Cong(q, w, p * w)
    ensures Cong(q, p, 1)
  {
    CongSym(q, w, p * w);
    assert Cong(q, w * p, w * 1);
    Cancel(q, w, p, 1);
  }

  lemma {:induction false} FixedProduct(q: int, a: int, s: set<int>)
    requires IsPrime(q) && !Dvd(q, a) && s <= Units(q) && Scaled(q, a, s) == s
    ensures Cong(q, Pow(a, |s|), 1)
  {
    ScaledProduct(q, a, s);
    ProductOfUnits(q, s);
    CancelOne(q, Product(s), Pow(a, |s|));
  }

  lemma {:induction false} SameExponent(q: int, a: int, m: nat, n: nat)
    requires m == n && Cong(q, Pow(a, m), 1)
    ensures Cong(q, Pow(a, n), 1)
  {
  }

  lemma {:induction false} FixedUnits(q: int, a: int)
    requires IsPrime(q) && !Dvd(q, a)
    ensures Cong(q, Pow(a, |Units(q)|), 1)
  {
    var s := Units(q);
    ScaledUnits(q, a);
    FixedProduct(q, a, s);
  }

  lemma {:induction false} Fermat(q: int, a: int)
    requires IsPrime(q) && !Dvd(q, a)
    ensures Cong(q, Pow(a, q - 1), 1)
  {
    FixedUnits(q, a);
    SameExponent(q, a, |Units(q)|, q - 1);
  }

  /** Inversion by exponentiation, as pow(v, Q - 2, Q) does it. */
  lemma {:induction false} Inverse(q: int, v: int)
    requires IsPrime(q) && !Dvd(q, v)
    ensures Cong(q, v * ModPow(v, q - 2, q), 1)
  {
    Fermat(q, v);
    ModCong(q, Pow(v, q - 2));
    CongScale(q, ModPow(v, q - 2, q), Pow(v, q - 2), v);
    CongTrans(q, v * ModPow(v, q - 2, q), Pow(v, q - 1), 1);
  }

  // ----- 2 is not a square modulo a prime q with q % 8 == 5

  function Factorial(n: nat): int { if n == 0 then 1 else n * Factorial(n - 1) }

  /** 1 * 3 * ... * (2n - 1) */
  function Odds(n: nat): int { if n == 0 then 1 else (2 * n - 1) * Odds(n - 1) }

  lemma {:induction false} FactorialSplit(n: nat)
    ensures Factorial(2 * n) == Pow(2, n) * Factorial(n) * Odds(n)
  {
    if n == 0 {
    } else {
      FactorialSplit(n - 1);
      var p, f, o := Pow(2, n - 1), Factorial(n - 1), Odds(n - 1);
      Reassociate(2 * n, 2 * n - 1, (p * f) * o);
      Interchange(2 * n, 2 * n - 1, p * f, o);
      Interchange(2, n, p, f);
    }
  }

  /** 2(m+1) * ... * 2(m+n), the upper even numbers. */
  function UpperEvens(m: nat, n: nat): int {
    if n == 0 then 1 else (2 * (m + n)) * UpperEvens(m, n - 1)
  }

  lemma {:induction false} UpperEvensFactorial(m: nat, n: nat)
    ensures Pow(2, m + n) * Factorial(m + n) == Pow(2, m) * Factorial(m) * UpperEvens(m, n)
  {
    if n == 0 {
    } else {
      UpperEvensFactorial(m, n - 1);
      Interchange(2, Pow(2, m + n - 1), m + n, Factorial(m + n - 1));
      Swap(2 * (m + n), Pow(2, m) * Factorial(m), UpperEvens(m, n - 1));
    }
  }

  /** 2(m+i) runs, from the top, through q - 1, q - 3, ... */
  function Mirror(q: int, n: nat): int {
    if n == 0 then 1 else (q - (2 * n - 1)) * Mirror(q, n - 1)
  }

  lemma {:induction false} MirrorTop(q: int, m: nat, n: nat, k: nat)
    requires q == 2 * (m + n) + 1 && k <= n
    ensures UpperEvens(m, n) == UpperEvens(m, n - k) * Mirror(q, k)
    decreases k
  {
    if k == 0 {
    } else {
      MirrorTop(q, m, n, k - 1);
      var f, u, w := q - (2 * k - 1), UpperEvens(m, n - k), Mirror(q, k - 1);
      assert UpperEvens(m, n - k + 1) == f * u;
      Reassociate(f, u, w);
      Swap(f, u, w);
    }
  }

  lemma {:induction false} MirrorCong(q: int, n: nat)
    ensures Cong(q, Mirror(q, n), Pow(-1, n) * Odds(n))
  {
    if n == 0 {
      CongRefl(q, 1);
    } else {
      MirrorCong(q, n - 1);
      DvdIntro(q, 1, (q - (2 * n - 1)) - -1 * (2 * n - 1));
      var p, o := Pow(-1, n - 1), Odds(n - 1);
      CongMul(q, q - (2 * n - 1), -1 * (2 * n - 1), Mirror(q, n - 1), p * o);
      Interchange(-1, 2 * n - 1, p, o);
    }
  }

  lemma {:induction false} PowMinusOne(n: nat)
    ensures Pow(-1, 2 * n) == 1 && Pow(-1, 2 * n + 1) == -1
  {
    if n == 0 {
    } else {
      PowMinusOne(n - 1);
      assert Pow(-1, 2 * n) == -1 * (-1 * Pow(-1, 2 * (n - 1)));
    }
  }

  lemma {:induction false} FactorialNonzero(q: int, n: nat)
    requires IsPrime(q) && n < q
    ensures !Dvd(q, Factorial(n))
  {
    if n == 0 {
      UnitNonzero(q, 1);
    } else {
      FactorialNonzero(q, n - 1);
      UnitNonzero(q, n);
      NonzeroProduct(q, n, Factorial(n - 1));
    }
  }

  /** 2^(2m) (2m)! is minus (2m)! modulo q = 4m + 1, for odd m. */
  lemma {:induction false} DoubledFactorial(q: int, m: nat)
    requires q == 4 * m + 1 && m % 2 == 1
    ensures Cong(q, Factorial(2 * m) * Pow(2, 2 * m), Factorial(2 * m) * -1)
  {
    UpperEvensFactorial(m, m);
    MirrorTop(q, m, m, m);
    MirrorCong(q, m);
    PowMinusOne(m / 2);
    FactorialSplit(m);
    MirrorCancel(q, Pow(2, m) * Factorial(m), Odds(m), Mirror(q, m), Factorial(2 * m), Pow(2, 2 * m));
  }

  /** The case q % 8 == 5 of the second supplement to quadratic reciprocity. */
  lemma {:induction false} TwoIsNotASquare(q: int, m: nat)
    requires IsPrime(q) && q == 4 * m + 1 && m % 2 == 1
    ensures Cong(q, Pow(2, 2 * m), -1)
  {
    DoubledFactorial(q, m);
    FactorialNonzero(q, 2 * m);
    Cancel(q, Factorial(2 * m), Pow(2, 2 * m), -1);
  }

  lemma {:induction false} MirrorCancel(q: int, g: int, o: int, mirror: int, f: int, p: int)
    requires Cong(q, mirror, -1 * o) && f == g * o && p * f == g * mirror
    ensures Cong(q, f * p, f * -1)
  {
    CongScale(q, mirror, -1 * o, g);
    Swap(g, -1, o);
  }

  lemma {:induction false} SquareOfQuarterPower(q: int, m: nat)
    requires IsPrime(q) && q == 4 * m + 1 && m % 2 == 1
    ensures Cong(q, ModPow(2, m, q) * ModPow(2, m, q), -1)
  {
    TwoIsNotASquare(q, m);
    PowAdd(2, m, m);
    SquareOfResidue(q, Pow(2, m));
    CongTrans(q, ModPow(2, m, q) * ModPow(2, m, q), Pow(2, m) * Pow(2, m), -1);
  }

  /** The constant I = pow(2, (Q - 1) // 4, Q) squares to -1. */
  lemma {:induction false} SquareRootOfMinusOne(q: int)
    requires IsPrime(q) && q % 8 == 5
    ensures Cong(q, ModPow(2, (q - 1) / 4, q) * ModPow(2, (q - 1) / 4, q), -1)
  {
    SquareOfQuarterPower(q, (q - 1) / 4);
  }

  lemma {:induction false} SquareOfResidue(q: int, a: int)
    requires q > 0
    ensures Cong(q, (a % q) * (a % q), a * a)
  {
    ModCong(q, a);
    CongMul(q, a % q, a, a % q, a);
  }
}

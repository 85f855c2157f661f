/** The double-and-add loop of scalarmult, and its meaning as repeated addition. */
module ScalarMultiplication {
  import opened Congruence
  import opened PrimeField
  import opened EdwardsCurve
  import opened EdwardsGroup

  /** The rest of the loop from a given state. */
  function DoubleAndAdd(c: Curve, scalar: nat, result: Point, addend: Point): Point {
    if scalar == 0 then result
    else DoubleAndAdd(
      c,
      scalar / 2,
      if scalar % 2 == 1 then Edwards(c, result, addend) else result,
      Edwards(c, addend, addend))
  }

  function ScalarMult(c: Curve, point: Point, scalar: nat): Point {
    DoubleAndAdd(c, scalar, Zero, point)
  }

  method ScalarMultLoop(c: Curve, point: Point, scalar: nat) returns (result: Point)
    ensures result == ScalarMult(c, point, scalar)
    ensures Lawful(c) && Valid(c, point) ==> result == Multiple(c, scalar, point)
  {
    result := Zero;
    var addend := point;
    var n := scalar;
    while n != 0
      invariant ScalarMult(c, point, scalar) == DoubleAndAdd(c, n, result, addend)
    {
      if n % 2 == 1 {
        result := Edwards(c, result, addend);
      }
      addend := Edwards(c, addend, addend);
      n := n / 2;
    }
    if Lawful(c) && Valid(c, point) {
      ScalarMultIsMultiple(c, point, scalar);
    }
  }

  /** n-fold addition. */
  function Multiple(c: Curve, n: nat, p: Point): Point {
    if n == 0 then Zero else Edwards(c, Multiple(c, n - 1, p), p)
  }

  lemma {:induction false} MultipleValid(c: Curve, n: nat, p: Point)
    requires Lawful(c) && Valid(c, p)
    ensures Valid(c, Multiple(c, n, p))
  {
    if n == 0 {
      ZeroValid(c);
    } else {
      MultipleValid(c, n - 1, p);
      Closure(c, Multiple(c, n - 1, p), p);
    }
  }

  lemma {:induction false} MultipleOfSum(c: Curve, m: nat, n: nat, p: Point)
    requires Lawful(c) && Valid(c, p)
    ensures Multiple(c, m + n, p) == Edwards(c, Multiple(c, m, p), Multiple(c, n, p))
  {
    MultipleValid(c, m, p);
    if n == 0 {
      Identity(c, Multiple(c, m, p));
    } else {
      MultipleOfSum(c, m, n - 1, p);
      MultipleValid(c, n - 1, p);
      Associative(c, Multiple(c, m, p), Multiple(c, n - 1, p), p);
    }
  }

  lemma {:induction false} MultipleOfProduct(c: Curve, m: nat, n: nat, p: Point)
    requires Lawful(c) && Valid(c, p)
    ensures Multiple(c, m, Multiple(c, n, p)) == Multiple(c, m * n, p)
  {
    if m == 0 {
      assert m * n == 0;
    } else {
      MultipleOfProduct(c, m - 1, n, p);
      MultipleOfSum(c, (m - 1) * n, n, p);
      assert (m - 1) * n + n == m * n;
    }
  }

  lemma {:induction false} MultipleOfPointSum(c: Curve, n: nat, p: Point, o: Point)
    requires Lawful(c) && Valid(c, p) && Valid(c, o)
    ensures Multiple(c, n, Edwards(c, p, o)) == Edwards(c, Multiple(c, n, p), Multiple(c, n, o))
  {
    ZeroValid(c);
    if n == 0 {
      Identity(c, Zero);
    } else {
      var a, b := Multiple(c, n - 1, p), Multiple(c, n - 1, o);
      MultipleOfPointSum(c, n - 1, p, o);
      MultipleValid(c, n - 1, p);
      MultipleValid(c, n - 1, o);
      Closure(c, p, o);
      Closure(c, b, o);
      FourSum(c, a, b, p, o);
    }
  }

  lemma {:induction false} FourSum(c: Curve, a: Point, b: Point, p: Point, o: Point)
    requires Lawful(c) && Valid(c, a) && Valid(c, b) && Valid(c, p) && Valid(c, o)
    ensures Edwards(c, Edwards(c, a, b), Edwards(c, p, o)) == Edwards(c, Edwards(c, a, p), Edwards(c, b, o))
  {
    Closure(c, p, o);
    Closure(c, b, o);
    Associative(c, a, b, Edwards(c, p, o));
    Associative(c, b, p, o);
    Commutative(c, b, p);
    Associative(c, p, b, o);
    Associative(c, a, p, Edwards(c, b, o));
  }

  lemma {:induction false} MultipleOfZero(c: Curve, n: nat)
    ensures Multiple(c, n, Zero) == Zero
  {
    if n == 0 {
    } else {
      MultipleOfZero(c, n - 1);
      Identity(c, Zero);
    }
  }

  lemma {:induction false} MultipleOfDouble(c: Curve, h: nat, p: Point)
    requires Lawful(c) && Valid(c, p)
    ensures Multiple(c, h, Edwards(c, p, p)) == Multiple(c, 2 * h, p)
    ensures Edwards(c, p, Multiple(c, 2 * h, p)) == Multiple(c, 2 * h + 1, p)
  {
    var even := Multiple(c, 2 * h, p);
    Identity(c, p);
    assert Multiple(c, 1, p) == p;
    assert Multiple(c, 2, p) == Edwards(c, p, p);
    MultipleOfProduct(c, h, 2, p);
    Commutative(c, p, even);
    assert Multiple(c, 2 * h + 1, p) == Edwards(c, even, p);
  }

  lemma {:induction false} DoubleAndAddMeaning(c: Curve, result: Point, addend: Point, n: nat)
    requires Lawful(c) && Valid(c, result) && Valid(c, addend)
    ensures DoubleAndAdd(c, n, result, addend) == Edwards(c, result, Multiple(c, n, addend))
    decreases n
  {
    if n == 0 {
      Identity(c, result);
    } else {
      var twice, h := Edwards(c, addend, addend), n / 2;
      Closure(c, addend, addend);
      MultipleOfDouble(c, h, addend);
      if n % 2 == 1 {
        Closure(c, result, addend);
        DoubleAndAddMeaning(c, Edwards(c, result, addend), twice, h);
        MultipleValid(c, 2 * h, addend);
        Associative(c, result, addend, Multiple(c, 2 * h, addend));
      } else {
        DoubleAndAddMeaning(c, result, twice, h);
      }
    }
  }

  /** Double-and-add computes the n-fold sum. */
  lemma {:induction false} ScalarMultIsMultiple(c: Curve, p: Point, n: nat)
    requires Lawful(c) && Valid(c, p)
    ensures ScalarMult(c, p, n) == Multiple(c, n, p) && Valid(c, ScalarMult(c, p, n))
  {
    ZeroValid(c);
    DoubleAndAddMeaning(c, Zero, p, n);
    MultipleValid(c, n, p);
    Identity(c, Multiple(c, n, p));
  }

  /** scalarmult(P, a + b) and scalarmult(P, a * b) decompose. */
  lemma {:induction false} ScalarMultHomomorphism(c: Curve, p: Point, a: nat, b: nat)
    requires Lawful(c) && Valid(c, p)
    ensures ScalarMult(c, p, a + b) == Edwards(c, ScalarMult(c, p, a), ScalarMult(c, p, b))
    ensures ScalarMult(c, p, a * b) == ScalarMult(c, ScalarMult(c, p, b), a)
  {
    ScalarMultIsMultiple(c, p, a);
    ScalarMultIsMultiple(c, p, b);
    ScalarMultIsMultiple(c, p, a + b);
    ScalarMultIsMultiple(c, p, a * b);
    ScalarMultIsMultiple(c, ScalarMult(c, p, b), a);
    MultipleOfSum(c, a, b, p);
    MultipleOfProduct(c, a, b, p);
  }

  /** scalarmult distributes over the addition of points. */
  lemma {:induction false} ScalarMultDistributes(c: Curve, p: Point, o: Point, n: nat)
    requires Lawful(c) && Valid(c, p) && Valid(c, o)
    ensures ScalarMult(c, Edwards(c, p, o), n) == Edwards(c, ScalarMult(c, p, n), ScalarMult(c, o, n))
  {
    Closure(c, p, o);
    ScalarMultIsMultiple(c, p, n);
    ScalarMultIsMultiple(c, o, n);
    ScalarMultIsMultiple(c, Edwards(c, p, o), n);
    MultipleOfPointSum(c, n, p, o);
  }

  /** The loop maps the identity to itself for every scalar and any constants. */
  lemma {:induction false} IdentityFixed(c: Curve, n: nat)
    ensures ScalarMult(c, Zero, n) == Zero
  {
    if n == 0 {
    } else {
      Identity(c, Zero);
      IdentityFixed(c, n / 2);
    }
  }

  // ----- orders

  ghost predicate HasOrder(c: Curve, p: Point, l: nat) {
    && l > 0
    && Multiple(c, l, p) == Zero
    && forall n :: 0 < n < l ==> Multiple(c, n, p) != Zero
  }

  lemma {:induction false} CancelPoint(c: Curve, p: Point, o: Point, r: Point)
    requires Lawful(c) && Valid(c, p) && Valid(c, o) && Valid(c, r)
    requires Edwards(c, p, o) == Edwards(c, p, r)
    ensures o == r
  {
    var m := Negate(c, p);
    Inverses(c, p);
    Commutative(c, p, m);
    Associative(c, m, p, o);
    Associative(c, m, p, r);
    Identity(c, o);
    Identity(c, r);
  }

  /** Multiples depend on the scalar only modulo the order. */
  lemma {:induction false} MultipleModulo(c: Curve, p: Point, l: nat, n: nat)
    requires Lawful(c) && Valid(c, p) && l > 0 && Multiple(c, l, p) == Zero
    ensures Multiple(c, n, p) == Multiple(c, n % l, p)
    decreases n
  {
    if n < l {
      ModCong(l, n);
      Residue(l, n % l, n);
    } else {
      MultipleAfterCycle(c, l, n - l, p);
      MultipleModulo(c, p, l, n - l);
      DvdIntro(l, -1, (n - l) - n);
      CongIffMod(l, n - l, n);
    }
  }

  lemma {:induction false} MultipleAfterCycle(c: Curve, m: nat, r: nat, p: Point)
    requires Lawful(c) && Valid(c, p) && Multiple(c, m, p) == Zero
    ensures Multiple(c, m + r, p) == Multiple(c, r, p)
  {
    MultipleOfSum(c, m, r, p);
    MultipleValid(c, r, p);
    Identity(c, Multiple(c, r, p));
  }

  /** Below the order, distinct scalars give distinct points. */
  lemma {:induction false} MultipleInjective(c: Curve, p: Point, l: nat, m: nat, n: nat)
    requires Lawful(c) && Valid(c, p) && HasOrder(c, p, l) && m < l && n < l
    requires Multiple(c, m, p) == Multiple(c, n, p)
    ensures m == n
  {
    if m != n {
      var lo, gap := if m < n then m else n, if m < n then n - m else m - n;
      MultipleOfSum(c, lo, gap, p);
      MultipleValid(c, lo, p);
      MultipleValid(c, gap, p);
      ZeroValid(c);
      Identity(c, Multiple(c, lo, p));
      CancelPoint(c, Multiple(c, lo, p), Multiple(c, gap, p), Zero);
      assert false;
    }
  }

  lemma {:induction false} MultiplesCommute(c: Curve, m: nat, n: nat, p: Point)
    requires Lawful(c) && Valid(c, p)
    ensures Multiple(c, m, Multiple(c, n, p)) == Multiple(c, n, Multiple(c, m, p))
  {
    MultipleOfProduct(c, m, n, p);
    MultipleOfProduct(c, n, m, p);
    assert m * n == n * m;
  }

  lemma {:induction false} SumModulo(c: Curve, p: Point, l: nat, m: nat, n: nat)
    requires Lawful(c) && Valid(c, p) && l > 0 && Multiple(c, l, p) == Zero
    ensures Edwards(c, Multiple(c, m, p), Multiple(c, n, p)) == Multiple(c, (m + n) % l, p)
  {
    MultipleOfSum(c, m, n, p);
    MultipleModulo(c, p, l, m + n);
  }

  /** n p + k (a p) is the multiple of p by (n + k a) mod l. */
  lemma {:induction false} CombinationModulo(c: Curve, p: Point, l: nat, n: nat, k: nat, a: nat)
    requires Lawful(c) && Valid(c, p) && l > 0 && Multiple(c, l, p) == Zero
    ensures Edwards(c, Multiple(c, n, p), Multiple(c, k, Multiple(c, a, p))) == Multiple(c, (n + k * a) % l, p)
  {
    MultipleOfProduct(c, k, a, p);
    SumModulo(c, p, l, n, k * a);
  }

  lemma {:induction false} MultipleZeroIff(c: Curve, p: Point, l: nat, n: nat)
    requires Lawful(c) && Valid(c, p) && HasOrder(c, p, l)
    ensures Multiple(c, n, p) == Zero <==> n % l == 0
  {
    MultipleModulo(c, p, l, n);
  }

  /** A number above one and below a prime leaves a remainder. */
  lemma {:induction false} PrimeRemainder(l: nat, n: nat)
    requires IsPrime(l) && 1 < n < l
    ensures 0 < l % n < n
  {
    DvdIffMod(n, l);
    ModCong(n, l);
  }

  /** No smaller multiple of a point of prime order vanishes: the remainder of l by n
      would be a still smaller one. */
  lemma {:induction false} NoSmallerOrder(c: Curve, p: Point, l: nat, n: nat)
    requires Lawful(c) && Valid(c, p) && p != Zero && IsPrime(l) && Multiple(c, l, p) == Zero && 0 < n < l
    ensures Multiple(c, n, p) != Zero
    decreases n
  {
    if n == 1 {
      Identity(c, p);
      assert Multiple(c, 1, p) == Edwards(c, Multiple(c, 0, p), p);
    } else if Multiple(c, n, p) == Zero {
      PrimeRemainder(l, n);
      MultipleModulo(c, p, n, l);
      NoSmallerOrder(c, p, l, l % n);
      assert false;
    }
  }

  /** A non-zero point killed by a prime has that prime as its order. */
  lemma {:induction false} PrimeOrder(c: Curve, p: Point, l: nat)
    requires Lawful(c) && Valid(c, p) && p != Zero && IsPrime(l) && Multiple(c, l, p) == Zero
    ensures HasOrder(c, p, l)
  {
    forall n | 0 < n < l ensures Multiple(c, n, p) != Zero {
      NoSmallerOrder(c, p, l, n);
    }
  }
}

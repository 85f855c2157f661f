/** Rearrangements of integer products and sums, used one at a time. */
module Ring {

  lemma Interchange(a: int, b: int, c: int, d: int)
    ensures (a * b) * (c * d) == (a * c) * (b * d)
  {
    assert (a * b) * (c * d) == a * (b * (c * d));
    assert b * (c * d) == c * (b * d);
  }

  lemma Swap(a: int, b: int, c: int)
    ensures a * (b * c) == b * (a * c)
  {
  }

  lemma Reassociate(a: int, b: int, c: int)
    ensures (a * b) * c == a * (b * c) && (a * b) * c == (b * c) * a && (a * b) * c == (c * b) * a
  {
  }

  lemma SignsCancel(u: int, v: int)
    ensures (-u) * (-v) == u * v && (-u) * v == -(u * v) && u * (-v) == -(u * v)
  {
  }

  lemma Distribute(c: int, a: int, b: int)
    ensures c * (a + b) == c * a + c * b && c * (a - b) == c * a - c * b
    ensures (a + b) * c == a * c + b * c && (a - b) * c == a * c - b * c
  {
  }

  lemma OneMinusSquare(t: int)
    ensures (1 + t) * (1 - t) == 1 - t * t
  {
  }
}

/** The nearest-rank percentile of a list of latencies. */
module Percentiles {
  import opened Sequences

  predicate Ascending(s: seq<real>) {
    forall i, j | 0 <= i <= j < |s| :: s[i] <= s[j]
  }

  function Insert(s: seq<real>, v: real): seq<real> {
    if |s| == 0 || s[|s| - 1] <= v then s + [v]
    else Insert(s[..|s| - 1], v) + [s[|s| - 1]]
  }

  /** sorted(values) */
  function Sort(s: seq<real>): seq<real> {
    if |s| == 0 then [] else Insert(Sort(s[..|s| - 1]), s[|s| - 1])
  }

  /** math.ceil */
  function Ceil(x: real): (n: int)
    ensures (n - 1) as real < x <= n as real
  {
    -((-x).Floor)
  }

  /** None in the source, an IndexError, or a number. */
  datatype Answer = Missing | IndexError | Value(v: real)

  /** max(0, math.ceil(rank) - 1) */
  function Index(rank: real): nat {
    if Ceil(rank) <= 0 then 0 else Ceil(rank) - 1
  }

  function ByRank(values: seq<real>, rank: real): Answer {
    if |values| == 0 then Missing
    else
      var ordered := Sort(values);
      if Index(rank) < |ordered| then Value(ordered[Index(rank)]) else IndexError
  }

  /** len(ordered) * quantile */
  function Share(n: nat, quantile: real): real {
    n as real * quantile
  }

  function Percentile(values: seq<real>, quantile: real): Answer {
    ByRank(values, Share(|values|, quantile))
  }

  // ----- the sort

  lemma {:induction false} InsertPermutes(s: seq<real>, v: real)
    ensures multiset(Insert(s, v)) == multiset(s) + multiset{v}
  {
    if |s| == 0 || s[|s| - 1] <= v {
    } else {
      InsertPermutes(s[..|s| - 1], v);
      SplitLast(s);
    }
  }

  lemma {:induction false} SortPermutes(s: seq<real>)
    ensures multiset(Sort(s)) == multiset(s)
    ensures |Sort(s)| == |s|
  {
    if |s| == 0 {
    } else {
      SortPermutes(s[..|s| - 1]);
      InsertPermutes(Sort(s[..|s| - 1]), s[|s| - 1]);
      SplitLast(s);
    }
    SameSize(Sort(s), s);
  }

  lemma {:induction false} InsertAscends(s: seq<real>, v: real)
    requires Ascending(s)
    ensures Ascending(Insert(s, v))
  {
    if |s| == 0 || s[|s| - 1] <= v {
    } else {
      var front, last := s[..|s| - 1], s[|s| - 1];
      InsertAscends(front, v);
      InsertPermutes(front, v);
      var r := Insert(front, v);
      forall i | 0 <= i < |r| ensures r[i] <= last {
        assert r[i] in multiset(r);
      }
      assert Insert(s, v) == r + [last];
    }
  }

  lemma {:induction false} SortAscends(s: seq<real>)
    ensures Ascending(Sort(s))
  {
    if |s| == 0 {
    } else {
      SortAscends(s[..|s| - 1]);
      InsertAscends(Sort(s[..|s| - 1]), s[|s| - 1]);
    }
  }

  // ----- counting values up to a threshold

  /** How many values are at most v. */
  function AtMost(values: seq<real>, v: real): nat {
    |Filter(x => x <= v, values)|
  }

  /** How many values are below v. */
  function Below(values: seq<real>, v: real): nat {
    |Filter(x => x < v, values)|
  }

  lemma {:induction false} AtLeastPrefix(keep: real -> bool, s: seq<real>, m: nat)
    requires m <= |s| && forall i | 0 <= i < m :: keep(s[i])
    ensures |Filter(keep, s)| >= m
  {
    if |s| == 0 {
    } else {
      AtLeastPrefix(keep, s[..|s| - 1], if m == |s| then m - 1 else m);
    }
  }

  lemma {:induction false} AtMostPrefix(keep: real -> bool, s: seq<real>, m: nat)
    requires m <= |s| && forall i | m <= i < |s| :: !keep(s[i])
    ensures |Filter(keep, s)| <= m
  {
    if |s| == 0 {
    } else {
      AtMostPrefix(keep, s[..|s| - 1], if m == |s| then m - 1 else m);
    }
  }

  lemma {:induction false} FilterWeaker(p: real -> bool, q: real -> bool, s: seq<real>)
    requires forall x :: p(x) ==> q(x)
    ensures |Filter(p, s)| <= |Filter(q, s)|
  {
    if |s| == 0 {
    } else {
      FilterWeaker(p, q, s[..|s| - 1]);
    }
  }

  lemma {:induction false} CountsInOrder(values: seq<real>, v: real, w: real)
    requires v < w
    ensures AtMost(values, v) <= Below(values, w)
  {
    FilterWeaker(x => x <= v, x => x < w, values);
  }

  /** The counts around the element at an index of the sorted list. */
  lemma {:induction false} CountsAt(values: seq<real>, i: nat)
    requires i < |values|
    ensures |Sort(values)| == |values|
    ensures Sort(values)[i] in values
    ensures AtMost(values, Sort(values)[i]) >= i + 1
    ensures Below(values, Sort(values)[i]) <= i
  {
    var s := Sort(values);
    SortPermutes(values);
    SortAscends(values);
    var v := s[i];
    assert v in multiset(s);
    AtLeastPrefix(x => x <= v, s, i + 1);
    AtMostPrefix(x => x < v, s, i);
    FilterPermutation(x => x <= v, s, values);
    FilterPermutation(x => x < v, s, values);
    SameSize(Filter(x => x <= v, s), Filter(x => x <= v, values));
    SameSize(Filter(x => x < v, s), Filter(x => x < v, values));
  }

  // ----- the element of a given rank

  /** v is a member with at least rank values up to it and fewer than rank below it. */
  predicate AtRank(values: seq<real>, rank: real, v: real) {
    v in values && AtMost(values, v) as real >= rank > Below(values, v) as real
  }

  lemma {:induction false} AtRankUnique(values: seq<real>, rank: real, v: real, w: real)
    requires AtRank(values, rank, v) && AtRank(values, rank, w)
    ensures v == w
  {
    if v < w {
      CountsInOrder(values, v, w);
    } else if w < v {
      CountsInOrder(values, w, v);
    }
  }

  lemma {:induction false} IndexMeaning(n: nat, rank: real)
    requires 0.0 < rank <= n as real
    ensures Index(rank) < n
    ensures Index(rank) as real < rank <= (Index(rank) + 1) as real
  {
  }

  lemma {:induction false} RankMeaning(values: seq<real>, rank: real)
    requires 0.0 < rank <= |values| as real
    ensures ByRank(values, rank).Value?
    ensures AtRank(values, rank, ByRank(values, rank).v)
  {
    IndexMeaning(|values|, rank);
    CountsAt(values, Index(rank));
  }

  lemma {:induction false} RankMonotone(values: seq<real>, rank: real, higher: real)
    requires 0.0 < rank <= higher <= |values| as real
    ensures ByRank(values, rank).Value? && ByRank(values, higher).Value?
    ensures ByRank(values, rank).v <= ByRank(values, higher).v
  {
    RankMeaning(values, rank);
    RankMeaning(values, higher);
    var v, w := ByRank(values, rank).v, ByRank(values, higher).v;
    if w < v {
      CountsInOrder(values, w, v);
    }
  }

  lemma {:induction false} SameCounts(a: seq<real>, b: seq<real>, v: real)
    requires multiset(a) == multiset(b)
    ensures AtMost(a, v) == AtMost(b, v) && Below(a, v) == Below(b, v)
  {
    FilterPermutation(x => x <= v, a, b);
    FilterPermutation(x => x < v, a, b);
    SameSize(Filter(x => x <= v, a), Filter(x => x <= v, b));
    SameSize(Filter(x => x < v, a), Filter(x => x < v, b));
  }

  lemma {:induction false} SortUnique(a: seq<real>, b: seq<real>)
    requires multiset(a) == multiset(b)
    ensures Sort(a) == Sort(b)
  {
    SortPermutes(a);
    SortPermutes(b);
    SameSize(a, b);
    forall i | 0 <= i < |a| ensures Sort(a)[i] == Sort(b)[i] {
      var v, w := Sort(a)[i], Sort(b)[i];
      CountsAt(a, i);
      CountsAt(b, i);
      SameCounts(a, b, v);
      SameCounts(a, b, w);
      if v < w {
        CountsInOrder(a, v, w);
      } else if w < v {
        CountsInOrder(a, w, v);
      }
    }
  }

  lemma {:induction false} MinimumFirst(values: seq<real>, x: real)
    requires x in values
    ensures |Sort(values)| == |values| && Sort(values)[0] <= x
  {
    SortPermutes(values);
    SortAscends(values);
    assert x in multiset(Sort(values));
  }

  lemma {:induction false} RankEdges(values: seq<real>, rank: real)
    requires values != []
    ensures ByRank(values, rank) == IndexError <==> rank > |values| as real
    ensures ByRank(values, rank) != Missing
    ensures rank <= 0.0 ==>
      && ByRank(values, rank).Value?
      && ByRank(values, rank).v in values
      && forall x | x in values :: ByRank(values, rank).v <= x
  {
    SortPermutes(values);
    if rank <= 0.0 {
      assert Ceil(rank) <= 0;
      CountsAt(values, 0);
      forall x | x in values ensures ByRank(values, rank).v <= x {
        MinimumFirst(values, x);
      }
    } else if rank <= |values| as real {
      IndexMeaning(|values|, rank);
    }
  }

  lemma {:induction false} SameRank(a: seq<real>, b: seq<real>, rank: real, rank': real)
    requires multiset(a) == multiset(b) && rank == rank'
    ensures ByRank(a, rank) == ByRank(b, rank')
  {
    SameSize(a, b);
    SortUnique(a, b);
  }

  // ----- the percentile

  lemma {:induction false} Scaled(n: nat, p: real, q: real)
    requires p <= q
    ensures Share(n, p) <= Share(n, q)
  {
    assert n as real * q - n as real * p == n as real * (q - p);
  }

  /** How n * q lies in 0 .. n. */
  lemma {:induction false} ScaledRange(n: nat, q: real)
    requires n > 0
    ensures q <= 0.0 ==> Share(n, q) <= 0.0
    ensures 0.0 < q <= 1.0 ==> 0.0 < Share(n, q) <= n as real
    ensures q > 1.0 ==> Share(n, q) > n as real
  {
    if q > 1.0 {
      assert n as real * q - n as real == n as real * (q - 1.0);
    } else {
      Scaled(n, q, 1.0);
    }
  }

  /** For 0 < q <= 1 the percentile of a non-empty list is the one member with at least
      n * q values up to it and fewer than n * q below it. */
  lemma {:induction false} PercentileMeaning(values: seq<real>, quantile: real, v: real)
    requires |values| > 0 && 0.0 < quantile <= 1.0
    ensures Percentile(values, quantile) == Value(v) <==> AtRank(values, Share(|values|, quantile), v)
  {
    var rank := Share(|values|, quantile);
    ScaledRange(|values|, quantile);
    RankMeaning(values, rank);
    if AtRank(values, rank, v) {
      AtRankUnique(values, rank, v, ByRank(values, rank).v);
    }
  }

  /** An empty list has no percentile, a quantile above one runs off the list, and one at
      or below zero gives the minimum. */
  lemma {:induction false} PercentileEdges(values: seq<real>, quantile: real)
    ensures Percentile(values, quantile) == Missing <==> values == []
    ensures Percentile(values, quantile) == IndexError <==> values != [] && quantile > 1.0
    ensures values != [] && quantile <= 0.0 ==>
      && Percentile(values, quantile).Value?
      && Percentile(values, quantile).v in values
      && forall x | x in values :: Percentile(values, quantile).v <= x
  {
    if values != [] {
      ScaledRange(|values|, quantile);
      RankEdges(values, Share(|values|, quantile));
    }
  }

  /** The order of the list does not matter. */
  lemma {:induction false} PercentileOrderFree(a: seq<real>, b: seq<real>, quantile: real)
    requires multiset(a) == multiset(b)
    ensures Percentile(a, quantile) == Percentile(b, quantile)
  {
    SameSize(a, b);
    SameRank(a, b, Share(|a|, quantile), Share(|b|, quantile));
  }

  lemma {:induction false} PercentileWithin(values: seq<real>, q: real)
    requires values != [] && q <= 1.0
    ensures Percentile(values, q).Value? && Percentile(values, q).v in values
  {
    ScaledRange(|values|, q);
    if q <= 0.0 {
      PercentileEdges(values, q);
    } else {
      RankMeaning(values, Share(|values|, q));
    }
  }

  /** A larger quantile never gives a smaller value. */
  lemma {:induction false} PercentileMonotone(values: seq<real>, p: real, q: real)
    requires values != [] && p <= q <= 1.0
    ensures Percentile(values, p).Value? && Percentile(values, q).Value?
    ensures Percentile(values, p).v <= Percentile(values, q).v
  {
    PercentileWithin(values, p);
    PercentileWithin(values, q);
    if p <= 0.0 {
      PercentileEdges(values, p);
    } else {
      ScaledRange(|values|, p);
      ScaledRange(|values|, q);
      Scaled(|values|, p, q);
      RankMonotone(values, Share(|values|, p), Share(|values|, q));
    }
  }
}

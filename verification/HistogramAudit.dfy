/** audit_histograms: grouping of bucket samples, sorting by boundary and the
    cumulative algebra of every group. */
module HistogramAudit {
  import opened Outcome
  import opened Sequences
  import opened Metrics

  /** A boundary as float() reads it. */
  datatype Boundary = NegInf | Finite(r: real) | PosInf | NotANumber

  /** float(), with NotANumber also for a raised ValueError. */
  type Parse = string -> Boundary

  /** The only facts used about float(): it reads the 14 known spellings. */
  ghost predicate ReadsBuckets(parse: Parse) {
    forall k | 0 <= k < |BucketBounds| :: parse(BucketLabels[k]) == Finite(BucketBounds[k])
  }

  /** The comparison x < y of floats. */
  predicate Less(x: Boundary, y: Boundary) {
    match (x, y)
    case (NegInf, Finite(_)) => true
    case (NegInf, PosInf) => true
    case (Finite(a), Finite(b)) => a < b
    case (Finite(_), PosInf) => true
    case _ => false
  }

  datatype Entry = Entry(bound: Boundary, value: real, encoded: string)

  function BoundaryOf(parse: Parse, le: string): Boundary {
    if le == "+Inf" then PosInf else parse(le)
  }

  function EntryOf(parse: Parse, s: Sample): Entry {
    var le := if "le" in s.labels then s.labels["le"] else "";
    Entry(BoundaryOf(parse, le), s.value, le)
  }

  function Decoded(parse: Parse, group: seq<Sample>): seq<Entry> {
    Map(s => EntryOf(parse, s), group)
  }

  // ----- decoded.sort(key=...): a stable sort that only compares with <

  function Insert(s: seq<Entry>, e: Entry): seq<Entry> {
    if |s| == 0 || !Less(e.bound, s[|s| - 1].bound) then s + [e]
    else Insert(s[..|s| - 1], e) + [s[|s| - 1]]
  }

  function Sort(s: seq<Entry>): seq<Entry> {
    if |s| == 0 then [] else Insert(Sort(s[..|s| - 1]), s[|s| - 1])
  }

  function Bounds(s: seq<Entry>): seq<Boundary> { Map((e: Entry) => e.bound, s) }
  function Encodings(s: seq<Entry>): seq<string> { Map((e: Entry) => e.encoded, s) }
  function Values(s: seq<Entry>): seq<real> { Map((e: Entry) => e.value, s) }

  predicate Monotone(v: seq<real>) {
    forall i | 0 <= i < |v| - 1 :: v[i] <= v[i + 1]
  }

  /** The conjunction `valid` for one label set. */
  predicate GroupValid(parse: Parse, group: seq<Sample>, count: Option<real>, total: Option<real>) {
    var decoded := Sort(Decoded(parse, group));
    && |decoded| == |BucketBounds| + 1
    && Bounds(decoded[..|BucketBounds|]) == Map((r: real) => Finite(r), BucketBounds)
    && Encodings(decoded) == BucketLabels
    && decoded[|BucketBounds|].bound in {NegInf, PosInf}
    && Monotone(Values(decoded))
    && count.Some?
    && Values(decoded)[|BucketBounds|] == count.value
    && total.Some?
    && total.value >= 0.0
  }

  // ----- what the sort does

  lemma {:induction false} InsertPermutes(s: seq<Entry>, e: Entry)
    ensures multiset(Insert(s, e)) == multiset(s) + multiset{e}
  {
    if |s| == 0 || !Less(e.bound, s[|s| - 1].bound) {
    } else {
      InsertPermutes(s[..|s| - 1], e);
      SplitLast(s);
    }
  }

  lemma {:induction false} SortPermutes(s: seq<Entry>)
    ensures multiset(Sort(s)) == multiset(s)
  {
    if |s| == 0 {
    } else {
      SortPermutes(s[..|s| - 1]);
      InsertPermutes(Sort(s[..|s| - 1]), s[|s| - 1]);
      SplitLast(s);
    }
  }

  /** No entry is below an earlier one. */
  predicate Sorted(s: seq<Entry>) {
    forall i, j | 0 <= i < j < |s| :: !Less(s[j].bound, s[i].bound)
  }

  predicate Comparable(s: seq<Entry>) {
    forall i | 0 <= i < |s| :: s[i].bound != NotANumber
  }

  /** Inserting below the last entry keeps everything at or below it. */
  lemma {:induction false} InsertBelow(s: seq<Entry>, e: Entry, r: seq<Entry>)
    requires Sorted(s) && |s| > 0 && Less(e.bound, s[|s| - 1].bound) && r == Insert(s[..|s| - 1], e)
    ensures forall i | 0 <= i < |r| :: !Less(s[|s| - 1].bound, r[i].bound)
  {
    var front := s[..|s| - 1];
    InsertPermutes(front, e);
    forall i | 0 <= i < |r| ensures !Less(s[|s| - 1].bound, r[i].bound) {
      assert r[i] in multiset(r);
      if r[i] != e {
        assert r[i] in front;
      }
    }
  }

  lemma {:induction false} AppendSorts(s: seq<Entry>, e: Entry)
    requires Sorted(s) && Comparable(s) && e.bound != NotANumber
    requires forall i | 0 <= i < |s| :: !Less(e.bound, s[i].bound)
    ensures Sorted(s + [e]) && Comparable(s + [e])
  {
  }

  lemma {:induction false} InsertSorts(s: seq<Entry>, e: Entry)
    requires Sorted(s) && Comparable(s) && e.bound != NotANumber
    ensures Sorted(Insert(s, e)) && Comparable(Insert(s, e))
  {
    if |s| == 0 {
    } else {
      var last := s[|s| - 1];
      if Less(e.bound, last.bound) {
        var r := Insert(s[..|s| - 1], e);
        InsertSorts(s[..|s| - 1], e);
        InsertBelow(s, e, r);
        AppendSorts(r, last);
      } else {
        forall i | 0 <= i < |s| ensures !Less(e.bound, s[i].bound) {
          assert i < |s| - 1 ==> !Less(last.bound, s[i].bound);
        }
        AppendSorts(s, e);
      }
    }
  }

  lemma {:induction false} SortSorts(s: seq<Entry>)
    requires Comparable(s)
    ensures Sorted(Sort(s)) && Comparable(Sort(s))
  {
    if |s| == 0 {
    } else {
      SortSorts(s[..|s| - 1]);
      InsertSorts(Sort(s[..|s| - 1]), s[|s| - 1]);
    }
  }

  predicate StrictlySorted(s: seq<Entry>) {
    forall i, j | 0 <= i < j < |s| :: Less(s[i].bound, s[j].bound)
  }

  lemma {:induction false} SameLast(s: seq<Entry>, e: seq<Entry>)
    requires Sorted(s) && StrictlySorted(e) && multiset(s) == multiset(e) && |s| == |e| > 0
    ensures s[|s| - 1] == e[|e| - 1]
  {
    var n := |s| - 1;
    assert s[n] in multiset(e);
    assert e[n] in multiset(s);
    var i :| 0 <= i < |e| && e[i] == s[n];
    var j :| 0 <= j < |s| && s[j] == e[n];
    assert j < n ==> !Less(s[n].bound, s[j].bound);
    assert i < n ==> Less(e[i].bound, e[n].bound);
  }

  /** A sorted arrangement of entries with distinct boundaries is unique. */
  lemma {:induction false} SortUnique(s: seq<Entry>, e: seq<Entry>)
    requires Sorted(s) && StrictlySorted(e) && multiset(s) == multiset(e)
    ensures s == e
    decreases |s|
  {
    SameSize(s, e);
    if |s| == 0 {
    } else {
      SameLast(s, e);
      DropSameLast(s, e);
      SortUnique(s[..|s| - 1], e[..|e| - 1]);
      SplitLast(s);
      SplitLast(e);
    }
  }

  // ----- an order-free description of a valid group

  /** The entries of a histogram with cumulative values v. */
  function Expected(v: seq<real>): seq<Entry>
    requires |v| == |BucketLabels|
  {
    seq(|v|, k requires 0 <= k < |v| =>
      Entry(if k < |BucketBounds| then Finite(BucketBounds[k]) else PosInf, v[k], BucketLabels[k]))
  }

  /** The bucket samples are, in some order, one for each of the 15 labels, with
      values v in the order of the labels. */
  ghost predicate Arranged(parse: Parse, group: seq<Sample>, v: seq<real>) {
    |v| == |BucketLabels| && multiset(Decoded(parse, group)) == multiset(Expected(v))
  }

  predicate Algebra(v: seq<real>, count: Option<real>, total: Option<real>) {
    && |v| == |BucketLabels|
    && Monotone(v)
    && count == Some(v[|v| - 1])
    && total.Some? && total.value >= 0.0
  }

  lemma {:induction false} ExpectedSorted(v: seq<real>)
    requires |v| == |BucketLabels|
    ensures StrictlySorted(Expected(v)) && Comparable(Expected(v))
  {
    forall i, j | 0 <= i < j < |v| ensures Less(Expected(v)[i].bound, Expected(v)[j].bound) {
      assert j < |BucketBounds| ==> BucketBounds[i] < BucketBounds[j];
    }
  }

  lemma {:induction false} ArrangedSort(parse: Parse, group: seq<Sample>, v: seq<real>)
    requires Arranged(parse, group, v)
    ensures Sort(Decoded(parse, group)) == Expected(v)
  {
    var d, e := Decoded(parse, group), Expected(v);
    ExpectedSorted(v);
    forall i | 0 <= i < |d| ensures d[i].bound != NotANumber {
      assert d[i] in multiset(e);
      assert d[i] in e;
    }
    SortSorts(d);
    SortPermutes(d);
    SortUnique(Sort(d), e);
  }

  lemma {:induction false} ValidArranged(
    parse: Parse, group: seq<Sample>, count: Option<real>, total: Option<real>) returns (v: seq<real>)
    requires ReadsBuckets(parse) && GroupValid(parse, group, count, total)
    ensures Arranged(parse, group, v) && Algebra(v, count, total)
  {
    var d := Sort(Decoded(parse, group));
    v := Values(d);
    SortPermutes(Decoded(parse, group));
    LastIsInfinite(parse, group);
    forall k | 0 <= k < |d| ensures d[k] == Expected(v)[k] {
      assert Encodings(d)[k] == BucketLabels[k];
      if k < |BucketBounds| {
        assert Bounds(d[..|BucketBounds|])[k] == Finite(BucketBounds[k]);
      }
    }
    assert d == Expected(v);
  }

  /** The last entry is spelled +Inf, so its boundary is the positive infinity. */
  lemma {:induction false} LastIsInfinite(parse: Parse, group: seq<Sample>)
    requires Encodings(Sort(Decoded(parse, group))) == BucketLabels
    ensures
      var d := Sort(Decoded(parse, group));
      |d| == |BucketLabels| && d[|d| - 1].bound == PosInf
  {
    var s := Decoded(parse, group);
    var d := Sort(s);
    SortPermutes(s);
    var last := d[|d| - 1];
    assert Encodings(d)[|d| - 1] == "+Inf";
    assert last in multiset(d);
    assert last in s;
  }

  lemma {:induction false} ArrangedValid(
    parse: Parse, group: seq<Sample>, count: Option<real>, total: Option<real>, v: seq<real>)
    requires Arranged(parse, group, v) && Algebra(v, count, total)
    ensures GroupValid(parse, group, count, total)
  {
    ArrangedSort(parse, group, v);
    ExpectedColumns(v);
  }

  lemma {:induction false} ExpectedColumns(v: seq<real>)
    requires |v| == |BucketLabels|
    ensures Encodings(Expected(v)) == BucketLabels
    ensures Bounds(Expected(v)[..|BucketBounds|]) == Map((r: real) => Finite(r), BucketBounds)
    ensures Values(Expected(v)) == v
  {
  }

  /** A group passes exactly when some cumulative values account for its buckets. */
  lemma {:induction false} GroupMeaning(parse: Parse, group: seq<Sample>, count: Option<real>, total: Option<real>)
    requires ReadsBuckets(parse)
    ensures GroupValid(parse, group, count, total)
            <==> exists v :: Arranged(parse, group, v) && Algebra(v, count, total)
  {
    if GroupValid(parse, group, count, total) {
      var v := ValidArranged(parse, group, count, total);
    }
    if v :| Arranged(parse, group, v) && Algebra(v, count, total) {
      ArrangedValid(parse, group, count, total, v);
    }
  }

  /** The verdict on a group does not depend on the order of its buckets. */
  lemma {:induction false} GroupOrderFree(
    parse: Parse, g: seq<Sample>, h: seq<Sample>, count: Option<real>, total: Option<real>)
    requires ReadsBuckets(parse) && multiset(g) == multiset(h)
    ensures GroupValid(parse, g, count, total) <==> GroupValid(parse, h, count, total)
  {
    GroupMeaning(parse, g, count, total);
    GroupMeaning(parse, h, count, total);
    MapPermutation(s => EntryOf(parse, s), g, h);
    if v :| Arranged(parse, g, v) && Algebra(v, count, total) {
      assert Arranged(parse, h, v);
    }
    if v :| Arranged(parse, h, v) && Algebra(v, count, total) {
      assert Arranged(parse, g, v);
    }
  }

  // ----- per-bucket counts

  /** v[0], v[1] - v[0], v[2] - v[1], ... */
  function PerBucket(v: seq<real>): seq<real> {
    if |v| == 0 then []
    else if |v| == 1 then v
    else PerBucket(v[..|v| - 1]) + [v[|v| - 1] - v[|v| - 2]]
  }

  function Sum(v: seq<real>): real {
    if |v| == 0 then 0.0 else Sum(v[..|v| - 1]) + v[|v| - 1]
  }

  /** Non-decreasing cumulative values come from non-negative per-bucket counts. */
  lemma {:induction false} PerBucketCounts(v: seq<real>)
    requires |v| > 0 && Monotone(v) && v[0] >= 0.0
    ensures |PerBucket(v)| == |v|
    ensures Sum(PerBucket(v)) == v[|v| - 1]
    ensures forall i | 0 <= i < |v| :: PerBucket(v)[i] >= 0.0
  {
    if |v| == 1 {
      assert Sum(v) == Sum(v[..0]) + v[0];
    } else {
      var front := v[..|v| - 1];
      PerBucketCounts(front);
      assert PerBucket(v)[..|v| - 1] == PerBucket(front);
      assert v[|v| - 2] <= v[|v| - 1];
    }
  }
}

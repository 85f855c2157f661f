/** What the histogram audit guarantees about accepted documents, and that its
    verdict does not depend on the order of the samples. */
module HistogramResults {
  import opened Outcome
  import opened Sequences
  import opened Metrics
  import opened CatalogCheck
  import opened HistogramAudit
  import opened HistogramFamilies
  import opened Cardinality

  lemma {:induction false} SeriesDetermineSample(samples: seq<Sample>, s: Sample, t: Sample)
    requires DistinctSeries(samples) && s in samples && t in samples && SeriesOf(s) == SeriesOf(t)
    ensures s == t
  {
    var i :| 0 <= i < |samples| && samples[i] == s;
    var j :| 0 <= j < |samples| && samples[j] == t;
  }

  lemma {:induction false} NamedFunctional(doc: Document, name: string)
    requires DistinctSeries(doc.samples)
    ensures Functional(Named(doc, name))
  {
    forall s, t | s in Named(doc, name) && t in Named(doc, name) && s.labels == t.labels ensures s.value == t.value {
      SeriesDetermineSample(doc.samples, s, t);
    }
  }

  lemma {:induction false} NamedPermutation(d: Document, e: Document, name: string)
    requires multiset(d.samples) == multiset(e.samples)
    ensures multiset(Named(d, name)) == multiset(Named(e, name))
  {
    FilterPermutation((s: Sample) => s.name == name, d.samples, e.samples);
  }

  lemma {:induction false} ValueMapOrderFree(a: seq<Sample>, b: seq<Sample>)
    requires multiset(a) == multiset(b) && Functional(a)
    ensures ValueMap(a) == ValueMap(b)
  {
    SameMembers(a, b);
    ValueMapMeaning(a);
    ValueMapMeaning(b);
    forall k | k in ValueMap(a) ensures k in ValueMap(b) && ValueMap(a)[k] == ValueMap(b)[k] {
      var s :| s in a && s.labels == k;
    }
  }

  lemma {:induction false} GroupPermutation(a: seq<Sample>, b: seq<Sample>, base: Labels)
    requires multiset(a) == multiset(b)
    ensures multiset(Group(a, base)) == multiset(Group(b, base))
  {
    FilterPermutation((s: Sample) => Base(s) == base, a, b);
  }

  lemma {:induction false} PartsOrderFree(d: Document, e: Document, f: Family)
    requires DistinctSeries(d.samples) && multiset(d.samples) == multiset(e.samples)
    ensures ValueMap(Sums(d, f)) == ValueMap(Sums(e, f)) && ValueMap(Counts(d, f)) == ValueMap(Counts(e, f))
    ensures multiset(Buckets(d, f)) == multiset(Buckets(e, f)) && Bases(Buckets(d, f)) == Bases(Buckets(e, f))
  {
    NamedPermutation(d, e, f.name + "_bucket");
    NamedPermutation(d, e, f.name + "_sum");
    NamedPermutation(d, e, f.name + "_count");
    NamedFunctional(d, f.name + "_sum");
    NamedFunctional(d, f.name + "_count");
    ValueMapOrderFree(Sums(d, f), Sums(e, f));
    ValueMapOrderFree(Counts(d, f), Counts(e, f));
    SameMembers(Buckets(d, f), Buckets(e, f));
  }

  lemma {:induction false} OneGroupOrderFree(parse: Parse, d: Document, e: Document, f: Family, base: Labels)
    requires ReadsBuckets(parse) && DistinctSeries(d.samples) && multiset(d.samples) == multiset(e.samples)
    requires GroupOk(parse, d, f, base)
    ensures GroupOk(parse, e, f, base)
  {
    PartsOrderFree(d, e, f);
    GroupPermutation(Buckets(d, f), Buckets(e, f), base);
    GroupOrderFree(parse, Group(Buckets(d, f), base), Group(Buckets(e, f), base),
                   Get(ValueMap(Counts(d, f)), base), Get(ValueMap(Sums(d, f)), base));
  }

  lemma {:induction false} FamilyOrderFree(parse: Parse, d: Document, e: Document, f: Family)
    requires ReadsBuckets(parse) && DistinctSeries(d.samples) && multiset(d.samples) == multiset(e.samples)
    requires FamilyHistogramOk(parse, d, f)
    ensures FamilyHistogramOk(parse, e, f)
  {
    PartsOrderFree(d, e, f);
    SameMembers(Buckets(d, f), Buckets(e, f));
    forall base | base in Bases(Buckets(e, f)) ensures GroupOk(parse, e, f, base) {
      assert GroupOk(parse, d, f, base);
      OneGroupOrderFree(parse, d, e, f, base);
    }
  }

  lemma {:induction false} DistinctPermutation(a: seq<Sample>, b: seq<Sample>)
    requires DistinctSeries(a) && multiset(a) == multiset(b)
    ensures DistinctSeries(b)
  {
    SameMembers(a, b);
    forall i, j | 0 <= i < j < |b| && SeriesOf(b[i]) == SeriesOf(b[j]) ensures false {
      SeriesDetermineSample(a, b[i], b[j]);
      TwoOccurrences(b, i, j);
      OneOccurrence(a, b[i]);
    }
  }

  lemma {:induction false} OneOccurrence(a: seq<Sample>, x: Sample)
    requires DistinctSeries(a)
    ensures multiset(a)[x] <= 1
  {
    if |a| == 0 {
    } else {
      SplitLast(a);
      OneOccurrence(a[..|a| - 1], x);
      if a[|a| - 1] == x {
        assert x !in a[..|a| - 1];
      }
    }
  }

  /** Both audits give the same verdict on every permutation of the samples. */
  lemma {:induction false} VerdictOrderFree(parse: Parse, service: Service, d: Document, e: Document)
    requires ReadsBuckets(parse) && DistinctSeries(d.samples)
    requires multiset(d.samples) == multiset(e.samples)
    requires d.types == e.types && d.help == e.help && d.units == e.units
    ensures CatalogOk(service, d) <==> CatalogOk(service, e)
    ensures HistogramsOk(parse, service, d) <==> HistogramsOk(parse, service, e)
  {
    CatalogOrderFree(service, d, e);
    DistinctPermutation(d.samples, e.samples);
    forall k | 0 <= k < |service.catalog|
      ensures Passes(parse, d, service.catalog[k]) <==> Passes(parse, e, service.catalog[k])
    {
      var f := service.catalog[k];
      if FamilyHistogramOk(parse, d, f) {
        FamilyOrderFree(parse, d, e, f);
      }
      if FamilyHistogramOk(parse, e, f) {
        FamilyOrderFree(parse, e, d, f);
      }
    }
  }

  // ----- accepted histograms count events

  lemma {:induction false} FirstBucket(parse: Parse, group: seq<Sample>, v: seq<real>) returns (s: Sample)
    requires Arranged(parse, group, v)
    ensures s in group && s.value == v[0]
  {
    var d := Decoded(parse, group);
    var e := Expected(v)[0];
    assert e in multiset(Expected(v));
    assert e in multiset(d);
    var i :| 0 <= i < |d| && d[i] == e;
    s := group[i];
  }

  /** Every accepted label set of a histogram comes from non-negative per-bucket
      counts that add up to its count sample. */
  lemma {:induction false} AcceptedCounts(
    parse: Parse, service: Service, doc: Document, f: Family, base: Labels) returns (v: seq<real>)
    requires ReadsBuckets(parse) && CatalogOk(service, doc) && FamilyHistogramOk(parse, doc, f)
    requires f in service.catalog && IsHistogram(f) && base in Bases(Buckets(doc, f))
    ensures Arranged(parse, Group(Buckets(doc, f), base), v)
    ensures |PerBucket(v)| == |BucketLabels|
    ensures forall k | 0 <= k < |PerBucket(v)| :: PerBucket(v)[k] >= 0.0
    ensures Get(ValueMap(Counts(doc, f)), base) == Some(Sum(PerBucket(v)))
  {
    var group := Group(Buckets(doc, f), base);
    assert GroupOk(parse, doc, f, base);
    v := ValidArranged(parse, group, Get(ValueMap(Counts(doc, f)), base), Get(ValueMap(Sums(doc, f)), base));
    var first := FirstBucket(parse, group, v);
    BucketNonNegative(service, doc, f, first);
    PerBucketCounts(v);
  }

  lemma {:induction false} BucketNonNegative(service: Service, doc: Document, f: Family, s: Sample)
    requires CatalogOk(service, doc) && f in service.catalog && IsHistogram(f) && s in Buckets(doc, f)
    ensures s.value >= 0.0
  {
    assert FamilyOk(service, doc, f);
    assert s.name in SampleNames(f);
    assert SampleOk(service, f.spec, s);
  }
}

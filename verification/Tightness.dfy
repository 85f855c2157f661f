/** Exactly when the cardinality bound is tight: a document attains it if and only if
    the catalog is saturable. */
module Tightness {
  import opened Outcome
  import opened Sequences
  import opened Counting
  import opened Metrics
  import opened CatalogCheck
  import opened HistogramAudit
  import opened HistogramFamilies
  import opened Cardinality
  import opened Saturation

  /** The document passes both audits and has as many series as the closed form says. */
  ghost predicate Attains(parse: Parse, service: Service, doc: Document) {
    && DistinctSeries(doc.samples)
    && CatalogOk(service, doc)
    && HistogramsOk(parse, service, doc)
    && TheoreticalTotal(service.pairs, service.catalog) == Some(|doc.samples|)
  }

  // ----- an attaining document lists every series of the catalog

  lemma {:induction false} SameSizeSubset<T>(x: set<T>, y: set<T>)
    requires x <= y && |x| >= |y|
    ensures x == y
  {
    assert y == x + (y - x);
    assert |x + (y - x)| == |x| + |y - x|;
  }

  lemma {:induction false} DisjointBySize<T>(x: set<T>, y: set<T>)
    requires |x + y| >= |x| + |y|
    ensures x !! y
  {
    assert x + y == x + (y - x);
    assert |x + (y - x)| == |x| + |y - x|;
    SameSizeSubset(y - x, y);
  }

  ghost function SeriesIn(doc: Document): set<Series> {
    Members(Map((s: Sample) => SeriesOf(s), doc.samples))
  }

  lemma {:induction false} SeriesInSize(doc: Document)
    requires DistinctSeries(doc.samples)
    ensures |SeriesIn(doc)| == |doc.samples|
  {
    var series := Map((s: Sample) => SeriesOf(s), doc.samples);
    assert NoRepeats(series);
    MembersSize(series);
  }

  lemma {:induction false} AllSeries(parse: Parse, service: Service, doc: Document)
    requires WellFormed(service) && Attains(parse, service, doc)
    ensures SeriesIn(doc) == CatalogSeries(service, service.catalog)
    ensures TheoreticalTotal(service.pairs, service.catalog) == Some(|CatalogSeries(service, service.catalog)|)
  {
    SeriesInSize(doc);
    forall x | x in SeriesIn(doc) ensures x in CatalogSeries(service, service.catalog) {
      var i :| 0 <= i < |doc.samples| && SeriesOf(doc.samples[i]) == x;
      SampleInCatalog(parse, service, doc, doc.samples[i]);
    }
    CatalogSeriesBound(service, service.catalog);
    SameSizeSubset(SeriesIn(doc), CatalogSeries(service, service.catalog));
  }

  /** The sample of a series of the i-th family. */
  lemma {:induction false} SampleOf(
    parse: Parse, service: Service, doc: Document, i: nat, x: Series) returns (s: Sample)
    requires WellFormed(service) && Attains(parse, service, doc)
    requires i < |service.catalog| && x in FamilySeries(service, service.catalog[i])
    ensures s in doc.samples && SeriesOf(s) == x && s.name in SampleNames(service.catalog[i])
    ensures SampleOk(service, service.catalog[i].spec, s)
  {
    AllSeries(parse, service, doc);
    CatalogSeriesMember(service, service.catalog, i);
    assert x in SeriesIn(doc);
    var k :| 0 <= k < |doc.samples| && SeriesOf(doc.samples[k]) == x;
    s := doc.samples[k];
    FamilySeriesNames(service, service.catalog[i]);
    assert FamilyOk(service, doc, service.catalog[i]);
  }

  // ----- the series of the families are disjoint

  lemma {:induction false} TightUnion<T>(x: set<T>, y: set<T>, a: nat, b: nat)
    requires |x| <= a && |y| <= b && |x + y| == a + b
    ensures |x| == a && x !! y
  {
    UnionSize(x, y);
    DisjointBySize(x, y);
  }

  lemma {:induction false} TotalSplits(pairs: set<(string, string)>, catalog: seq<Family>)
    requires |catalog| > 0 && TheoreticalTotal(pairs, catalog).Some?
    ensures var front, last := TheoreticalTotal(pairs, catalog[..|catalog| - 1]), catalog[|catalog| - 1];
            && front.Some? && TheoreticalSeries(pairs, last.spec).Some?
            && TheoreticalTotal(pairs, catalog) == Some(front.value + TheoreticalSeries(pairs, last.spec).value)
  {
  }

  /** The series of the catalog are as many as the closed form says. */
  ghost predicate Exact(service: Service, catalog: seq<Family>) {
    && (forall i | 0 <= i < |catalog| :: DistinctLabels(catalog[i].spec.labels))
    && TheoreticalTotal(service.pairs, catalog) == Some(|CatalogSeries(service, catalog)|)
  }

  lemma {:induction false} TightFront(service: Service, catalog: seq<Family>)
    requires |catalog| > 0 && Exact(service, catalog)
    ensures Exact(service, catalog[..|catalog| - 1])
    ensures CatalogSeries(service, catalog[..|catalog| - 1]) !! FamilySeries(service, catalog[|catalog| - 1])
  {
    var front, last := catalog[..|catalog| - 1], catalog[|catalog| - 1];
    assert forall i | 0 <= i < |front| :: front[i] == catalog[i];
    TotalSplits(service.pairs, catalog);
    CatalogSeriesBound(service, front);
    FamilySeriesBound(service, last);
    TightUnion(CatalogSeries(service, front), FamilySeries(service, last),
               TheoreticalTotal(service.pairs, front).value, TheoreticalSeries(service.pairs, last.spec).value);
  }

  lemma {:induction false} LastApart(service: Service, catalog: seq<Family>, i: nat)
    requires Exact(service, catalog) && i < |catalog| - 1
    ensures FamilySeries(service, catalog[i]) !! FamilySeries(service, catalog[|catalog| - 1])
  {
    var front := catalog[..|catalog| - 1];
    TightFront(service, catalog);
    assert front[i] == catalog[i];
    CatalogSeriesMember(service, front, i);
  }

  lemma {:induction false} FamiliesApart(service: Service, catalog: seq<Family>, i: nat, j: nat)
    requires Exact(service, catalog) && i < j < |catalog|
    ensures FamilySeries(service, catalog[i]) !! FamilySeries(service, catalog[j])
  {
    if j == |catalog| - 1 {
      LastApart(service, catalog, i);
    } else {
      var front := catalog[..|catalog| - 1];
      TightFront(service, catalog);
      FamiliesApart(service, front, i, j);
      assert front[i] == catalog[i] && front[j] == catalog[j];
    }
  }

  // ----- each part of Saturable

  /** A family with a sample has a label set. */
  lemma {:induction false} HasLabelSet(parse: Parse, service: Service, doc: Document, i: nat) returns (m: Labels)
    requires WellFormed(service) && Attains(parse, service, doc) && i < |service.catalog|
    ensures m in LabelSets(service, service.catalog[i].spec.labels)
  {
    var f := service.catalog[i];
    assert FamilyOk(service, doc, f);
    var s :| s in doc.samples && s.name in SampleNames(f);
    TotalDefined(service.pairs, service.catalog, i);
    assert Passes(parse, doc, f);
    SampleMember(parse, service, doc, f, s);
    m := LabelSetOf(service, f, SeriesOf(s));
  }

  lemma {:induction false} LabelSetOf(service: Service, f: Family, x: Series) returns (m: Labels)
    requires x in FamilySeries(service, f)
    ensures m in LabelSets(service, f.spec.labels)
  {
    var sets := LabelSets(service, f.spec.labels);
    if f.spec.metricType == "histogram" && x in Image2(WithBoundary(f.name + "_bucket"), sets, Members(BucketLabels)) {
      var m', le :| m' in sets && le in Members(BucketLabels) && x == WithBoundary(f.name + "_bucket")(m', le);
      m := m';
    } else {
      m := x.1;
    }
  }

  /** A sample name under which a family exposes each of its label sets as it is. */
  function PlainName(f: Family): string {
    if f.spec.metricType == "histogram" then f.name + "_sum" else f.name
  }

  /** Every label set of a family satisfies its label rules. */
  lemma {:induction false} LabelSetFits(parse: Parse, service: Service, doc: Document, i: nat, m: Labels)
    requires WellFormed(service) && Attains(parse, service, doc) && i < |service.catalog|
    requires m in LabelSets(service, service.catalog[i].spec.labels)
    ensures var labels := service.catalog[i].spec.labels;
            LabelNames(labels) <= m.Keys && LabelsOk(service, labels, m)
  {
    var f := service.catalog[i];
    assert WithName(PlainName(f))(m) in FamilySeries(service, f);
    var s := SampleOf(parse, service, doc, i, (PlainName(f), m));
  }

  lemma {:induction false} PairSet(
    service: Service, labels: seq<LabelSpec>, m: Labels, p: (string, string)) returns (m': Labels)
    requires m in LabelSets(service, labels) && HasRouteMethod(labels) && p in service.pairs
    ensures m' in LabelSets(service, labels)
    ensures "route" in m' && "method" in m' && m'["route"] == p.0 && m'["method"] == p.1
  {
    var c, q :| c in Choices(service.name, labels) && q in service.pairs && m == AssignPair()(c, q);
    m' := AssignPair()(c, p);
  }

  lemma {:induction false} EntryMustAdmit(parse: Parse, service: Service, doc: Document, i: nat, k: nat)
    requires WellFormed(service) && Attains(parse, service, doc) && i < |service.catalog|
    requires k < |service.catalog[i].spec.labels|
    ensures EntryAdmits(service, service.catalog[i].spec.labels[k])
  {
    var labels := service.catalog[i].spec.labels;
    var entry := labels[k];
    assert entry.name in LabelNames(labels);
    var m := HasLabelSet(parse, service, doc, i);
    LabelSetFits(parse, service, doc, i, m);
    assert LabelOk(service, entry, m[entry.name]);
    if Relational(entry.name) && entry.allowed.Some? {
      forall p | p in service.pairs
        ensures (if entry.name == "route" then p.0 else p.1) in entry.allowed.value
      {
        var m' := PairSet(service, labels, m, p);
        LabelSetFits(parse, service, doc, i, m');
        assert LabelOk(service, entry, m'[entry.name]);
      }
    }
  }

  /** The label sets of buckets and of sums can only match without an own le label. */
  lemma {:induction false} NoBoundaryLabel(parse: Parse, service: Service, doc: Document, f: Family)
    requires f.spec.metricType == "histogram" && FamilyOk(service, doc, f) && HistogramOk(parse, doc, f)
    ensures "le" !in LabelNames(f.spec.labels)
  {
    var bases := Bases(Buckets(doc, f));
    var base :| base in bases;
    assert "le" !in base;
    ValueMapMember(Sums(doc, f), base);
    var s :| s in Sums(doc, f) && s.labels == base;
    RequiredNames(f);
    assert SampleOk(service, f.spec, s);
  }

  lemma {:induction false} ValueMapMember(samples: seq<Sample>, m: Labels)
    requires m in ValueMap(samples)
    ensures exists s :: s in samples && s.labels == m
  {
    var last := samples[|samples| - 1];
    if last.labels == m {
      assert last in samples;
    } else {
      ValueMapMember(samples[..|samples| - 1], m);
      var s :| s in samples[..|samples| - 1] && s.labels == m;
      assert s in samples;
    }
  }

  lemma {:induction false} MustBeCounted(parse: Parse, service: Service, doc: Document, i: nat)
    requires WellFormed(service) && Attains(parse, service, doc) && i < |service.catalog|
    ensures Counted(service, service.catalog[i])
  {
    var f := service.catalog[i];
    TotalDefined(service.pairs, service.catalog, i);
    assert Passes(parse, doc, f) && FamilyOk(service, doc, f);
    if f.spec.metricType == "histogram" {
      NoBoundaryLabel(parse, service, doc, f);
    }
  }

  lemma {:induction false} SomeCombination(service: Service, f: Family, m: Labels)
    requires Counted(service, f) && m in LabelSets(service, f.spec.labels)
    ensures Combinations(service.pairs, f.spec.labels).value > 0
  {
    LabelSetsSize(service, f.spec.labels);
  }

  lemma {:induction false} MustBeReady(parse: Parse, service: Service, doc: Document, i: nat)
    requires WellFormed(service) && Attains(parse, service, doc) && i < |service.catalog|
    ensures Ready(service, service.catalog[i])
  {
    var f := service.catalog[i];
    MustBeCounted(parse, service, doc, i);
    var m := HasLabelSet(parse, service, doc, i);
    SomeCombination(service, f, m);
    forall k | 0 <= k < |f.spec.labels| ensures EntryAdmits(service, f.spec.labels[k]) {
      EntryMustAdmit(parse, service, doc, i, k);
    }
  }

  /** Some series of a family has a given one of its sample names. */
  lemma {:induction false} SeriesNamed(service: Service, f: Family, m: Labels, name: string) returns (x: Series)
    requires m in LabelSets(service, f.spec.labels) && name in SampleNames(f)
    ensures x in FamilySeries(service, f) && x.0 == name
  {
    if f.spec.metricType == "histogram" && name == f.name + "_bucket" {
      assert BucketLabels[0] in Members(BucketLabels);
      x := WithBoundary(name)(m, BucketLabels[0]);
    } else {
      x := WithName(name)(m);
    }
  }

  lemma {:induction false} NamesApart(parse: Parse, service: Service, doc: Document, i: nat, j: nat)
    requires WellFormed(service) && Attains(parse, service, doc) && i < j < |service.catalog|
    ensures SampleNames(service.catalog[i]) !! SampleNames(service.catalog[j])
  {
    var f, g := service.catalog[i], service.catalog[j];
    AllSeries(parse, service, doc);
    FamiliesApart(service, service.catalog, i, j);
    forall name | name in SampleNames(f) ensures name !in SampleNames(g) {
      if name in SampleNames(g) {
        var m := HasLabelSet(parse, service, doc, i);
        var x := SeriesNamed(service, f, m, name);
        var s := SampleOf(parse, service, doc, i, x);
        SampleBelongs(parse, service, doc, j, s);
        assert false;
      }
    }
  }

  lemma {:induction false} SampleBelongs(parse: Parse, service: Service, doc: Document, j: nat, s: Sample)
    requires WellFormed(service) && Attains(parse, service, doc) && j < |service.catalog|
    requires s in doc.samples && s.name in SampleNames(service.catalog[j])
    ensures SeriesOf(s) in FamilySeries(service, service.catalog[j])
  {
    var g := service.catalog[j];
    TotalDefined(service.pairs, service.catalog, j);
    assert FamilyOk(service, doc, g) && Passes(parse, doc, g);
    SampleMember(parse, service, doc, g, s);
  }

  lemma {:induction false} MetadataMustAgree(service: Service, doc: Document)
    requires CatalogOk(service, doc)
    ensures MetadataAgrees(service.catalog)
  {
    forall i, j | 0 <= i < |service.catalog| && 0 <= j < |service.catalog|
                  && MetadataName(service.catalog[i]) == MetadataName(service.catalog[j])
      ensures service.catalog[i].spec.metricType == service.catalog[j].spec.metricType
      ensures service.catalog[i].spec.unit == service.catalog[j].spec.unit
    {
      assert FamilyOk(service, doc, service.catalog[i]) && FamilyOk(service, doc, service.catalog[j]);
    }
  }

  lemma {:induction false} MustBeSaturable(parse: Parse, service: Service, doc: Document)
    requires WellFormed(service) && Attains(parse, service, doc)
    ensures Saturable(service)
  {
    forall i, j | 0 <= i < j < |service.catalog|
      ensures SampleNames(service.catalog[i]) !! SampleNames(service.catalog[j])
    {
      NamesApart(parse, service, doc, i, j);
    }
    MetadataMustAgree(service, doc);
    forall i | 0 <= i < |service.catalog| ensures Ready(service, service.catalog[i]) {
      MustBeReady(parse, service, doc, i);
    }
  }

  /** The bound is attained by some document exactly when the catalog is saturable. */
  lemma {:induction false} TightIffSaturable(parse: Parse, service: Service)
    requires ReadsBuckets(parse) && WellFormed(service) && TheoreticalTotal(service.pairs, service.catalog).Some?
    ensures (exists doc :: Attains(parse, service, doc)) <==> Saturable(service)
  {
    if doc :| Attains(parse, service, doc) {
      MustBeSaturable(parse, service, doc);
    }
    if Saturable(service) {
      var doc := BoundAttained(parse, service);
      assert Attains(parse, service, doc);
    }
  }

  /** A catalog whose method domain is narrower than its route relation. */
  const Narrow: Service := Service(
    "svc", {("/", "GET"), ("/", "PUT")},
    [Family("m", FamilySpec("gauge", [LabelSpec("route", None), LabelSpec("method", Some({"GET"}))], None))])

  /** There the closed form says 2 and no accepted document has two series. */
  lemma {:induction false} NarrowNotTight(parse: Parse, doc: Document)
    requires DistinctSeries(doc.samples) && CatalogOk(Narrow, doc) && HistogramsOk(parse, Narrow, doc)
    ensures WellFormed(Narrow) && TheoreticalTotal(Narrow.pairs, Narrow.catalog) == Some(2)
    ensures |doc.samples| < 2
  {
    NarrowTotal();
    SeriesBound(parse, Narrow, doc);
    if |doc.samples| == 2 {
      MustBeSaturable(parse, Narrow, doc);
      NarrowNotSaturable();
      assert false;
    }
  }

  lemma {:induction false} NarrowTotal()
    ensures WellFormed(Narrow) && TheoreticalTotal(Narrow.pairs, Narrow.catalog) == Some(2)
  {
    var labels := Narrow.catalog[0].spec.labels;
    assert "route"[0] != "method"[0];
    assert labels[0].name in LabelNames(labels) && labels[1].name in LabelNames(labels);
    assert "GET"[0] != "PUT"[0];
    assert |Narrow.pairs| == 2;
    assert Product(2, labels[..1][..0]) == Some(2);
    assert Product(2, labels[..1]) == Some(2);
    assert Combinations(Narrow.pairs, labels) == Some(2);
    assert TheoreticalTotal(Narrow.pairs, Narrow.catalog[..0]) == Some(0);
  }

  lemma {:induction false} NarrowNotSaturable()
    ensures !Saturable(Narrow)
  {
    var entry := Narrow.catalog[0].spec.labels[1];
    assert "PUT"[0] != "GET"[0];
    assert ("/", "PUT") in Narrow.pairs && "PUT" !in entry.allowed.value;
    assert !EntryAdmits(Narrow, entry);
    assert !Ready(Narrow, Narrow.catalog[0]);
  }
}

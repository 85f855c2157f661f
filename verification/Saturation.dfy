/** The cardinality bound is attained for saturable catalogs: the document with every
    series passes both audits. */
module Saturation {
  import opened Outcome
  import opened Sequences
  import opened Counting
  import opened Metrics
  import opened CatalogCheck
  import opened HistogramAudit
  import opened HistogramFamilies
  import opened Cardinality

  // ----- catalogs without contradictory or overlapping entries

  /** The allowed values of the relational labels and of the service label admit
      everything the relation and the target provide. */
  predicate EntryAdmits(service: Service, entry: LabelSpec) {
    && (entry.allowed.Some? && entry.name == "service" ==> service.name in entry.allowed.value)
    && (entry.allowed.Some? && entry.name == "route" ==> forall p | p in service.pairs :: p.0 in entry.allowed.value)
    && (entry.allowed.Some? && entry.name == "method" ==> forall p | p in service.pairs :: p.1 in entry.allowed.value)
  }

  /** The closed form counts the series of the family exactly. */
  predicate Counted(service: Service, f: Family) {
    && DistinctLabels(f.spec.labels)
    && TheoreticalSeries(service.pairs, f.spec).Some?
    && (f.spec.metricType == "histogram" ==> "le" !in LabelNames(f.spec.labels))
  }

  /** Every label set of the family is acceptable, and there is one. */
  predicate Ready(service: Service, f: Family) {
    && Counted(service, f)
    && Combinations(service.pairs, f.spec.labels).value > 0
    && (forall i | 0 <= i < |f.spec.labels| :: EntryAdmits(service, f.spec.labels[i]))
  }

  /** No sample name belongs to two families. */
  predicate NamesDisjoint(catalog: seq<Family>) {
    forall i, j | 0 <= i < j < |catalog| :: SampleNames(catalog[i]) !! SampleNames(catalog[j])
  }

  /** Families that share a metadata name can share its type and unit. */
  predicate MetadataAgrees(catalog: seq<Family>) {
    forall i, j | 0 <= i < |catalog| && 0 <= j < |catalog| && MetadataName(catalog[i]) == MetadataName(catalog[j]) ::
      catalog[i].spec.metricType == catalog[j].spec.metricType && catalog[i].spec.unit == catalog[j].spec.unit
  }

  predicate AllCounted(service: Service, catalog: seq<Family>) {
    NamesDisjoint(catalog) && forall i | 0 <= i < |catalog| :: Counted(service, catalog[i])
  }

  /** What the catalog needs so that a document can list all its series. */
  predicate Saturable(service: Service) {
    && WellFormed(service)
    && NamesDisjoint(service.catalog)
    && MetadataAgrees(service.catalog)
    && forall i | 0 <= i < |service.catalog| :: Ready(service, service.catalog[i])
  }

  lemma {:induction false} FrontCounted(service: Service, catalog: seq<Family>)
    requires AllCounted(service, catalog) && |catalog| > 0
    ensures AllCounted(service, catalog[..|catalog| - 1]) && Counted(service, catalog[|catalog| - 1])
  {
    var front := catalog[..|catalog| - 1];
    forall i | 0 <= i < |front| ensures Counted(service, front[i]) {
      assert Counted(service, catalog[i]);
    }
    assert forall i | 0 <= i < |front| :: front[i] == catalog[i];
  }

  // ----- exact sizes

  lemma {:induction false} BucketLabelsDistinct()
    ensures NoRepeats(BucketLabels)
  {
    forall i, j | 0 <= i < j < |BucketLabels| ensures BucketLabels[i] != BucketLabels[j] {
      if |BucketLabels[i]| == |BucketLabels[j]| {
        SameLengthLabels(i, j);
      }
    }
  }

  lemma {:induction false} SameLengthLabels(i: nat, j: nat)
    requires i < j < 15 && |BucketLabels[i]| == |BucketLabels[j]|
    ensures BucketLabels[i] != BucketLabels[j]
  {
    assert BucketLabels[0] == "0.001" && BucketLabels[2] == "0.005" && BucketLabels[4] == "0.025";
    assert BucketLabels[3] == "0.01" && BucketLabels[5] == "0.05" && BucketLabels[7] == "0.25";
    assert BucketLabels[12] == "10.0" && BucketLabels[13] == "30.0" && BucketLabels[14] == "+Inf";
    assert BucketLabels[6] == "0.1" && BucketLabels[8] == "0.5" && BucketLabels[9] == "1.0";
    assert BucketLabels[10] == "2.5" && BucketLabels[11] == "5.0" && BucketLabels[1] == "0.0025";
  }

  lemma {:induction false} BoundaryInjective(name: string, sets: set<Labels>, labels: set<string>)
    requires forall m | m in sets :: "le" !in m
    ensures Injective2(WithBoundary(name), sets, labels)
  {
    var f := WithBoundary(name);
    forall m, m', v, v' | m in sets && m' in sets && v in labels && v' in labels && f(m, v) == f(m', v')
      ensures m == m' && v == v'
    {
      assert f(m, v).1["le"] == v && f(m', v').1["le"] == v';
      assert m == f(m, v).1 - {"le"};
      assert m' == f(m', v').1 - {"le"};
    }
  }

  lemma {:induction false} HistogramNames(name: string)
    ensures name + "_bucket" != name + "_sum" && name + "_bucket" != name + "_count" && name + "_sum" != name + "_count"
  {
    Suffixes(name);
    assert |name + "_sum"| != |name + "_count"|;
  }

  lemma {:induction false} HistogramSeriesExact(name: string, sets: set<Labels>)
    requires forall m | m in sets :: "le" !in m
    ensures |HistogramSeries(name, sets)| == |sets| * 17
  {
    BucketLabelsDistinct();
    MembersSize(BucketLabels);
    BucketSizes();
    BoundaryInjective(name + "_bucket", sets, Members(BucketLabels));
    HistogramNames(name);
    ThreePartsExact(WithBoundary(name + "_bucket"), WithName(name + "_sum"), WithName(name + "_count"), sets,
      Members(BucketLabels));
  }

  lemma {:induction false} ThreePartsExact(
    f: (Labels, string) -> Series, g: Labels -> Series, h: Labels -> Series, sets: set<Labels>, labels: set<string>)
    requires |labels| == 15 && Injective2(f, sets, labels) && Injective(g, sets) && Injective(h, sets)
    requires Image2(f, sets, labels) !! Image(g, sets)
    requires Image2(f, sets, labels) + Image(g, sets) !! Image(h, sets)
    ensures |Image2(f, sets, labels) + Image(g, sets) + Image(h, sets)| == |sets| * 17
  {
    Image2Size(f, sets, labels);
    ImageSize(g, sets);
    ImageSize(h, sets);
    UnionSize(Image2(f, sets, labels), Image(g, sets));
    UnionSize(Image2(f, sets, labels) + Image(g, sets), Image(h, sets));
  }

  lemma {:induction false} LabelSetsKeys(service: Service, labels: seq<LabelSpec>)
    requires Combinations(service.pairs, labels).Some?
    ensures forall m | m in LabelSets(service, labels) :: m.Keys == LabelNames(labels)
  {
    ChoiceKeys(service.name, labels);
    if HasRouteMethod(labels) {
      assert LabelNames(labels) == FreeNames(labels) + {"route", "method"};
    } else {
      assert FreeNames(labels) == LabelNames(labels);
    }
  }

  lemma {:induction false} FamilySeriesExact(service: Service, f: Family)
    requires Counted(service, f)
    ensures |FamilySeries(service, f)| == TheoreticalSeries(service.pairs, f.spec).value
  {
    var sets := LabelSets(service, f.spec.labels);
    LabelSetsSize(service, f.spec.labels);
    LabelSetsKeys(service, f.spec.labels);
    BucketSizes();
    if f.spec.metricType == "histogram" {
      HistogramSeriesExact(f.name, sets);
    } else {
      ImageSize(WithName(f.name), sets);
      assert |sets| * 1 == |sets|;
    }
  }

  /** The series of a family carry its sample names. */
  lemma {:induction false} FamilySeriesNames(service: Service, f: Family)
    ensures forall x | x in FamilySeries(service, f) :: x.0 in SampleNames(f)
  {
  }

  lemma {:induction false} CatalogSeriesNames(service: Service, catalog: seq<Family>, x: Series) returns (k: nat)
    requires x in CatalogSeries(service, catalog)
    ensures k < |catalog| && x in FamilySeries(service, catalog[k])
  {
    var n := |catalog| - 1;
    if x in FamilySeries(service, catalog[n]) {
      k := n;
    } else {
      k := CatalogSeriesNames(service, catalog[..n], x);
    }
  }

  lemma {:induction false} CatalogSeriesExact(service: Service, catalog: seq<Family>)
    requires AllCounted(service, catalog)
    ensures TheoreticalTotal(service.pairs, catalog) == Some(|CatalogSeries(service, catalog)|)
  {
    if |catalog| == 0 {
    } else {
      FrontCounted(service, catalog);
      CatalogSeriesExact(service, catalog[..|catalog| - 1]);
      LastExact(service, catalog[|catalog| - 1]);
      CatalogDisjoint(service, catalog);
      ExactStep(service.pairs, catalog,
                CatalogSeries(service, catalog[..|catalog| - 1]), FamilySeries(service, catalog[|catalog| - 1]));
    }
  }

  lemma {:induction false} ExactStep(pairs: set<(string, string)>, catalog: seq<Family>, x: set<Series>, y: set<Series>)
    requires |catalog| > 0 && x !! y
    requires TheoreticalTotal(pairs, catalog[..|catalog| - 1]) == Some(|x|)
    requires TheoreticalSeries(pairs, catalog[|catalog| - 1].spec) == Some(|y|)
    ensures TheoreticalTotal(pairs, catalog) == Some(|x + y|)
  {
    UnionSize(x, y);
    TotalStep(pairs, catalog, |x|, |y|);
  }

  lemma {:induction false} LastExact(service: Service, f: Family)
    requires Counted(service, f)
    ensures TheoreticalSeries(service.pairs, f.spec) == Some(|FamilySeries(service, f)|)
  {
    FamilySeriesExact(service, f);
  }

  lemma {:induction false} CatalogDisjoint(service: Service, catalog: seq<Family>)
    requires NamesDisjoint(catalog) && |catalog| > 0
    ensures CatalogSeries(service, catalog[..|catalog| - 1]) !! FamilySeries(service, catalog[|catalog| - 1])
  {
    var front, last := catalog[..|catalog| - 1], catalog[|catalog| - 1];
    FamilySeriesNames(service, last);
    forall x | x in CatalogSeries(service, front) ensures x !in FamilySeries(service, last) {
      var k := CatalogSeriesNames(service, front, x);
      FamilySeriesNames(service, front[k]);
      assert front[k] == catalog[k];
      assert SampleNames(catalog[k]) !! SampleNames(catalog[|catalog| - 1]);
    }
  }

  // ----- the saturated document

  function ZeroSample(x: Series): Sample {
    Sample(x.0, x.1, 0.0)
  }

  ghost function Owner(catalog: seq<Family>, name: string): Family
    requires name in MetadataNames(catalog)
  {
    var i :| 0 <= i < |catalog| && MetadataName(catalog[i]) == name;
    catalog[i]
  }

  ghost function FullDocument(catalog: seq<Family>, series: seq<Series>): Document {
    Document(
      map n | n in MetadataNames(catalog) :: Owner(catalog, n).spec.metricType,
      map n | n in MetadataNames(catalog) :: "help",
      map n | n in MetadataNames(catalog) && Owner(catalog, n).spec.unit.Some? :: Owner(catalog, n).spec.unit.value,
      Map((x: Series) => ZeroSample(x), series))
  }

  lemma {:induction false} OwnerAgrees(catalog: seq<Family>, i: nat)
    requires MetadataAgrees(catalog) && i < |catalog|
    ensures MetadataName(catalog[i]) in MetadataNames(catalog)
    ensures var owner := Owner(catalog, MetadataName(catalog[i]));
            owner.spec.metricType == catalog[i].spec.metricType && owner.spec.unit == catalog[i].spec.unit
  {
  }

  lemma {:induction false} FullMetadata(catalog: seq<Family>, series: seq<Series>, i: nat)
    requires MetadataAgrees(catalog) && i < |catalog|
    ensures MetadataOk(FullDocument(catalog, series), catalog[i])
  {
    OwnerAgrees(catalog, i);
  }

  // ----- its samples satisfy the label rules

  lemma {:induction false} ChoicesValues(service: string, labels: seq<LabelSpec>, m: Labels, k: nat)
    requires DistinctLabels(labels) && m in Choices(service, labels) && k < |labels| && !Relational(labels[k].name)
    ensures labels[k].name in m && m[labels[k].name] in Domain(service, labels[k])
  {
    var n := |labels| - 1;
    var front, entry := labels[..n], labels[n];
    if Relational(entry.name) {
      ChoicesValues(service, front, m, k);
    } else {
      var m', v :| m' in Choices(service, front) && v in Domain(service, entry) && m == m'[entry.name := v];
      if k < n {
        ChoicesValues(service, front, m', k);
        assert labels[k].name != entry.name;
      }
    }
  }

  lemma {:induction false} FreeValues(service: Service, labels: seq<LabelSpec>, m: Labels, k: nat)
    requires DistinctLabels(labels) && Combinations(service.pairs, labels).Some?
    requires m in LabelSets(service, labels) && k < |labels| && !Relational(labels[k].name)
    ensures labels[k].name in m && m[labels[k].name] in Domain(service.name, labels[k])
  {
    if HasRouteMethod(labels) {
      var c, p :| c in Choices(service.name, labels) && p in service.pairs && m == AssignPair()(c, p);
      ChoicesValues(service.name, labels, c, k);
    } else {
      ChoicesValues(service.name, labels, m, k);
    }
  }

  lemma {:induction false} PairValues(service: Service, labels: seq<LabelSpec>, m: Labels)
    requires Combinations(service.pairs, labels).Some? && m in LabelSets(service, labels)
    ensures "route" in m || "method" in m ==>
      "route" in m && "method" in m && (m["route"], m["method"]) in service.pairs
  {
    if HasRouteMethod(labels) {
      var c, p :| c in Choices(service.name, labels) && p in service.pairs && m == AssignPair()(c, p);
      assert (m["route"], m["method"]) == p;
    } else {
      LabelSetsKeys(service, labels);
    }
  }

  lemma {:induction false} EntryAccepted(service: Service, labels: seq<LabelSpec>, m: Labels, k: nat)
    requires DistinctLabels(labels) && Combinations(service.pairs, labels).Some? && m in LabelSets(service, labels)
    requires k < |labels| && EntryAdmits(service, labels[k])
    ensures labels[k].name in m && LabelOk(service, labels[k], m[labels[k].name])
  {
    LabelSetsKeys(service, labels);
    assert labels[k].name in LabelNames(labels);
    if Relational(labels[k].name) {
      PairValues(service, labels, m);
      RoutesCover(service, (m["route"], m["method"]));
    } else {
      FreeValues(service, labels, m, k);
    }
  }

  lemma {:induction false} RoutesCover(service: Service, p: (string, string))
    requires p in service.pairs
    ensures p.0 in Routes(service)
  {
  }

  lemma {:induction false} LabelSetAccepted(service: Service, f: Family, m: Labels)
    requires Ready(service, f) && m in LabelSets(service, f.spec.labels)
    ensures m.Keys == LabelNames(f.spec.labels) && PairOk(service, m) && LabelsOk(service, f.spec.labels, m)
  {
    LabelSetsKeys(service, f.spec.labels);
    PairValues(service, f.spec.labels, m);
    forall k | 0 <= k < |f.spec.labels|
      ensures LabelOk(service, f.spec.labels[k], m[f.spec.labels[k].name])
    {
      EntryAccepted(service, f.spec.labels, m, k);
    }
  }

  lemma {:induction false} BoundaryAccepted(service: Service, f: Family, m: Labels, le: string)
    requires Ready(service, f) && m in LabelSets(service, f.spec.labels) && "le" !in LabelNames(f.spec.labels)
    ensures
      var l := m["le" := le];
      l.Keys == LabelNames(f.spec.labels) + {"le"} && PairOk(service, l) && LabelsOk(service, f.spec.labels, l)
  {
    var l := m["le" := le];
    LabelSetAccepted(service, f, m);
    forall k | 0 <= k < |f.spec.labels| ensures LabelOk(service, f.spec.labels[k], l[f.spec.labels[k].name]) {
      assert f.spec.labels[k].name in LabelNames(f.spec.labels);
    }
  }

  lemma {:induction false} PlainAccepted(service: Service, f: Family, name: string, m: Labels)
    requires Ready(service, f) && m in LabelSets(service, f.spec.labels)
    requires Required(f.spec, name) == LabelNames(f.spec.labels)
    ensures SampleOk(service, f.spec, ZeroSample((name, m)))
  {
    LabelSetAccepted(service, f, m);
  }

  /** Every series of a family is an acceptable sample. */
  lemma {:induction false} FamilySeriesAccepted(service: Service, f: Family, x: Series)
    requires Ready(service, f) && x in FamilySeries(service, f)
    ensures SampleOk(service, f.spec, ZeroSample(x))
  {
    var sets := LabelSets(service, f.spec.labels);
    if f.spec.metricType == "histogram" {
      RequiredNames(f);
      if x in Image2(WithBoundary(f.name + "_bucket"), sets, Members(BucketLabels)) {
        var m, le :| m in sets && le in Members(BucketLabels) && x == WithBoundary(f.name + "_bucket")(m, le);
        BoundaryAccepted(service, f, m, le);
      } else {
        assert x.1 in sets;
        PlainAccepted(service, f, x.0, x.1);
      }
    } else {
      assert x.1 in sets;
      PlainAccepted(service, f, x.0, x.1);
    }
  }

  // ----- the saturated document passes validate_catalog

  /** The document lists every series of the catalog once, with value zero. */
  ghost predicate Full(service: Service, doc: Document) {
    && DistinctSeries(doc.samples)
    && (forall s | s in doc.samples ::
          s == ZeroSample(SeriesOf(s)) && SeriesOf(s) in CatalogSeries(service, service.catalog))
    && (forall x | x in CatalogSeries(service, service.catalog) :: ZeroSample(x) in doc.samples)
  }

  lemma {:induction false} FullDocumentIsFull(service: Service, series: seq<Series>)
    requires NoRepeats(series) && Members(series) == CatalogSeries(service, service.catalog)
    ensures Full(service, FullDocument(service.catalog, series))
    ensures |FullDocument(service.catalog, series).samples| == |series|
  {
    var doc := FullDocument(service.catalog, series);
    forall s | s in doc.samples
      ensures s == ZeroSample(SeriesOf(s)) && SeriesOf(s) in CatalogSeries(service, service.catalog)
    {
      var i :| 0 <= i < |series| && doc.samples[i] == s;
      assert SeriesOf(s) == series[i];
      assert series[i] in Members(series);
    }
    forall x | x in CatalogSeries(service, service.catalog) ensures ZeroSample(x) in doc.samples {
      assert x in series;
      var i :| 0 <= i < |series| && series[i] == x;
      assert doc.samples[i] == ZeroSample(x);
    }
  }

  lemma {:induction false} SampleOwner(service: Service, doc: Document, i: nat, s: Sample)
    requires Saturable(service) && Full(service, doc) && i < |service.catalog|
    requires s in doc.samples && s.name in SampleNames(service.catalog[i])
    ensures SeriesOf(s) in FamilySeries(service, service.catalog[i])
  {
    var k := CatalogSeriesNames(service, service.catalog, SeriesOf(s));
    FamilySeriesNames(service, service.catalog[k]);
    assert k == i;
  }

  lemma {:induction false} SomeLabelSet(service: Service, f: Family) returns (m: Labels)
    requires Ready(service, f)
    ensures m in LabelSets(service, f.spec.labels)
  {
    LabelSetsSize(service, f.spec.labels);
    var sets := LabelSets(service, f.spec.labels);
    assert sets != {};
    m :| m in sets;
  }

  lemma {:induction false} FullFamily(service: Service, doc: Document, i: nat)
    requires Saturable(service) && Full(service, doc) && i < |service.catalog| && MetadataOk(doc, service.catalog[i])
    ensures FamilyOk(service, doc, service.catalog[i])
  {
    var f := service.catalog[i];
    assert Ready(service, f);
    var m := SomeLabelSet(service, f);
    var name := if f.spec.metricType == "histogram" then f.name + "_sum" else f.name;
    assert WithName(name)(m) in FamilySeries(service, f);
    CatalogSeriesMember(service, service.catalog, i);
    assert ZeroSample((name, m)) in doc.samples;
    forall s | s in doc.samples && s.name in SampleNames(f) ensures SampleOk(service, f.spec, s) {
      SampleOwner(service, doc, i, s);
      FamilySeriesAccepted(service, f, SeriesOf(s));
    }
  }

  lemma {:induction false} FullCatalog(service: Service, doc: Document)
    requires Saturable(service) && Full(service, doc)
    requires doc.types.Keys == MetadataNames(service.catalog)
    requires forall i | 0 <= i < |service.catalog| :: MetadataOk(doc, service.catalog[i])
    ensures CatalogOk(service, doc)
  {
    forall f | f in service.catalog ensures FamilyOk(service, doc, f) {
      var i :| 0 <= i < |service.catalog| && service.catalog[i] == f;
      FullFamily(service, doc, i);
    }
    forall s | s in doc.samples ensures Known(service.catalog, s.name) {
      var k := CatalogSeriesNames(service, service.catalog, SeriesOf(s));
      FamilySeriesNames(service, service.catalog[k]);
    }
  }

  // ----- and audit_histograms

  /** The bucket samples of one label set, in the order of the labels. */
  function CanonicalGroup(name: string, m: Labels): seq<Sample> {
    seq(|BucketLabels|, k requires 0 <= k < |BucketLabels| => ZeroSample((name, m["le" := BucketLabels[k]])))
  }

  const Zeros: seq<real> := [0.0, 0.0, 0.0, 0.0, 0.0, 0.0, 0.0, 0.0, 0.0, 0.0, 0.0, 0.0, 0.0, 0.0, 0.0]

  lemma {:induction false} CanonicalValid(parse: Parse, name: string, m: Labels)
    requires ReadsBuckets(parse)
    ensures GroupValid(parse, CanonicalGroup(name, m), Some(0.0), Some(0.0))
  {
    var g := CanonicalGroup(name, m);
    var d, e := Decoded(parse, g), Expected(Zeros);
    forall k | 0 <= k < |BucketLabels| ensures d[k] == e[k] {
      assert g[k].labels["le"] == BucketLabels[k];
      KnownSpelling(parse, k);
    }
    assert d == e;
    assert Arranged(parse, g, Zeros);
    ArrangedValid(parse, g, Some(0.0), Some(0.0), Zeros);
  }

  lemma {:induction false} KnownSpelling(parse: Parse, k: nat)
    requires ReadsBuckets(parse) && k < |BucketLabels|
    ensures BoundaryOf(parse, BucketLabels[k]) == if k < |BucketBounds| then Finite(BucketBounds[k]) else PosInf
  {
    BucketLabelsDistinct();
    assert BucketLabels[14] == "+Inf";
  }

  lemma {:induction false} FilterNoRepeats<T(!new)>(keep: T -> bool, s: seq<T>)
    requires NoRepeats(s)
    ensures NoRepeats(Filter(keep, s))
  {
    if |s| == 0 {
    } else {
      FilterNoRepeats(keep, s[..|s| - 1]);
      assert s[|s| - 1] !in s[..|s| - 1];
    }
  }

  /** A zero bucket sample of one of the label sets. */
  ghost predicate IsBucket(name: string, sets: set<Labels>, s: Sample) {
    exists m, le :: m in sets && le in BucketLabels && s == ZeroSample(WithBoundary(name)(m, le))
  }

  lemma {:induction false} BucketIsSample(service: Service, doc: Document, i: nat, m: Labels, le: string)
    requires Saturable(service) && Full(service, doc) && i < |service.catalog| && IsHistogram(service.catalog[i])
    requires m in LabelSets(service, service.catalog[i].spec.labels) && le in BucketLabels
    ensures ZeroSample(WithBoundary(service.catalog[i].name + "_bucket")(m, le)) in Buckets(doc, service.catalog[i])
  {
    var f := service.catalog[i];
    var s := ZeroSample(WithBoundary(f.name + "_bucket")(m, le));
    assert le in Members(BucketLabels);
    assert SeriesOf(s) in FamilySeries(service, f);
    CatalogSeriesMember(service, service.catalog, i);
  }

  lemma {:induction false} BucketSamples(service: Service, doc: Document, i: nat, s: Sample)
    requires Saturable(service) && Full(service, doc) && i < |service.catalog| && IsHistogram(service.catalog[i])
    ensures s in Buckets(doc, service.catalog[i]) <==>
            IsBucket(service.catalog[i].name + "_bucket", LabelSets(service, service.catalog[i].spec.labels), s)
  {
    var f := service.catalog[i];
    var sets := LabelSets(service, f.spec.labels);
    if s in Buckets(doc, f) {
      HistogramNames(f.name);
      SampleOwner(service, doc, i, s);
      var m, le :| m in sets && le in Members(BucketLabels) && SeriesOf(s) == WithBoundary(f.name + "_bucket")(m, le);
    }
    if IsBucket(f.name + "_bucket", sets, s) {
      var m, le :| m in sets && le in BucketLabels && s == ZeroSample(WithBoundary(f.name + "_bucket")(m, le));
      BucketIsSample(service, doc, i, m, le);
    }
  }

  lemma {:induction false} PartIsSample(service: Service, doc: Document, i: nat, name: string, m: Labels)
    requires Saturable(service) && Full(service, doc) && i < |service.catalog| && IsHistogram(service.catalog[i])
    requires name == service.catalog[i].name + "_sum" || name == service.catalog[i].name + "_count"
    requires m in LabelSets(service, service.catalog[i].spec.labels)
    ensures ZeroSample((name, m)) in Named(doc, name)
  {
    var f := service.catalog[i];
    var s := ZeroSample((name, m));
    assert SeriesOf(s) == WithName(name)(m);
    assert SeriesOf(s) in FamilySeries(service, f);
    CatalogSeriesMember(service, service.catalog, i);
  }

  lemma {:induction false} SampleIsPart(service: Service, doc: Document, i: nat, name: string, s: Sample)
    requires Saturable(service) && Full(service, doc) && i < |service.catalog| && IsHistogram(service.catalog[i])
    requires name == service.catalog[i].name + "_sum" || name == service.catalog[i].name + "_count"
    requires s in Named(doc, name)
    ensures s == ZeroSample((name, s.labels)) && s.labels in LabelSets(service, service.catalog[i].spec.labels)
  {
    HistogramNames(service.catalog[i].name);
    SampleOwner(service, doc, i, s);
  }

  lemma {:induction false} PartSamples(service: Service, doc: Document, i: nat, name: string, s: Sample)
    requires Saturable(service) && Full(service, doc) && i < |service.catalog| && IsHistogram(service.catalog[i])
    requires name == service.catalog[i].name + "_sum" || name == service.catalog[i].name + "_count"
    ensures s in Named(doc, name) <==>
      s == ZeroSample((name, s.labels)) && s.labels in LabelSets(service, service.catalog[i].spec.labels)
  {
    if s in Named(doc, name) {
      SampleIsPart(service, doc, i, name, s);
    }
    if s == ZeroSample((name, s.labels)) && s.labels in LabelSets(service, service.catalog[i].spec.labels) {
      PartIsSample(service, doc, i, name, s.labels);
    }
  }

  lemma {:induction false} PartMap(service: Service, doc: Document, i: nat, name: string)
    requires Saturable(service) && Full(service, doc) && i < |service.catalog| && IsHistogram(service.catalog[i])
    requires name == service.catalog[i].name + "_sum" || name == service.catalog[i].name + "_count"
    ensures
      var sets := LabelSets(service, service.catalog[i].spec.labels);
      ValueMap(Named(doc, name)).Keys == sets && forall m | m in sets :: Get(ValueMap(Named(doc, name)), m) == Some(0.0)
  {
    var sets := LabelSets(service, service.catalog[i].spec.labels);
    var part := Named(doc, name);
    forall s ensures s in part <==> s == ZeroSample((name, s.labels)) && s.labels in sets {
      PartSamples(service, doc, i, name, s);
    }
    ValueMapMeaning(part);
    forall m | m in sets ensures ValueMap(part).Keys >= {m} && ValueMap(part)[m] == 0.0 {
      assert ZeroSample((name, m)) in part;
    }
    assert ValueMap(part).Keys == sets;
  }

  lemma {:induction false} FullBases(service: Service, doc: Document, i: nat)
    requires Saturable(service) && Full(service, doc) && i < |service.catalog| && IsHistogram(service.catalog[i])
    ensures Bases(Buckets(doc, service.catalog[i])) == LabelSets(service, service.catalog[i].spec.labels)
  {
    var f := service.catalog[i];
    assert Ready(service, f);
    var sets, buckets := LabelSets(service, f.spec.labels), Buckets(doc, f);
    LabelSetsKeys(service, f.spec.labels);
    forall s ensures s in buckets <==>
      exists m, le :: m in sets && le in BucketLabels && s == ZeroSample(WithBoundary(f.name + "_bucket")(m, le))
    {
      BucketSamples(service, doc, i, s);
    }
    BasesOfImage(f.name + "_bucket", sets, buckets);
  }

  lemma {:induction false} BaseOfZero(name: string, m: Labels, le: string)
    requires "le" !in m
    ensures Base(ZeroSample(WithBoundary(name)(m, le))) == m
  {
  }

  lemma {:induction false} BasesOfImage(name: string, sets: set<Labels>, buckets: seq<Sample>)
    requires forall m | m in sets :: "le" !in m
    requires forall s :: s in buckets <==> IsBucket(name, sets, s)
    ensures Bases(buckets) == sets
  {
    forall s | s in buckets ensures Base(s) in sets {
      var m, le :| m in sets && le in BucketLabels && s == ZeroSample(WithBoundary(name)(m, le));
      BaseOfZero(name, m, le);
    }
    forall m | m in sets ensures m in Bases(buckets) {
      var le := BucketLabels[14];
      var s := ZeroSample(WithBoundary(name)(m, le));
      assert le in BucketLabels;
      assert IsBucket(name, sets, s);
      BaseOfZero(name, m, le);
      assert s in buckets;
    }
  }

  lemma {:induction false} FullGroup(service: Service, doc: Document, i: nat, m: Labels)
    requires Saturable(service) && Full(service, doc) && i < |service.catalog| && IsHistogram(service.catalog[i])
    requires m in LabelSets(service, service.catalog[i].spec.labels)
    ensures multiset(Group(Buckets(doc, service.catalog[i]), m))
      == multiset(CanonicalGroup(service.catalog[i].name + "_bucket", m))
  {
    var f := service.catalog[i];
    assert Ready(service, f);
    var sets, name := LabelSets(service, f.spec.labels), f.name + "_bucket";
    var g, h := Group(Buckets(doc, f), m), CanonicalGroup(name, m);
    LabelSetsKeys(service, f.spec.labels);
    forall s ensures s in g <==> s in h {
      BucketSamples(service, doc, i, s);
      GroupMember(doc, f, sets, m, s);
    }
    assert Members(g) == Members(h);
    DistinctSamples(doc.samples);
    FilterNoRepeats((s: Sample) => s.name == name, doc.samples);
    FilterNoRepeats((s: Sample) => Base(s) == m, Buckets(doc, f));
    CanonicalDistinct(name, m);
    SameElements(g, h);
  }

  lemma {:induction false} CanonicalMember(name: string, m: Labels, s: Sample)
    ensures s in CanonicalGroup(name, m) <==>
            exists le :: le in BucketLabels && s == ZeroSample(WithBoundary(name)(m, le))
  {
    var g := CanonicalGroup(name, m);
    if le :| le in BucketLabels && s == ZeroSample(WithBoundary(name)(m, le)) {
      var k :| 0 <= k < |BucketLabels| && BucketLabels[k] == le;
      assert g[k] == s;
    }
    if s in g {
      var k :| 0 <= k < |BucketLabels| && g[k] == s;
      assert BucketLabels[k] in BucketLabels && s == ZeroSample(WithBoundary(name)(m, BucketLabels[k]));
    }
  }

  lemma {:induction false} GroupMember(doc: Document, f: Family, sets: set<Labels>, m: Labels, s: Sample)
    requires m in sets && forall l | l in sets :: "le" !in l
    requires s in Buckets(doc, f) <==> IsBucket(f.name + "_bucket", sets, s)
    ensures s in Group(Buckets(doc, f), m) <==> s in CanonicalGroup(f.name + "_bucket", m)
  {
    BaseOfBucket(f.name + "_bucket", sets, m, s);
    CanonicalMember(f.name + "_bucket", m, s);
  }

  lemma {:induction false} BaseOfBucket(name: string, sets: set<Labels>, m: Labels, s: Sample)
    requires m in sets && forall l | l in sets :: "le" !in l
    ensures IsBucket(name, sets, s) && Base(s) == m <==>
            exists le :: le in BucketLabels && s == ZeroSample(WithBoundary(name)(m, le))
  {
    if IsBucket(name, sets, s) && Base(s) == m {
      var l, le :| l in sets && le in BucketLabels && s == ZeroSample(WithBoundary(name)(l, le));
      assert Base(s) == l;
    }
    if le :| le in BucketLabels && s == ZeroSample(WithBoundary(name)(m, le)) {
      assert Base(s) == m;
    }
  }

  lemma {:induction false} DistinctSamples(samples: seq<Sample>)
    requires DistinctSeries(samples)
    ensures NoRepeats(samples)
  {
  }

  lemma {:induction false} CanonicalDistinct(name: string, m: Labels)
    ensures NoRepeats(CanonicalGroup(name, m))
  {
    BucketLabelsDistinct();
    var h := CanonicalGroup(name, m);
    forall a, b | 0 <= a < b < |h| ensures h[a] != h[b] {
      assert h[a].labels["le"] == BucketLabels[a] && h[b].labels["le"] == BucketLabels[b];
    }
  }

  lemma {:induction false} FullHistogram(parse: Parse, service: Service, doc: Document, i: nat)
    requires ReadsBuckets(parse) && Saturable(service) && Full(service, doc) && i < |service.catalog|
      && IsHistogram(service.catalog[i])
    ensures FamilyHistogramOk(parse, doc, service.catalog[i])
  {
    var f := service.catalog[i];
    assert Ready(service, f);
    var sets := LabelSets(service, f.spec.labels);
    FullBases(service, doc, i);
    PartMap(service, doc, i, f.name + "_sum");
    PartMap(service, doc, i, f.name + "_count");
    var some := SomeLabelSet(service, f);
    forall s | s in Buckets(doc, f) ensures "le" in s.labels {
      BucketSamples(service, doc, i, s);
    }
    forall m | m in sets ensures GroupOk(parse, doc, f, m) {
      FullGroup(service, doc, i, m);
      CanonicalValid(parse, f.name + "_bucket", m);
      GroupOrderFree(parse, Group(Buckets(doc, f), m), CanonicalGroup(f.name + "_bucket", m), Some(0.0), Some(0.0));
    }
  }

  lemma {:induction false} FullHistograms(parse: Parse, service: Service, doc: Document)
    requires ReadsBuckets(parse) && Saturable(service) && Full(service, doc)
    ensures HistogramsOk(parse, service, doc)
  {
    forall i | 0 <= i < |service.catalog| ensures Passes(parse, doc, service.catalog[i]) {
      if IsHistogram(service.catalog[i]) {
        FullHistogram(parse, service, doc, i);
      }
    }
  }

  lemma {:induction false} FullDocumentCatalog(service: Service, series: seq<Series>)
    requires Saturable(service) && Full(service, FullDocument(service.catalog, series))
    ensures CatalogOk(service, FullDocument(service.catalog, series))
  {
    forall i | 0 <= i < |service.catalog| ensures MetadataOk(FullDocument(service.catalog, series),
      service.catalog[i]) {
      FullMetadata(service.catalog, series, i);
    }
    FullCatalog(service, FullDocument(service.catalog, series));
  }

  /** The bound is attained: some document passes both audits with exactly as many
      series as the closed form says. */
  lemma {:induction false} BoundAttained(parse: Parse, service: Service) returns (doc: Document)
    requires ReadsBuckets(parse) && Saturable(service)
    ensures DistinctSeries(doc.samples) && CatalogOk(service, doc) && HistogramsOk(parse, service, doc)
    ensures TheoreticalTotal(service.pairs, service.catalog) == Some(|doc.samples|)
  {
    var series := Enumerate(CatalogSeries(service, service.catalog));
    doc := FullDocument(service.catalog, series);
    FullDocumentIsFull(service, series);
    assert AllCounted(service, service.catalog);
    CatalogSeriesExact(service, service.catalog);
    FullDocumentCatalog(service, series);
    FullHistograms(parse, service, doc);
  }
}

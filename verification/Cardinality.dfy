/** The bounded-cardinality claim: no accepted document has more series than the
    closed form allows. */
module Cardinality {
  import opened Outcome
  import opened Sequences
  import opened Counting
  import opened Metrics
  import opened CatalogCheck
  import opened HistogramAudit
  import opened HistogramFamilies

  type Series = (string, Labels)

  function SeriesOf(s: Sample): Series {
    (s.name, s.labels)
  }

  /** The parser rejects documents that repeat a series. */
  ghost predicate DistinctSeries(samples: seq<Sample>) {
    forall i, j | 0 <= i < j < |samples| :: SeriesOf(samples[i]) != SeriesOf(samples[j])
  }

  predicate Relational(name: string) {
    name == "route" || name == "method"
  }

  // ----- all label sets of a family

  function Domain(service: string, entry: LabelSpec): set<string> {
    if entry.name == "service" then {service}
    else if entry.allowed.Some? then entry.allowed.value
    else {}
  }

  ghost function Assign(name: string): (Labels, string) -> Labels {
    (m: Labels, v: string) => m[name := v]
  }

  /** Every choice of values for the labels that are not route or method. */
  ghost function Choices(service: string, labels: seq<LabelSpec>): set<Labels> {
    if |labels| == 0 then {map[]}
    else
      var front, entry := Choices(service, labels[..|labels| - 1]), labels[|labels| - 1];
      if Relational(entry.name) then front else Image2(Assign(entry.name), front, Domain(service, entry))
  }

  ghost function AssignPair(): (Labels, (string, string)) -> Labels {
    (m: Labels, p: (string, string)) => m["route" := p.0]["method" := p.1]
  }

  /** Every label set a family may expose, apart from histogram boundaries. */
  ghost function LabelSets(service: Service, labels: seq<LabelSpec>): set<Labels> {
    var choices := Choices(service.name, labels);
    if HasRouteMethod(labels) then Image2(AssignPair(), choices, service.pairs) else choices
  }

  function FreeNames(labels: seq<LabelSpec>): set<string> {
    set n | n in LabelNames(labels) && !Relational(n)
  }

  lemma {:induction false} LastName(labels: seq<LabelSpec>)
    requires |labels| > 0
    ensures LabelNames(labels) == LabelNames(labels[..|labels| - 1]) + {labels[|labels| - 1].name}
    ensures DistinctLabels(labels) ==> labels[|labels| - 1].name !in LabelNames(labels[..|labels| - 1])
  {
    var front := labels[..|labels| - 1];
    forall i | 0 <= i < |front| ensures front[i].name in LabelNames(labels) {
      assert labels[i] == front[i];
    }
    assert labels[|labels| - 1].name in LabelNames(labels);
  }

  lemma {:induction false} ChoiceKeys(service: string, labels: seq<LabelSpec>)
    ensures forall m | m in Choices(service, labels) :: m.Keys == FreeNames(labels)
  {
    if |labels| == 0 {
    } else {
      ChoiceKeys(service, labels[..|labels| - 1]);
      LastName(labels);
    }
  }

  lemma {:induction false} AssignInjective(name: string, x: set<Labels>, y: set<string>)
    requires forall m | m in x :: name !in m
    ensures Injective2(Assign(name), x, y)
  {
    forall m, m', v, v' | m in x && m' in x && v in y && v' in y && m[name := v] == m'[name := v']
      ensures m == m' && v == v'
    {
      assert m[name := v][name] == v && m'[name := v'][name] == v';
      assert m == m[name := v] - {name};
      assert m' == m'[name := v'] - {name};
    }
  }

  lemma {:induction false} AssignPairInjective(x: set<Labels>, y: set<(string, string)>)
    requires forall m | m in x :: "route" !in m && "method" !in m
    ensures Injective2(AssignPair(), x, y)
  {
    var f := AssignPair();
    forall m, m', p, p' | m in x && m' in x && p in y && p' in y && f(m, p) == f(m', p')
      ensures m == m' && p == p'
    {
      assert f(m, p)["route"] == p.0 && f(m, p)["method"] == p.1;
      assert f(m', p')["route"] == p'.0 && f(m', p')["method"] == p'.1;
      assert m == f(m, p) - {"route", "method"};
      assert m' == f(m', p') - {"route", "method"};
    }
  }

  lemma {:induction false} ChoicesSize(service: string, start: nat, labels: seq<LabelSpec>)
    requires DistinctLabels(labels) && Product(start, labels).Some?
    ensures |Choices(service, labels)| * start == Product(start, labels).value
  {
    if |labels| == 0 {
    } else {
      var front, entry := labels[..|labels| - 1], labels[|labels| - 1];
      ChoicesSize(service, start, front);
      ChoiceKeys(service, front);
      LastName(labels);
      if !Relational(entry.name) {
        AssignInjective(entry.name, Choices(service, front), Domain(service, entry));
        Image2Size(Assign(entry.name), Choices(service, front), Domain(service, entry));
        DomainSize(service, entry);
        Rotate(|Choices(service, front)|, Factor(entry).value, start);
      }
    }
  }

  lemma {:induction false} DomainSize(service: string, entry: LabelSpec)
    requires !Relational(entry.name) && Factor(entry).Some?
    ensures |Domain(service, entry)| == Factor(entry).value
  {
  }

  lemma {:induction false} Rotate(a: nat, b: nat, c: nat)
    ensures (a * b) * c == (a * c) * b
  {
  }

  /** theoretical_family_series counts the label sets. */
  lemma {:induction false} LabelSetsSize(service: Service, labels: seq<LabelSpec>)
    requires DistinctLabels(labels) && Combinations(service.pairs, labels).Some?
    ensures |LabelSets(service, labels)| == Combinations(service.pairs, labels).value
  {
    var choices := Choices(service.name, labels);
    ChoiceKeys(service.name, labels);
    if HasRouteMethod(labels) {
      ChoicesSize(service.name, |service.pairs|, labels);
      AssignPairInjective(choices, service.pairs);
      Image2Size(AssignPair(), choices, service.pairs);
    } else {
      ChoicesSize(service.name, 1, labels);
    }
  }

  // ----- accepted label sets are among them

  function Restrict(m: Labels, names: set<string>): Labels {
    map k | k in m && k in names :: m[k]
  }

  lemma {:induction false} ChoicesMember(service: Service, start: nat, labels: seq<LabelSpec>, m: Labels)
    requires DistinctLabels(labels) && Product(start, labels).Some?
    requires LabelNames(labels) <= m.Keys && LabelsOk(service, labels, m)
    ensures Restrict(m, FreeNames(labels)) in Choices(service.name, labels)
  {
    if |labels| == 0 {
      assert Restrict(m, FreeNames(labels)) == map[];
    } else {
      var front, entry := labels[..|labels| - 1], labels[|labels| - 1];
      LastName(labels);
      assert forall i | 0 <= i < |front| :: front[i] == labels[i];
      ChoicesMember(service, start, front, m);
      var r := Restrict(m, FreeNames(front));
      if Relational(entry.name) {
        assert FreeNames(labels) == FreeNames(front);
      } else {
        assert LabelOk(service, entry, m[entry.name]);
        assert m[entry.name] in Domain(service.name, entry);
        assert Restrict(m, FreeNames(labels)) == Assign(entry.name)(r, m[entry.name]);
      }
    }
  }

  lemma {:induction false} LabelSetsMember(service: Service, labels: seq<LabelSpec>, m: Labels)
    requires DistinctLabels(labels) && Combinations(service.pairs, labels).Some?
    requires LabelNames(labels) <= m.Keys && LabelsOk(service, labels, m) && PairOk(service, m)
    ensures Restrict(m, LabelNames(labels)) in LabelSets(service, labels)
  {
    var r := Restrict(m, FreeNames(labels));
    if HasRouteMethod(labels) {
      ChoicesMember(service, |service.pairs|, labels, m);
      var p := (m["route"], m["method"]);
      assert Restrict(m, LabelNames(labels)) == AssignPair()(r, p);
    } else {
      ChoicesMember(service, 1, labels, m);
      assert FreeNames(labels) == LabelNames(labels);
    }
  }

  // ----- all series of a family and of a catalog

  ghost function WithBoundary(name: string): (Labels, string) -> Series {
    (m: Labels, le: string) => (name, m["le" := le])
  }

  ghost function WithName(name: string): Labels -> Series {
    (m: Labels) => (name, m)
  }

  ghost function FamilySeries(service: Service, f: Family): set<Series> {
    var sets := LabelSets(service, f.spec.labels);
    if f.spec.metricType == "histogram" then HistogramSeries(f.name, sets) else Image(WithName(f.name), sets)
  }

  ghost function HistogramSeries(name: string, sets: set<Labels>): set<Series> {
    Image2(WithBoundary(name + "_bucket"), sets, Members(BucketLabels))
    + Image(WithName(name + "_sum"), sets)
    + Image(WithName(name + "_count"), sets)
  }

  ghost function CatalogSeries(service: Service, catalog: seq<Family>): set<Series> {
    if |catalog| == 0 then {}
    else CatalogSeries(service, catalog[..|catalog| - 1]) + FamilySeries(service, catalog[|catalog| - 1])
  }

  lemma {:induction false} FamilySeriesBound(service: Service, f: Family)
    requires DistinctLabels(f.spec.labels) && TheoreticalSeries(service.pairs, f.spec).Some?
    ensures |FamilySeries(service, f)| <= TheoreticalSeries(service.pairs, f.spec).value
  {
    var sets := LabelSets(service, f.spec.labels);
    LabelSetsSize(service, f.spec.labels);
    BucketSizes();
    if f.spec.metricType == "histogram" {
      HistogramSeriesBound(f.name, sets);
    } else {
      ImageSize(WithName(f.name), sets);
      assert |sets| * 1 == |sets|;
    }
  }

  lemma {:induction false} BucketSizes()
    ensures |BucketLabels| == 15 && |BucketBounds| == 14
    ensures SamplesPerCombination("histogram") == 17
  {
  }

  lemma {:induction false} HistogramSeriesBound(name: string, sets: set<Labels>)
    ensures |HistogramSeries(name, sets)| <= |sets| * 17
  {
    var labels := Members(BucketLabels);
    BucketSizes();
    MembersSize(BucketLabels);
    ThreeParts(WithBoundary(name + "_bucket"), WithName(name + "_sum"), WithName(name + "_count"), sets, labels);
  }

  lemma {:induction false} ThreeParts(
    f: (Labels, string) -> Series, g: Labels -> Series, h: Labels -> Series, sets: set<Labels>, labels: set<string>)
    requires |labels| <= 15
    ensures |Image2(f, sets, labels) + Image(g, sets) + Image(h, sets)| <= |sets| * 17
  {
    Image2Size(f, sets, labels);
    ImageSize(g, sets);
    ImageSize(h, sets);
    UnionSize(Image2(f, sets, labels), Image(g, sets));
    UnionSize(Image2(f, sets, labels) + Image(g, sets), Image(h, sets));
    MulMonotone(|sets|, |labels|, 15);
  }

  lemma {:induction false} MulMonotone(n: nat, a: nat, b: nat)
    requires a <= b
    ensures n * a <= n * b
  {
  }

  lemma {:induction false} CatalogSeriesBound(service: Service, catalog: seq<Family>)
    requires forall i | 0 <= i < |catalog| :: DistinctLabels(catalog[i].spec.labels)
    requires TheoreticalTotal(service.pairs, catalog).Some?
    ensures |CatalogSeries(service, catalog)| <= TheoreticalTotal(service.pairs, catalog).value
  {
    if |catalog| == 0 {
    } else {
      var front, last := catalog[..|catalog| - 1], catalog[|catalog| - 1];
      CatalogSeriesBound(service, front);
      FamilySeriesBound(service, last);
      UnionSize(CatalogSeries(service, front), FamilySeries(service, last));
    }
  }

  // ----- every accepted sample is one of them

  lemma {:induction false} Suffixes(name: string)
    ensures EndsWith(name + "_bucket", "_bucket")
    ensures !EndsWith(name + "_sum", "_bucket") && !EndsWith(name + "_count", "_bucket")
  {
    var s, t := name + "_sum", name + "_count";
    assert s[|s| - 1] == 'm';
    assert t[|t| - 2] == 'n';
  }

  lemma {:induction false} BoundaryKnown(parse: Parse, doc: Document, f: Family, s: Sample)
    requires FamilyHistogramOk(parse, doc, f) && s in Buckets(doc, f)
    ensures "le" in s.labels && s.labels["le"] in BucketLabels
  {
    assert Base(s) in Bases(Buckets(doc, f));
    var group := Group(Buckets(doc, f), Base(s));
    assert GroupOk(parse, doc, f, Base(s));
    ValidEncodings(parse, group, Get(ValueMap(Counts(doc, f)), Base(s)), Get(ValueMap(Sums(doc, f)), Base(s)), s);
  }

  lemma {:induction false} ValidEncodings(
    parse: Parse, group: seq<Sample>, count: Option<real>, total: Option<real>, s: Sample)
    requires GroupValid(parse, group, count, total) && s in group && "le" in s.labels
    ensures s.labels["le"] in BucketLabels
  {
    var i :| 0 <= i < |group| && group[i] == s;
    GroupEncodings(parse, group, i);
  }

  lemma {:induction false} GroupEncodings(parse: Parse, group: seq<Sample>, i: nat)
    requires i < |group| && Encodings(Sort(Decoded(parse, group))) == BucketLabels
    ensures EntryOf(parse, group[i]).encoded in BucketLabels
  {
    var decoded := Decoded(parse, group);
    var sorted := Sort(decoded);
    SortPermutes(decoded);
    assert decoded[i] in multiset(decoded);
    assert decoded[i] in multiset(sorted);
    var k :| 0 <= k < |sorted| && sorted[k] == decoded[i];
    assert Encodings(sorted)[k] == sorted[k].encoded;
  }

  lemma {:induction false} PlainSampleMember(service: Service, f: Family, s: Sample)
    requires DistinctLabels(f.spec.labels) && Combinations(service.pairs, f.spec.labels).Some?
    requires SampleOk(service, f.spec, s) && s.labels.Keys == LabelNames(f.spec.labels)
    ensures s.labels in LabelSets(service, f.spec.labels)
  {
    LabelSetsMember(service, f.spec.labels, s.labels);
    assert Restrict(s.labels, LabelNames(f.spec.labels)) == s.labels;
  }

  lemma {:induction false} BucketSampleMember(service: Service, f: Family, s: Sample)
    requires DistinctLabels(f.spec.labels) && Combinations(service.pairs, f.spec.labels).Some?
    requires SampleOk(service, f.spec, s) && s.labels.Keys == LabelNames(f.spec.labels) + {"le"}
    requires s.labels["le"] in BucketLabels
    ensures (s.name, s.labels) in Image2(WithBoundary(s.name), LabelSets(service, f.spec.labels), Members(BucketLabels))
  {
    var m := Restrict(s.labels, LabelNames(f.spec.labels));
    LabelSetsMember(service, f.spec.labels, s.labels);
    assert m["le" := s.labels["le"]] == s.labels;
    assert (s.name, s.labels) == WithBoundary(s.name)(m, s.labels["le"]);
  }

  lemma {:induction false} HistogramSampleMember(service: Service, f: Family, s: Sample)
    requires f.spec.metricType == "histogram"
    requires DistinctLabels(f.spec.labels) && Combinations(service.pairs, f.spec.labels).Some?
    requires SampleOk(service, f.spec, s) && s.name in SampleNames(f)
    requires s.name == f.name + "_bucket" ==> "le" in s.labels && s.labels["le"] in BucketLabels
    ensures SeriesOf(s) in HistogramSeries(f.name, LabelSets(service, f.spec.labels))
  {
    RequiredNames(f);
    if s.name == f.name + "_bucket" {
      BucketSampleMember(service, f, s);
    } else {
      NamedMember(service, f, s);
    }
  }

  lemma {:induction false} KnownBoundary(parse: Parse, doc: Document, f: Family, s: Sample)
    requires FamilyHistogramOk(parse, doc, f) && s in doc.samples && s.name == f.name + "_bucket"
    ensures "le" in s.labels && s.labels["le"] in BucketLabels
  {
    assert s in Buckets(doc, f);
    BoundaryKnown(parse, doc, f, s);
  }

  lemma {:induction false} RequiredNames(f: Family)
    requires f.spec.metricType == "histogram"
    ensures Required(f.spec, f.name + "_bucket") == LabelNames(f.spec.labels) + {"le"}
    ensures Required(f.spec, f.name + "_sum") == LabelNames(f.spec.labels)
    ensures Required(f.spec, f.name + "_count") == LabelNames(f.spec.labels)
  {
    Suffixes(f.name);
  }

  lemma {:induction false} NamedMember(service: Service, f: Family, s: Sample)
    requires DistinctLabels(f.spec.labels) && Combinations(service.pairs, f.spec.labels).Some?
    requires SampleOk(service, f.spec, s) && s.labels.Keys == LabelNames(f.spec.labels)
    ensures SeriesOf(s) in Image(WithName(s.name), LabelSets(service, f.spec.labels))
  {
    PlainSampleMember(service, f, s);
    assert SeriesOf(s) == WithName(s.name)(s.labels);
  }

  lemma {:induction false} SampleMember(parse: Parse, service: Service, doc: Document, f: Family, s: Sample)
    requires DistinctLabels(f.spec.labels) && TheoreticalSeries(service.pairs, f.spec).Some?
    requires SampleOk(service, f.spec, s) && Passes(parse, doc, f)
    requires s in doc.samples && s.name in SampleNames(f)
    ensures SeriesOf(s) in FamilySeries(service, f)
  {
    if f.spec.metricType == "histogram" {
      if s.name == f.name + "_bucket" {
        KnownBoundary(parse, doc, f, s);
      }
      HistogramSampleMember(service, f, s);
    } else {
      NamedMember(service, f, s);
    }
  }

  lemma {:induction false} CatalogSeriesMember(service: Service, catalog: seq<Family>, k: nat)
    requires k < |catalog|
    ensures FamilySeries(service, catalog[k]) <= CatalogSeries(service, catalog)
  {
    if k == |catalog| - 1 {
    } else {
      CatalogSeriesMember(service, catalog[..|catalog| - 1], k);
    }
  }

  lemma {:induction false} SampleInCatalog(parse: Parse, service: Service, doc: Document, s: Sample)
    requires WellFormed(service) && TheoreticalTotal(service.pairs, service.catalog).Some?
    requires CatalogOk(service, doc) && HistogramsOk(parse, service, doc) && s in doc.samples
    ensures SeriesOf(s) in CatalogSeries(service, service.catalog)
  {
    assert Known(service.catalog, s.name);
    var k :| 0 <= k < |service.catalog| && s.name in SampleNames(service.catalog[k]);
    var f := service.catalog[k];
    assert f in service.catalog;
    assert FamilyOk(service, doc, f);
    TotalDefined(service.pairs, service.catalog, k);
    assert Passes(parse, doc, service.catalog[k]);
    SampleMember(parse, service, doc, f, s);
    CatalogSeriesMember(service, service.catalog, k);
  }

  lemma {:induction false} TotalDefined(pairs: set<(string, string)>, catalog: seq<Family>, k: nat)
    requires k < |catalog| && TheoreticalTotal(pairs, catalog).Some?
    ensures TheoreticalSeries(pairs, catalog[k].spec).Some?
  {
    if k == |catalog| - 1 {
    } else {
      TotalDefined(pairs, catalog[..|catalog| - 1], k);
    }
  }

  /** An accepted document has at most as many series as the closed form says. */
  lemma {:induction false} SeriesBound(parse: Parse, service: Service, doc: Document)
    requires WellFormed(service) && TheoreticalTotal(service.pairs, service.catalog).Some?
    requires DistinctSeries(doc.samples)
    requires CatalogOk(service, doc) && HistogramsOk(parse, service, doc)
    ensures |doc.samples| <= TheoreticalTotal(service.pairs, service.catalog).value
  {
    var series := Map((s: Sample) => SeriesOf(s), doc.samples);
    assert NoRepeats(series);
    MembersSize(series);
    forall x | x in Members(series) ensures x in CatalogSeries(service, service.catalog) {
      var i :| 0 <= i < |series| && series[i] == x;
      SampleInCatalog(parse, service, doc, doc.samples[i]);
    }
    SubsetSize(Members(series), CatalogSeries(service, service.catalog));
    CatalogSeriesBound(service, service.catalog);
  }
}

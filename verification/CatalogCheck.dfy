/** validate_catalog: every family of a scrape is checked against its closed labels. */
module CatalogCheck {
  import opened Outcome
  import opened Metrics

  predicate EndsWith(s: string, suffix: string) {
    |suffix| <= |s| && s[|s| - |suffix|..] == suffix
  }

  function SampleNames(f: Family): set<string> {
    if f.spec.metricType == "histogram" then {f.name + "_bucket", f.name + "_sum", f.name + "_count"}
    else {f.name}
  }

  /** The HELP/TYPE name of a family: counters drop their _total suffix there. */
  function MetadataName(f: Family): string {
    if f.spec.metricType == "counter" && EndsWith(f.name, "_total") then f.name[..|f.name| - 6] else f.name
  }

  function Routes(service: Service): set<string> {
    set p | p in service.pairs :: p.0
  }

  function Required(spec: FamilySpec, sampleName: string): set<string> {
    LabelNames(spec.labels)
    + if spec.metricType == "histogram" && EndsWith(sampleName, "_bucket") then {"le"} else {}
  }

  function MetadataNames(catalog: seq<Family>): set<string> {
    set i | 0 <= i < |catalog| :: MetadataName(catalog[i])
  }

  predicate Known(catalog: seq<Family>, name: string) {
    exists i :: 0 <= i < |catalog| && name in SampleNames(catalog[i])
  }

  // ----- what an error-free document satisfies

  predicate LabelOk(service: Service, entry: LabelSpec, value: string) {
    && (entry.name == "service" ==> value == service.name)
    && (entry.name == "route" ==> value in Routes(service))
    && (entry.allowed.Some? ==> value in entry.allowed.value)
  }

  predicate PairOk(service: Service, labels: Labels) {
    "route" in labels && "method" in labels ==> (labels["route"], labels["method"]) in service.pairs
  }

  predicate LabelsOk(service: Service, specs: seq<LabelSpec>, labels: Labels)
    requires LabelNames(specs) <= labels.Keys
  {
    forall i | 0 <= i < |specs| :: LabelOk(service, specs[i], labels[specs[i].name])
  }

  predicate SampleOk(service: Service, spec: FamilySpec, s: Sample) {
    && s.labels.Keys == Required(spec, s.name)
    && PairOk(service, s.labels)
    && LabelsOk(service, spec.labels, s.labels)
    && !(s.value < 0.0 && spec.metricType in {"counter", "histogram"})
  }

  predicate MetadataOk(doc: Document, f: Family) {
    var name := MetadataName(f);
    && name in doc.types && doc.types[name] == f.spec.metricType
    && name in doc.help && doc.help[name] != ""
    && f.spec.unit == if name in doc.units then Some(doc.units[name]) else None
  }

  predicate FamilyOk(service: Service, doc: Document, f: Family) {
    && MetadataOk(doc, f)
    && (exists s :: s in doc.samples && s.name in SampleNames(f))
    && (forall s | s in doc.samples && s.name in SampleNames(f) :: SampleOk(service, f.spec, s))
  }

  predicate CatalogOk(service: Service, doc: Document) {
    && doc.types.Keys == MetadataNames(service.catalog)
    && (forall f | f in service.catalog :: FamilyOk(service, doc, f))
    && (forall s | s in doc.samples :: Known(service.catalog, s.name))
  }

  /** The verdict depends on the samples only as a set. */
  lemma {:induction false} CatalogOrderFree(service: Service, d: Document, e: Document)
    requires multiset(d.samples) == multiset(e.samples)
    requires d.types == e.types && d.help == e.help && d.units == e.units
    ensures CatalogOk(service, d) <==> CatalogOk(service, e)
  {
    SameMembers(d.samples, e.samples);
    forall f | f in service.catalog ensures FamilyOk(service, d, f) <==> FamilyOk(service, e, f) {
      if s :| s in d.samples && s.name in SampleNames(f) {
        assert s in e.samples;
      }
      if s :| s in e.samples && s.name in SampleNames(f) {
        assert s in d.samples;
      }
    }
  }

  lemma {:induction false} SameMembers<T>(a: seq<T>, b: seq<T>)
    requires multiset(a) == multiset(b)
    ensures forall x :: x in a <==> x in b
  {
    assert forall x :: x in a <==> x in multiset(a);
    assert forall x :: x in b <==> x in multiset(b);
  }

  // ----- the issues

  datatype Issue =
    | MetadataSet(missing: set<string>, extra: set<string>)
    | WrongType(metadata: string)
    | NoHelp(family: string)
    | WrongUnit(family: string)
    | UnexpectedUnit(family: string)
    | NoSamples(family: string)
    | WrongLabels(sample: Sample)
    | WrongPair(sample: Sample)
    | WrongService(value: string)
    | UnknownRoute(value: string)
    | ValueNotAllowed(sample: Sample, labelName: string)
    | Negative(sample: Sample)
    | UnknownSamples(names: set<string>)

  // ----- which issues a document deserves

  /** The branch of the label tests that reports an entry. */
  function LabelIssue(service: Service, entry: LabelSpec, s: Sample): Option<Issue>
    requires entry.name in s.labels
  {
    var value := s.labels[entry.name];
    if entry.name == "service" && value != service.name then Some(WrongService(value))
    else if entry.name == "route" && value !in Routes(service) then Some(UnknownRoute(value))
    else if entry.allowed.Some? && value !in entry.allowed.value then Some(ValueNotAllowed(s, entry.name))
    else None
  }

  predicate LabelsReport(service: Service, specs: seq<LabelSpec>, s: Sample, e: Issue)
    requires LabelNames(specs) <= s.labels.Keys
  {
    exists i :: 0 <= i < |specs| && LabelIssue(service, specs[i], s) == Some(e)
  }

  predicate SampleReports(service: Service, spec: FamilySpec, s: Sample, e: Issue) {
    if s.labels.Keys != Required(spec, s.name) then
      e == WrongLabels(s)
    else
      || (e == WrongPair(s) && !PairOk(service, s.labels))
      || LabelsReport(service, spec.labels, s, e)
      || (e == Negative(s) && s.value < 0.0 && spec.metricType in {"counter", "histogram"})
  }

  function UnitOf(doc: Document, f: Family): Option<string> {
    if MetadataName(f) in doc.units then Some(doc.units[MetadataName(f)]) else None
  }

  predicate MetadataReports(doc: Document, f: Family, e: Issue) {
    var name := MetadataName(f);
    || (e == WrongType(name) && (name !in doc.types || doc.types[name] != f.spec.metricType))
    || (e == NoHelp(f.name) && (name !in doc.help || doc.help[name] == ""))
    || (e == WrongUnit(f.name) && f.spec.unit != None && UnitOf(doc, f) != f.spec.unit)
    || (e == UnexpectedUnit(f.name) && f.spec.unit == None && UnitOf(doc, f) != None)
  }

  predicate FamilyReports(service: Service, doc: Document, f: Family, e: Issue) {
    || MetadataReports(doc, f, e)
    || (e == NoSamples(f.name) && !exists s :: s in doc.samples && s.name in SampleNames(f))
    || exists s :: s in doc.samples && s.name in SampleNames(f) && SampleReports(service, f.spec, s, e)
  }

  function UnknownNames(service: Service, doc: Document): set<string> {
    set s | s in doc.samples && !Known(service.catalog, s.name) :: s.name
  }

  predicate Reports(service: Service, doc: Document, e: Issue) {
    var expected := MetadataNames(service.catalog);
    || (e == MetadataSet(expected - doc.types.Keys, doc.types.Keys - expected) && doc.types.Keys != expected)
    || (exists f :: f in service.catalog && FamilyReports(service, doc, f, e))
    || (e == UnknownSamples(UnknownNames(service, doc)) && UnknownNames(service, doc) != {})
  }

  // ----- an acceptable document deserves none

  lemma {:induction false} LabelSilent(service: Service, entry: LabelSpec, s: Sample)
    requires entry.name in s.labels
    ensures LabelIssue(service, entry, s) == None <==> LabelOk(service, entry, s.labels[entry.name])
  {
  }

  lemma {:induction false} SampleSilent(service: Service, spec: FamilySpec, s: Sample)
    ensures SampleOk(service, spec, s) <==> forall e :: !SampleReports(service, spec, s, e)
  {
    if s.labels.Keys != Required(spec, s.name) {
      assert SampleReports(service, spec, s, WrongLabels(s));
    } else {
      if !PairOk(service, s.labels) {
        assert SampleReports(service, spec, s, WrongPair(s));
      }
      if i :| 0 <= i < |spec.labels| && !LabelOk(service, spec.labels[i], s.labels[spec.labels[i].name]) {
        LabelSilent(service, spec.labels[i], s);
        var e := LabelIssue(service, spec.labels[i], s).value;
        assert SampleReports(service, spec, s, e);
      }
      if s.value < 0.0 && spec.metricType in {"counter", "histogram"} {
        assert SampleReports(service, spec, s, Negative(s));
      }
    }
  }

  lemma {:induction false} MetadataSilent(doc: Document, f: Family)
    ensures MetadataOk(doc, f) <==> forall e :: !MetadataReports(doc, f, e)
  {
    if forall e :: !MetadataReports(doc, f, e) {
      assert !MetadataReports(doc, f, WrongType(MetadataName(f)));
      assert !MetadataReports(doc, f, NoHelp(f.name));
      assert !MetadataReports(doc, f, WrongUnit(f.name));
      assert !MetadataReports(doc, f, UnexpectedUnit(f.name));
    }
  }

  lemma {:induction false} FamilySilent(service: Service, doc: Document, f: Family)
    ensures FamilyOk(service, doc, f) <==> forall e :: !FamilyReports(service, doc, f, e)
  {
    MetadataSilent(doc, f);
    if FamilyOk(service, doc, f) {
      forall e ensures !FamilyReports(service, doc, f, e) {
        forall s | s in doc.samples && s.name in SampleNames(f) ensures !SampleReports(service, f.spec, s, e) {
          SampleSilent(service, f.spec, s);
        }
      }
    }
    if forall e :: !FamilyReports(service, doc, f, e) {
      forall e ensures !MetadataReports(doc, f, e) {
        assert !FamilyReports(service, doc, f, e);
      }
      assert !FamilyReports(service, doc, f, NoSamples(f.name));
      forall s | s in doc.samples && s.name in SampleNames(f) ensures SampleOk(service, f.spec, s) {
        forall e ensures !SampleReports(service, f.spec, s, e) {
          assert !FamilyReports(service, doc, f, e);
        }
        SampleSilent(service, f.spec, s);
      }
    }
  }

  /** A document fits its catalog exactly when it deserves no issue. */
  lemma {:induction false} CatalogSilent(service: Service, doc: Document)
    ensures CatalogOk(service, doc) <==> forall e :: !Reports(service, doc, e)
  {
    if CatalogOk(service, doc) {
      forall e ensures !Reports(service, doc, e) {
        forall f | f in service.catalog ensures !FamilyReports(service, doc, f, e) {
          FamilySilent(service, doc, f);
        }
      }
    }
    if forall e :: !Reports(service, doc, e) {
      var expected := MetadataNames(service.catalog);
      assert !Reports(service, doc, MetadataSet(expected - doc.types.Keys, doc.types.Keys - expected));
      assert !Reports(service, doc, UnknownSamples(UnknownNames(service, doc)));
      forall f | f in service.catalog ensures FamilyOk(service, doc, f) {
        forall e ensures !FamilyReports(service, doc, f, e) {
          assert !Reports(service, doc, e);
        }
        FamilySilent(service, doc, f);
      }
      forall s | s in doc.samples ensures Known(service.catalog, s.name) {
        assert s.name !in UnknownNames(service, doc);
      }
    }
  }

  // ----- the loops

  method CheckLabels(service: Service, specs: seq<LabelSpec>, s: Sample) returns (errors: seq<Issue>)
    requires LabelNames(specs) <= s.labels.Keys
    ensures forall e :: e in errors <==> LabelsReport(service, specs, s, e)
  {
    errors := [];
    for i := 0 to |specs|
      invariant forall e :: e in errors <==> exists k :: 0 <= k < i && LabelIssue(service, specs[k], s) == Some(e)
    {
      var entry := specs[i];
      assert entry.name in LabelNames(specs);
      var value := s.labels[entry.name];
      if entry.name == "service" && value != service.name {
        errors := errors + [WrongService(value)];
      } else if entry.name == "route" && value !in Routes(service) {
        errors := errors + [UnknownRoute(value)];
      } else if entry.allowed.Some? && value !in entry.allowed.value {
        errors := errors + [ValueNotAllowed(s, entry.name)];
      }
    }
  }

  method CheckSample(service: Service, spec: FamilySpec, s: Sample) returns (errors: seq<Issue>)
    ensures forall e :: e in errors <==> SampleReports(service, spec, s, e)
  {
    var required := LabelNames(spec.labels);
    if spec.metricType == "histogram" && EndsWith(s.name, "_bucket") {
      required := required + {"le"};
    }
    if s.labels.Keys != required {
      return [WrongLabels(s)];
    }
    errors := [];
    if {"route", "method"} <= s.labels.Keys {
      if (s.labels["route"], s.labels["method"]) !in service.pairs {
        errors := errors + [WrongPair(s)];
      }
    }
    var more := CheckLabels(service, spec.labels, s);
    errors := errors + more;
    if s.value < 0.0 && spec.metricType in {"counter", "histogram"} {
      errors := errors + [Negative(s)];
    }
  }

  method CheckMetadata(doc: Document, f: Family) returns (errors: seq<Issue>)
    ensures forall e :: e in errors <==> MetadataReports(doc, f, e)
  {
    errors := [];
    var name := MetadataName(f);
    if name !in doc.types || doc.types[name] != f.spec.metricType {
      errors := errors + [WrongType(name)];
    }
    if name !in doc.help || doc.help[name] == "" {
      errors := errors + [NoHelp(f.name)];
    }
    var unit := if name in doc.units then Some(doc.units[name]) else None;
    if f.spec.unit != None && unit != f.spec.unit {
      errors := errors + [WrongUnit(f.name)];
    }
    if f.spec.unit == None && unit != None {
      errors := errors + [UnexpectedUnit(f.name)];
    }
  }

  method CheckFamily(service: Service, doc: Document, f: Family) returns (errors: seq<Issue>)
    ensures forall e :: e in errors <==> FamilyReports(service, doc, f, e)
  {
    errors := CheckMetadata(doc, f);
    var names := SampleNames(f);
    var found := false;
    for i := 0 to |doc.samples|
      invariant found <==> exists k :: 0 <= k < i && doc.samples[k].name in names
      invariant forall e :: e in errors <==>
        || MetadataReports(doc, f, e)
        || exists k :: 0 <= k < i && doc.samples[k].name in names && SampleReports(service, f.spec, doc.samples[k], e)
    {
      var s := doc.samples[i];
      if s.name in names {
        found := true;
        var more := CheckSample(service, f.spec, s);
        errors := errors + more;
      }
    }
    if !found {
      errors := errors + [NoSamples(f.name)];
    }
  }

  method ValidateCatalog(service: Service, doc: Document) returns (errors: seq<Issue>)
    ensures forall e :: e in errors <==> Reports(service, doc, e)
    ensures errors == [] <==> CatalogOk(service, doc)
  {
    errors := [];
    var expected := MetadataNames(service.catalog);
    if doc.types.Keys != expected {
      errors := errors + [MetadataSet(expected - doc.types.Keys, doc.types.Keys - expected)];
    }
    for i := 0 to |service.catalog|
      invariant forall e :: e in errors <==>
        || (e == MetadataSet(expected - doc.types.Keys, doc.types.Keys - expected) && doc.types.Keys != expected)
        || exists k :: 0 <= k < i && FamilyReports(service, doc, service.catalog[k], e)
    {
      var more := CheckFamily(service, doc, service.catalog[i]);
      errors := errors + more;
    }
    var unknown := set s | s in doc.samples && !Known(service.catalog, s.name) :: s.name;
    if unknown != {} {
      errors := errors + [UnknownSamples(unknown)];
    }
    CatalogSilent(service, doc);
    if errors != [] {
      assert errors[0] in errors;
      assert Reports(service, doc, errors[0]);
    }
  }
}

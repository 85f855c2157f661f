/** audit_histograms over whole documents: parity of the bucket, sum and count
    label sets, and the algebra of every group. */
module HistogramFamilies {
  import opened Outcome
  import opened Sequences
  import opened Metrics
  import opened HistogramAudit

  function Named(doc: Document, name: string): seq<Sample> {
    Filter((s: Sample) => s.name == name, doc.samples)
  }

  function Buckets(doc: Document, f: Family): seq<Sample> { Named(doc, f.name + "_bucket") }
  function Sums(doc: Document, f: Family): seq<Sample> { Named(doc, f.name + "_sum") }
  function Counts(doc: Document, f: Family): seq<Sample> { Named(doc, f.name + "_count") }

  /** The labels of a bucket sample without its boundary. */
  function Base(s: Sample): Labels {
    s.labels - {"le"}
  }

  function Bases(buckets: seq<Sample>): set<Labels> {
    set s | s in buckets :: Base(s)
  }

  function Group(buckets: seq<Sample>, base: Labels): seq<Sample> {
    Filter((s: Sample) => Base(s) == base, buckets)
  }

  /** {sample.labels: sample.value for sample in samples} */
  function ValueMap(samples: seq<Sample>): map<Labels, real> {
    if |samples| == 0 then map[]
    else
      var last := samples[|samples| - 1];
      ValueMap(samples[..|samples| - 1])[last.labels := last.value]
  }

  function Get(m: map<Labels, real>, key: Labels): Option<real> {
    if key in m then Some(m[key]) else None
  }

  /** The lookup of le raises on a bucket without that label. */
  predicate Decodable(doc: Document, f: Family) {
    forall s | s in Buckets(doc, f) :: "le" in s.labels
  }

  predicate GroupOk(parse: Parse, doc: Document, f: Family, base: Labels) {
    GroupValid(parse, Group(Buckets(doc, f), base),
               Get(ValueMap(Counts(doc, f)), base), Get(ValueMap(Sums(doc, f)), base))
  }

  /** No error is reported for the family. */
  predicate HistogramOk(parse: Parse, doc: Document, f: Family) {
    var bases := Bases(Buckets(doc, f));
    && bases != {}
    && bases == ValueMap(Sums(doc, f)).Keys == ValueMap(Counts(doc, f)).Keys
    && forall base | base in bases :: GroupOk(parse, doc, f, base)
  }

  predicate IsHistogram(f: Family) {
    f.spec.metricType == "histogram"
  }

  predicate FamilyHistogramOk(parse: Parse, doc: Document, f: Family) {
    Decodable(doc, f) && HistogramOk(parse, doc, f)
  }

  /** Families of other types are skipped. */
  predicate Passes(parse: Parse, doc: Document, f: Family) {
    IsHistogram(f) ==> FamilyHistogramOk(parse, doc, f)
  }

  predicate HistogramsOk(parse: Parse, service: Service, doc: Document) {
    forall k | 0 <= k < |service.catalog| :: Passes(parse, doc, service.catalog[k])
  }

  /** Some family of the catalog is a histogram. */
  predicate AnyHistogram(catalog: seq<Family>) {
    |catalog| > 0 && (IsHistogram(catalog[|catalog| - 1]) || AnyHistogram(catalog[..|catalog| - 1]))
  }

  predicate AnyHistogramIn(scrapes: seq<(Service, Document)>) {
    |scrapes| > 0 && (AnyHistogram(scrapes[|scrapes| - 1].0.catalog) || AnyHistogramIn(scrapes[..|scrapes| - 1]))
  }

  /** Equal labels carry equal values. */
  ghost predicate Functional(samples: seq<Sample>) {
    forall s, t | s in samples && t in samples && s.labels == t.labels :: s.value == t.value
  }

  lemma {:induction false} ValueMapMeaning(samples: seq<Sample>)
    requires Functional(samples)
    ensures ValueMap(samples).Keys == set s | s in samples :: s.labels
    ensures forall s | s in samples :: ValueMap(samples)[s.labels] == s.value
  {
    if |samples| == 0 {
    } else {
      SplitLast(samples);
      ValueMapMeaning(samples[..|samples| - 1]);
    }
  }

  // ----- the loops

  datatype HistogramIssue =
    | NoLabelSets(family: string)
    | Parity(family: string)
    | BrokenAlgebra(family: string, base: Labels)

  predicate IsGrouping(grouped: map<Labels, seq<Sample>>, buckets: seq<Sample>) {
    grouped.Keys == Bases(buckets) && forall base | base in grouped :: grouped[base] == Group(buckets, base)
  }

  lemma {:induction false} GroupingStep(grouped: map<Labels, seq<Sample>>, buckets: seq<Sample>, i: nat)
    requires i < |buckets| && IsGrouping(grouped, buckets[..i])
    ensures
      var base := Base(buckets[i]);
      IsGrouping(grouped[base := Lookup(grouped, base) + [buckets[i]]], buckets[..i + 1])
  {
    var base := Base(buckets[i]);
    var after := grouped[base := Lookup(grouped, base) + [buckets[i]]];
    BasesStep(buckets, i);
    assert after.Keys == grouped.Keys + {base};
    if base !in grouped {
      NoGroup(buckets[..i], base);
    }
    forall b | b in after ensures after[b] == Group(buckets[..i + 1], b) {
      GroupStep(buckets, i, b);
    }
  }

  method GroupBuckets(buckets: seq<Sample>) returns (grouped: map<Labels, seq<Sample>>)
    ensures IsGrouping(grouped, buckets)
  {
    grouped := map[];
    for i := 0 to |buckets|
      invariant IsGrouping(grouped, buckets[..i])
    {
      var base := Base(buckets[i]);
      GroupingStep(grouped, buckets, i);
      grouped := grouped[base := Lookup(grouped, base) + [buckets[i]]];
    }
    assert buckets[..|buckets|] == buckets;
  }

  lemma {:induction false} GroupStep(buckets: seq<Sample>, i: nat, base: Labels)
    requires i < |buckets|
    ensures Group(buckets[..i + 1], base)
            == Group(buckets[..i], base) + if Base(buckets[i]) == base then [buckets[i]] else []
  {
    assert buckets[..i + 1][..i] == buckets[..i];
  }

  lemma {:induction false} BasesStep(buckets: seq<Sample>, i: nat)
    requires i < |buckets|
    ensures Bases(buckets[..i + 1]) == Bases(buckets[..i]) + {Base(buckets[i])}
  {
    assert buckets[..i + 1] == buckets[..i] + [buckets[i]];
  }

  lemma {:induction false} NoGroup(buckets: seq<Sample>, base: Labels)
    requires base !in Bases(buckets)
    ensures Group(buckets, base) == []
  {
    if |buckets| == 0 {
    } else {
      var front, last := buckets[..|buckets| - 1], buckets[|buckets| - 1];
      assert Base(last) in Bases(buckets);
      NoGroup(front, base);
    }
  }

  function Lookup(grouped: map<Labels, seq<Sample>>, base: Labels): seq<Sample> {
    if base in grouped then grouped[base] else []
  }

  predicate HasBoundaries(group: seq<Sample>) {
    forall s | s in group :: "le" in s.labels
  }

  predicate LookupOk(
    parse: Parse, grouped: map<Labels, seq<Sample>>, sums: map<Labels, real>, counts: map<Labels, real>, base: Labels)
  {
    GroupValid(parse, Lookup(grouped, base), Get(counts, base), Get(sums, base))
  }

  /** The loop over all label sets of one family: those whose algebra is broken; None
      where a bucket has no boundary. */
  method AuditGroups(
    parse: Parse, grouped: map<Labels, seq<Sample>>, sums: map<Labels, real>, counts: map<Labels, real>)
      returns (broken: Option<set<Labels>>)
    ensures broken.Some? <==> forall base | base in grouped.Keys :: HasBoundaries(Lookup(grouped, base))
    ensures broken.Some? ==>
      forall base :: base in broken.value <==>
        base in grouped.Keys + sums.Keys + counts.Keys && !LookupOk(parse, grouped, sums, counts, base)
  {
    var all := grouped.Keys + sums.Keys + counts.Keys;
    var todo, bad := all, {};
    while todo != {}
      invariant todo <= all
      invariant forall base :: base in bad <==> base in all - todo && !LookupOk(parse, grouped, sums, counts, base)
      invariant forall base | base in all - todo :: HasBoundaries(Lookup(grouped, base))
    {
      var base :| base in todo;
      ghost var done := all - todo;
      todo := todo - {base};
      assert all - todo == done + {base};
      if !HasBoundaries(Lookup(grouped, base)) {
        return None;
      }
      if !LookupOk(parse, grouped, sums, counts, base) {
        bad := bad + {base};
      }
    }
    assert all - todo == all;
    broken := Some(bad);
  }

  lemma {:induction false} BoundariesMeaning(doc: Document, f: Family, grouped: map<Labels, seq<Sample>>)
    requires IsGrouping(grouped, Buckets(doc, f))
    ensures Decodable(doc, f) <==> forall base | base in grouped.Keys :: HasBoundaries(Lookup(grouped, base))
  {
    var buckets := Buckets(doc, f);
    if forall base | base in grouped.Keys :: HasBoundaries(Lookup(grouped, base)) {
      forall s | s in buckets ensures "le" in s.labels {
        assert Base(s) in grouped.Keys;
        assert s in Lookup(grouped, Base(s));
      }
    }
  }

  /** Every label set of a bucket, a sum or a count. */
  function AllBases(doc: Document, f: Family): set<Labels> {
    Bases(Buckets(doc, f)) + ValueMap(Sums(doc, f)).Keys + ValueMap(Counts(doc, f)).Keys
  }

  /** The issues one family deserves. */
  predicate HistogramReports(parse: Parse, doc: Document, f: Family, e: HistogramIssue) {
    match e
    case NoLabelSets(family) => family == f.name && Bases(Buckets(doc, f)) == {}
    case Parity(family) =>
      family == f.name
      && !(Bases(Buckets(doc, f)) == ValueMap(Sums(doc, f)).Keys == ValueMap(Counts(doc, f)).Keys)
    case BrokenAlgebra(family, base) => family == f.name && base in AllBases(doc, f) && !GroupOk(parse, doc, f, base)
  }

  /** A family is fine exactly when it deserves no issue. */
  lemma {:induction false} HistogramSilent(parse: Parse, doc: Document, f: Family)
    ensures HistogramOk(parse, doc, f) <==> forall e :: !HistogramReports(parse, doc, f, e)
  {
    if forall e :: !HistogramReports(parse, doc, f, e) {
      assert !HistogramReports(parse, doc, f, NoLabelSets(f.name));
      assert !HistogramReports(parse, doc, f, Parity(f.name));
      forall base | base in Bases(Buckets(doc, f)) ensures GroupOk(parse, doc, f, base) {
        assert !HistogramReports(parse, doc, f, BrokenAlgebra(f.name, base));
      }
    }
  }

  lemma {:induction false} LookupMeans(
    parse: Parse, doc: Document, f: Family, grouped: map<Labels, seq<Sample>>, base: Labels)
    requires IsGrouping(grouped, Buckets(doc, f))
    ensures LookupOk(parse, grouped, ValueMap(Sums(doc, f)), ValueMap(Counts(doc, f)), base)
         == GroupOk(parse, doc, f, base)
  {
    if base !in grouped {
      NoGroup(Buckets(doc, f), base);
    }
    assert Lookup(grouped, base) == Group(Buckets(doc, f), base);
  }

  /** The issues in terms of the label sets found. */
  predicate Found(
    name: string, bases: set<Labels>, sums: set<Labels>, counts: set<Labels>, broken: set<Labels>, e: HistogramIssue)
  {
    match e
    case NoLabelSets(family) => family == name && bases == {}
    case Parity(family) => family == name && !(bases == sums == counts)
    case BrokenAlgebra(family, base) => family == name && base in broken
  }

  method CollectIssues(name: string, bases: set<Labels>, sums: set<Labels>, counts: set<Labels>, broken: set<Labels>)
      returns (errors: set<HistogramIssue>)
    ensures forall e :: e in errors <==> Found(name, bases, sums, counts, broken, e)
  {
    errors := {};
    if bases == {} {
      errors := errors + {NoLabelSets(name)};
    }
    if !(bases == sums == counts) {
      errors := errors + {Parity(name)};
    }
    errors := errors + (set base | base in broken :: BrokenAlgebra(name, base));
  }

  lemma {:induction false} FoundMeans(
    parse: Parse, doc: Document, f: Family, grouped: map<Labels, seq<Sample>>, broken: set<Labels>, e: HistogramIssue)
    requires IsGrouping(grouped, Buckets(doc, f))
    requires forall base :: base in broken <==>
      base in AllBases(doc, f) && !LookupOk(parse, grouped, ValueMap(Sums(doc, f)), ValueMap(Counts(doc, f)), base)
    ensures HistogramReports(parse, doc, f, e) <==>
            Found(f.name, grouped.Keys, ValueMap(Sums(doc, f)).Keys, ValueMap(Counts(doc, f)).Keys, broken, e)
  {
    if e.BrokenAlgebra? {
      LookupMeans(parse, doc, f, grouped, e.base);
    }
  }

  /** One family: the issues it deserves and the label sets observed; None stands for the
      KeyError of a bucket without boundary. */
  method AuditFamily(parse: Parse, doc: Document, f: Family)
      returns (errors: Option<set<HistogramIssue>>, observed: set<Labels>)
    ensures errors.Some? <==> Decodable(doc, f)
    ensures errors.Some? ==> forall e :: e in errors.value <==> HistogramReports(parse, doc, f, e)
    ensures errors.Some? ==> (errors.value == {} <==> HistogramOk(parse, doc, f))
    ensures observed == AllBases(doc, f)
  {
    var grouped := GroupBuckets(Buckets(doc, f));
    var sums, counts := ValueMap(Sums(doc, f)), ValueMap(Counts(doc, f));
    observed := grouped.Keys + sums.Keys + counts.Keys;
    var broken := AuditGroups(parse, grouped, sums, counts);
    BoundariesMeaning(doc, f, grouped);
    if broken.None? {
      return None, observed;
    }
    var found := CollectIssues(f.name, grouped.Keys, sums.Keys, counts.Keys, broken.value);
    forall e ensures e in found <==> HistogramReports(parse, doc, f, e) {
      FoundMeans(parse, doc, f, grouped, broken.value, e);
    }
    Emptiness(parse, doc, f, found);
    errors := Some(found);
  }

  lemma {:induction false} Emptiness(parse: Parse, doc: Document, f: Family, found: set<HistogramIssue>)
    requires forall e :: e in found <==> HistogramReports(parse, doc, f, e)
    ensures found == {} <==> HistogramOk(parse, doc, f)
  {
    HistogramSilent(parse, doc, f);
    if forall e :: !HistogramReports(parse, doc, f, e) {
      assert forall e :: e !in found;
    }
  }

  lemma {:induction false} AnyHistogramStep(catalog: seq<Family>, i: nat)
    requires i < |catalog|
    ensures AnyHistogram(catalog[..i + 1]) == (IsHistogram(catalog[i]) || AnyHistogram(catalog[..i]))
  {
    assert catalog[..i + 1][..i] == catalog[..i];
  }

  /** The audit of this family raises. */
  predicate Raises(doc: Document, f: Family) {
    IsHistogram(f) && !Decodable(doc, f)
  }

  /** passes and raises name the verdicts on the families of a document. */
  ghost predicate FamilyVerdicts(parse: Parse, doc: Document, passes: Family -> bool, raises: Family -> bool) {
    && (forall f {:trigger Passes(parse, doc, f)} :: passes(f) == Passes(parse, doc, f))
    && (forall f {:trigger Raises(doc, f)} :: raises(f) == Raises(doc, f))
  }

  method AuditEntry(
    parse: Parse, doc: Document, f: Family, ghost passes: Family -> bool, ghost raises: Family -> bool)
      returns (clean: Option<bool>, observed: bool)
    requires FamilyVerdicts(parse, doc, passes, raises)
    ensures clean == None <==> raises(f)
    ensures clean == Some(true) <==> passes(f)
    ensures clean == Some(true) ==> observed == IsHistogram(f)
  {
    assert passes(f) == Passes(parse, doc, f) && raises(f) == Raises(doc, f);
    if !IsHistogram(f) {
      return Some(true), false;
    }
    var errors, bases := AuditFamily(parse, doc, f);
    if errors.None? {
      return None, bases != {};
    }
    return Some(errors.value == {}), bases != {};
  }

  /** The verdict after a prefix of the catalog: no failure so far, and whether a
      histogram was seen. */
  ghost predicate Audited(passes: Family -> bool, catalog: seq<Family>, clean: bool, observed: bool) {
    && (clean <==> forall k | 0 <= k < |catalog| :: passes(catalog[k]))
    && (clean ==> observed == AnyHistogram(catalog))
  }

  lemma {:induction false} AuditedStep(
    passes: Family -> bool, catalog: seq<Family>, i: nat, clean: bool, observed: bool, good: bool, some: bool)
    requires i < |catalog| && Audited(passes, catalog[..i], clean, observed)
    requires good == passes(catalog[i]) && (good ==> some == IsHistogram(catalog[i]))
    ensures Audited(passes, catalog[..i + 1], clean && good, observed || some)
  {
    AnyHistogramStep(catalog, i);
    var now := catalog[..i + 1];
    assert now == catalog[..i] + [catalog[i]];
    assert forall k | 0 <= k < i :: now[k] == catalog[..i][k];
  }

  /** Some histogram of the document has a bucket without boundary. */
  predicate DocumentRaises(service: Service, doc: Document) {
    exists k :: 0 <= k < |service.catalog| && Raises(doc, service.catalog[k])
  }

  /** The loop over the families of one document. */
  method AuditFamilies(
    parse: Parse, catalog: seq<Family>, doc: Document, ghost passes: Family -> bool, ghost raises: Family -> bool)
      returns (ok: Option<bool>, observed: bool)
    requires FamilyVerdicts(parse, doc, passes, raises)
    ensures ok == None <==> exists k :: 0 <= k < |catalog| && raises(catalog[k])
    ensures ok.Some? ==> Audited(passes, catalog, ok.value, observed)
  {
    var clean := true;
    observed := false;
    for i := 0 to |catalog|
      invariant Audited(passes, catalog[..i], clean, observed)
      invariant forall k | 0 <= k < i :: !raises(catalog[k])
    {
      var good, some := AuditEntry(parse, doc, catalog[i], passes, raises);
      if good.None? {
        return None, observed;
      }
      AuditedStep(passes, catalog, i, clean, observed, good.value, some);
      clean := clean && good.value;
      observed := observed || some;
    }
    assert catalog[..|catalog|] == catalog;
    ok := Some(clean);
  }

  lemma {:induction false} RaisingFails(parse: Parse, service: Service, doc: Document)
    requires DocumentRaises(service, doc)
    ensures !HistogramsOk(parse, service, doc)
  {
    var k :| 0 <= k < |service.catalog| && Raises(doc, service.catalog[k]);
    assert !Passes(parse, doc, service.catalog[k]);
  }

  method AuditDocument(parse: Parse, service: Service, doc: Document) returns (ok: Option<bool>, observed: bool)
    ensures ok == None <==> DocumentRaises(service, doc)
    ensures ok == Some(true) <==> HistogramsOk(parse, service, doc)
    ensures ok == Some(true) ==> observed == AnyHistogram(service.catalog)
  {
    ghost var passes := (f: Family) => Passes(parse, doc, f);
    ghost var raises := (f: Family) => Raises(doc, f);
    ok, observed := AuditFamilies(parse, service.catalog, doc, passes, raises);
    if ok.None? {
      RaisingFails(parse, service, doc);
    } else {
      assert ok.value <==> forall k | 0 <= k < |service.catalog| :: Passes(parse, doc, service.catalog[k]);
    }
  }

  /** passes and raises name the verdicts on the scraped documents. */
  ghost predicate Verdicts(
    parse: Parse, scrapes: seq<(Service, Document)>, passes: nat -> bool, raises: nat -> bool)
  {
    && (forall k: nat {:trigger HistogramsOk(parse, scrapes[k].0, scrapes[k].1)} | k < |scrapes| ::
          passes(k) == HistogramsOk(parse, scrapes[k].0, scrapes[k].1))
    && (forall k: nat {:trigger DocumentRaises(scrapes[k].0, scrapes[k].1)} | k < |scrapes| ::
          raises(k) == DocumentRaises(scrapes[k].0, scrapes[k].1))
  }

  method AuditScrape(
    parse: Parse, scrapes: seq<(Service, Document)>, i: nat, ghost passes: nat -> bool, ghost raises: nat -> bool)
      returns (ok: Option<bool>, observed: bool)
    requires i < |scrapes| && Verdicts(parse, scrapes, passes, raises)
    ensures ok == None <==> raises(i)
    ensures ok == Some(true) <==> passes(i)
    ensures ok == Some(true) ==> observed == AnyHistogram(scrapes[i].0.catalog)
  {
    ok, observed := AuditDocument(parse, scrapes[i].0, scrapes[i].1);
  }

  lemma {:induction false} AnyHistogramInStep(scrapes: seq<(Service, Document)>, i: nat)
    requires i < |scrapes|
    ensures AnyHistogramIn(scrapes[..i + 1]) == (AnyHistogram(scrapes[i].0.catalog) || AnyHistogramIn(scrapes[..i]))
  {
    assert scrapes[..i + 1][..i] == scrapes[..i];
  }

  /** The loop over the scraped documents. */
  method AuditScrapes(
    parse: Parse, scrapes: seq<(Service, Document)>, ghost passes: nat -> bool, ghost raises: nat -> bool)
      returns (allValid: Option<bool>)
    requires Verdicts(parse, scrapes, passes, raises)
    ensures allValid == None <==> exists k: nat :: k < |scrapes| && raises(k)
    ensures allValid == Some(true) <==> (forall k: nat | k < |scrapes| :: passes(k)) && AnyHistogramIn(scrapes)
  {
    var clean, observed := true, false;
    var i: nat := 0;
    while i < |scrapes|
      invariant i <= |scrapes|
      invariant clean <==> forall k: nat | k < i :: passes(k)
      invariant clean ==> observed == AnyHistogramIn(scrapes[..i])
      invariant forall k: nat | k < i :: !raises(k)
    {
      AnyHistogramInStep(scrapes, i);
      var ok, some := AuditScrape(parse, scrapes, i, passes, raises);
      if ok.None? {
        return None;
      }
      clean := clean && ok.value;
      observed := observed || some;
      i := i + 1;
    }
    assert scrapes[..|scrapes|] == scrapes;
    allValid := Some(clean && observed);
  }

  /** Whether `all_valid` is set for a set of scraped documents; None where the
      original raises. */
  method AuditHistograms(parse: Parse, scrapes: seq<(Service, Document)>) returns (allValid: Option<bool>)
    ensures allValid == None <==> exists k: nat :: k < |scrapes| && DocumentRaises(scrapes[k].0, scrapes[k].1)
    ensures allValid == Some(true) <==>
            && (forall k: nat | k < |scrapes| :: HistogramsOk(parse, scrapes[k].0, scrapes[k].1))
            && AnyHistogramIn(scrapes)
  {
    ghost var passes := (k: nat) => k < |scrapes| && HistogramsOk(parse, scrapes[k].0, scrapes[k].1);
    ghost var raises := (k: nat) => k < |scrapes| && DocumentRaises(scrapes[k].0, scrapes[k].1);
    allValid := AuditScrapes(parse, scrapes, passes, raises);
    assert forall k: nat | k < |scrapes| :: passes(k) == HistogramsOk(parse, scrapes[k].0, scrapes[k].1);
    assert forall k: nat | k < |scrapes| :: raises(k) == DocumentRaises(scrapes[k].0, scrapes[k].1);
  }
}

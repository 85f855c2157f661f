/** Metric catalogs, parsed scrape documents and the closed-form bound on the
    number of series. */
module Metrics {
  import opened Outcome

  type Labels = map<string, string>

  datatype Sample = Sample(name: string, labels: Labels, value: real)

  /** A parsed exposition; the parser has already rejected duplicate series. */
  datatype Document = Document(
    types: map<string, string>,
    help: map<string, string>,
    units: map<string, string>,
    samples: seq<Sample>)

  /** One label of a family: a name and its allowed values, None when it is bounded
      by the route relation instead. */
  datatype LabelSpec = LabelSpec(name: string, allowed: Option<set<string>>)

  datatype FamilySpec = FamilySpec(metricType: string, labels: seq<LabelSpec>, unit: Option<string>)

  datatype Family = Family(name: string, spec: FamilySpec)

  /** What is fixed for one scrape target: its service name, the closed relation of
      route and method, and the families it exposes. */
  datatype Service = Service(name: string, pairs: set<(string, string)>, catalog: seq<Family>)

  /** The 14 finite histogram boundaries and +Inf, as they are spelled in labels. */
  const BucketLabels: seq<string> := [
    "0.001", "0.0025", "0.005", "0.01", "0.025", "0.05", "0.1", "0.25", "0.5", "1.0", "2.5", "5.0",
    "10.0", "30.0", "+Inf"]

  /** The finite boundaries in seconds. */
  const BucketBounds: seq<real> := [
    0.001, 0.0025, 0.005, 0.01, 0.025, 0.05, 0.1, 0.25, 0.5, 1.0, 2.5, 5.0, 10.0, 30.0]

  predicate DistinctLabels(labels: seq<LabelSpec>) {
    forall i, j | 0 <= i < j < |labels| :: labels[i].name != labels[j].name
  }

  predicate WellFormed(service: Service) {
    && (forall i, j | 0 <= i < j < |service.catalog| :: service.catalog[i].name != service.catalog[j].name)
    && (forall i | 0 <= i < |service.catalog| :: DistinctLabels(service.catalog[i].spec.labels))
  }

  function LabelNames(labels: seq<LabelSpec>): set<string> {
    set i | 0 <= i < |labels| :: labels[i].name
  }

  predicate HasRouteMethod(labels: seq<LabelSpec>) {
    "route" in LabelNames(labels) || "method" in LabelNames(labels)
  }

  // ----- theoretical_family_series

  /** The factor one label contributes; None where the original raises. */
  function Factor(entry: LabelSpec): Option<nat> {
    if entry.name == "route" || entry.name == "method" || entry.name == "service" then Some(1)
    else if entry.allowed.None? then None
    else Some(|entry.allowed.value|)
  }

  /** The accumulator of the loop over the labels, starting from a given value. */
  function Product(start: nat, labels: seq<LabelSpec>): Option<nat> {
    if |labels| == 0 then Some(start)
    else
      var front :- Product(start, labels[..|labels| - 1]);
      var last :- Factor(labels[|labels| - 1]);
      Some(front * last)
  }

  function Combinations(pairs: set<(string, string)>, labels: seq<LabelSpec>): Option<nat> {
    if HasRouteMethod(labels) && !({"route", "method"} <= LabelNames(labels)) then None
    else Product(if HasRouteMethod(labels) then |pairs| else 1, labels)
  }

  function SamplesPerCombination(metricType: string): nat {
    if metricType == "histogram" then |BucketBounds| + 3 else 1
  }

  function TheoreticalSeries(pairs: set<(string, string)>, spec: FamilySpec): Option<nat> {
    var combinations :- Combinations(pairs, spec.labels);
    Some(combinations * SamplesPerCombination(spec.metricType))
  }

  function TheoreticalTotal(pairs: set<(string, string)>, catalog: seq<Family>): Option<nat> {
    if |catalog| == 0 then Some(0)
    else
      var front :- TheoreticalTotal(pairs, catalog[..|catalog| - 1]);
      var last :- TheoreticalSeries(pairs, catalog[|catalog| - 1].spec);
      Some(front + last)
  }

  lemma {:induction false} TotalStep(pairs: set<(string, string)>, catalog: seq<Family>, a: nat, b: nat)
    requires |catalog| > 0
    requires TheoreticalTotal(pairs, catalog[..|catalog| - 1]) == Some(a)
    requires TheoreticalSeries(pairs, catalog[|catalog| - 1].spec) == Some(b)
    ensures TheoreticalTotal(pairs, catalog) == Some(a + b)
  {
  }

  /** theoretical_family_series, with its accumulator loop. */
  method TheoreticalFamilySeries(pairs: set<(string, string)>, spec: FamilySpec) returns (r: Option<nat>)
    ensures r == TheoreticalSeries(pairs, spec)
  {
    var names := LabelNames(spec.labels);
    var hasRouteMethod := "route" in names || "method" in names;
    if hasRouteMethod && !({"route", "method"} <= names) {
      return None;
    }
    var start: nat := if hasRouteMethod then |pairs| else 1;
    var combinations := start;
    for i := 0 to |spec.labels|
      invariant Product(start, spec.labels[..i]) == Some(combinations)
    {
      ProductStep(start, spec.labels, i);
      var entry := spec.labels[i];
      if entry.name != "route" && entry.name != "method" {
        if entry.name == "service" {
          combinations := combinations * 1;
        } else if entry.allowed.None? {
          return None;
        } else {
          combinations := combinations * |entry.allowed.value|;
        }
      }
    }
    assert spec.labels[..|spec.labels|] == spec.labels;
    var samplesPerCombination := if spec.metricType == "histogram" then |BucketBounds| + 3 else 1;
    r := Some(combinations * samplesPerCombination);
  }

  lemma {:induction false} ProductPrefix(start: nat, labels: seq<LabelSpec>, i: nat)
    requires i <= |labels| && Product(start, labels).Some?
    ensures Product(start, labels[..i]).Some?
    decreases |labels|
  {
    if i == |labels| {
      assert labels[..i] == labels;
    } else {
      var front := labels[..|labels| - 1];
      ProductPrefix(start, front, i);
      assert front[..i] == labels[..i];
    }
  }

  lemma {:induction false} ProductStep(start: nat, labels: seq<LabelSpec>, i: nat)
    requires i < |labels| && Product(start, labels[..i]).Some?
    ensures Factor(labels[i]).Some? ==>
              Product(start, labels[..i + 1]) == Some(Product(start, labels[..i]).value * Factor(labels[i]).value)
    ensures Factor(labels[i]).None? ==> Product(start, labels).None?
  {
    assert labels[..i + 1][..i] == labels[..i];
    if Product(start, labels).Some? {
      ProductPrefix(start, labels, i + 1);
    }
  }
}

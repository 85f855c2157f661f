/** The scan over checkpoints that looks for decreasing counters. */
module CounterScan {
  import opened Outcome
  import opened Sequences
  import opened Metrics
  import opened CatalogCheck
  import opened Cardinality

  /** The samples the scan looks at, in order. */
  function Counters(names: set<string>, samples: seq<Sample>): seq<Sample> {
    Filter((s: Sample) => s.name in names, samples)
  }

  function Observed(names: set<string>, checkpoints: seq<seq<Sample>>): seq<Sample> {
    if |checkpoints| == 0 then []
    else Observed(names, checkpoints[..|checkpoints| - 1]) + Counters(names, checkpoints[|checkpoints| - 1])
  }

  ghost predicate NeverDecreases(obs: seq<Sample>) {
    forall i, j | 0 <= i < j < |obs| && SeriesOf(obs[i]) == SeriesOf(obs[j]) :: obs[i].value <= obs[j].value
  }

  /** The value with which a series was last observed. */
  function LastValue(obs: seq<Sample>, x: Series): Option<real> {
    if |obs| == 0 then None
    else if SeriesOf(obs[|obs| - 1]) == x then Some(obs[|obs| - 1].value)
    else LastValue(obs[..|obs| - 1], x)
  }

  /** The sample is smaller than the last one of its series. */
  predicate Drops(obs: seq<Sample>, s: Sample) {
    LastValue(obs, SeriesOf(s)).Some? && s.value < LastValue(obs, SeriesOf(s)).value
  }

  /** The series of every observation that dropped, in order. */
  function Dropped(obs: seq<Sample>): seq<Series> {
    if |obs| == 0 then []
    else
      var front, last := obs[..|obs| - 1], obs[|obs| - 1];
      Dropped(front) + if Drops(front, last) then [SeriesOf(last)] else []
  }

  /** The dictionary holds the last value of every series observed. */
  ghost predicate Remembers(previous: map<Series, real>, obs: seq<Sample>) {
    forall x :: LastValue(obs, x) == if x in previous then Some(previous[x]) else None
  }

  // ----- the loops

  lemma {:induction false} Extend(obs: seq<Sample>, s: Sample)
    ensures forall x :: LastValue(obs + [s], x) == if x == SeriesOf(s) then Some(s.value) else LastValue(obs, x)
    ensures Dropped(obs + [s]) == Dropped(obs) + if Drops(obs, s) then [SeriesOf(s)] else []
  {
    assert (obs + [s])[..|obs|] == obs;
  }

  /** The state of the scan after some observations. */
  ghost predicate Scanned(previous: map<Series, real>, errors: seq<Series>, obs: seq<Sample>) {
    Remembers(previous, obs) && errors == Dropped(obs)
  }

  /** A name for Scanned that the loops need not look into. */
  type State = (map<Series, real>, seq<Series>, seq<Sample>) -> bool

  ghost predicate Means(state: State) {
    forall previous, errors, obs {:trigger Scanned(previous, errors, obs)} ::
      state(previous, errors, obs) == Scanned(previous, errors, obs)
  }

  /** One sample of the scan; obs stands for what was scanned earlier. */
  method ScanSample(
    s: Sample, start: map<Series, real>, before: seq<Series>, ghost obs: seq<Sample>, ghost state: State)
      returns (previous: map<Series, real>, errors: seq<Series>)
    requires Means(state) && state(start, before, obs)
    ensures state(previous, errors, obs + [s])
  {
    assert Scanned(start, before, obs);
    Extend(obs, s);
    var identity := SeriesOf(s);
    errors := before;
    if identity in start && s.value < start[identity] {
      errors := errors + [identity];
    }
    previous := start[identity := s.value];
    assert Scanned(previous, errors, obs + [s]);
  }

  lemma {:induction false} CountersStep(names: set<string>, samples: seq<Sample>, i: nat)
    requires i < |samples|
    ensures samples[i].name in names ==>
      Counters(names, samples[..i + 1]) == Counters(names, samples[..i]) + [samples[i]]
    ensures samples[i].name !in names ==> Counters(names, samples[..i + 1]) == Counters(names, samples[..i])
  {
    assert samples[..i + 1][..i] == samples[..i];
  }

  /** One checkpoint of the scan; before stands for what was scanned earlier. */
  method ScanCheckpoint(
    names: set<string>, samples: seq<Sample>, start: map<Series, real>, found: seq<Series>, ghost before: seq<Sample>,
    ghost state: State)
      returns (previous: map<Series, real>, errors: seq<Series>)
    requires Means(state) && state(start, found, before)
    ensures state(previous, errors, before + Counters(names, samples))
  {
    previous, errors := start, found;
    ghost var obs := before;
    assert obs == before + Counters(names, samples[..0]);
    for i := 0 to |samples|
      invariant obs == before + Counters(names, samples[..i])
      invariant state(previous, errors, obs)
    {
      CountersStep(names, samples, i);
      if samples[i].name in names {
        previous, errors := ScanSample(samples[i], previous, errors, obs, state);
        obs := obs + [samples[i]];
      }
    }
    assert samples[..|samples|] == samples;
  }

  /** The scan of one target: the previous value of every series is kept across
      checkpoints, also when the series is absent in between. */
  method ScanCounters(names: set<string>, checkpoints: seq<seq<Sample>>) returns (errors: seq<Series>)
    ensures errors == Dropped(Observed(names, checkpoints))
    ensures errors == [] <==> NeverDecreases(Observed(names, checkpoints))
  {
    var previous: map<Series, real> := map[];
    errors := [];
    ghost var state: State := (previous, errors, obs) => Scanned(previous, errors, obs);
    assert Scanned(previous, errors, []);
    for k := 0 to |checkpoints|
      invariant state(previous, errors, Observed(names, checkpoints[..k]))
    {
      assert checkpoints[..k + 1][..k] == checkpoints[..k];
      previous, errors :=
        ScanCheckpoint(names, checkpoints[k], previous, errors, Observed(names, checkpoints[..k]), state);
    }
    assert checkpoints[..|checkpoints|] == checkpoints;
    assert Scanned(previous, errors, Observed(names, checkpoints));
    NothingDropped(Observed(names, checkpoints));
  }

  predicate Cumulative(f: Family) {
    f.spec.metricType == "counter" || f.spec.metricType == "histogram"
  }

  /** The test on a sample name of a family. */
  predicate Followed(f: Family, name: string) {
    && Cumulative(f)
    && name in SampleNames(f)
    && (f.spec.metricType == "counter"
        || EndsWith(name, "_count") || EndsWith(name, "_bucket") || EndsWith(name, "_sum"))
  }

  /** The sample names the scan follows. */
  function CounterNames(catalog: seq<Family>): set<string> {
    set f, name | f in catalog && name in SampleNames(f) && Followed(f, name) :: name
  }

  /** They are all the sample names of counters and histograms, and no other. */
  lemma {:induction false} FollowedNames(catalog: seq<Family>, name: string)
    ensures name in CounterNames(catalog) <==> exists f :: f in catalog && Cumulative(f) && name in SampleNames(f)
  {
    if f :| f in catalog && Cumulative(f) && name in SampleNames(f) {
      PartSuffixes(f.name);
      assert Followed(f, name);
    }
  }

  lemma {:induction false} PartSuffixes(name: string)
    ensures EndsWith(name + "_count", "_count")
    ensures EndsWith(name + "_bucket", "_bucket")
    ensures EndsWith(name + "_sum", "_sum")
  {
  }

  /** The scan of one target over its catalog. */
  method ScanTarget(service: Service, checkpoints: seq<seq<Sample>>) returns (errors: seq<Series>)
    ensures errors == Dropped(Observed(CounterNames(service.catalog), checkpoints))
    ensures (forall i | 0 <= i < |checkpoints| :: DistinctSeries(checkpoints[i])) ==>
      (errors == [] <==> MonotoneCheckpoints(CounterNames(service.catalog), checkpoints))
  {
    var names := CounterNames(service.catalog);
    errors := ScanCounters(names, checkpoints);
    if forall i | 0 <= i < |checkpoints| :: DistinctSeries(checkpoints[i]) {
      ScanMeaning(names, checkpoints);
    }
  }

  // ----- when nothing is dropped

  lemma {:induction false} LastIsHighest(obs: seq<Sample>, s: Sample)
    requires NeverDecreases(obs) && s in obs
    ensures LastValue(obs, SeriesOf(s)).Some? && s.value <= LastValue(obs, SeriesOf(s)).value
  {
    var front, last := obs[..|obs| - 1], obs[|obs| - 1];
    var i :| 0 <= i < |obs| && obs[i] == s;
    if SeriesOf(last) == SeriesOf(s) {
    } else {
      assert s == front[i];
      RisingFront(obs);
      LastIsHighest(front, s);
    }
  }

  lemma {:induction false} RisingFront(obs: seq<Sample>)
    requires |obs| > 0 && NeverDecreases(obs)
    ensures NeverDecreases(obs[..|obs| - 1])
  {
    assert obs == obs[..|obs| - 1] + [obs[|obs| - 1]];
    PartsRise(obs[..|obs| - 1], [obs[|obs| - 1]]);
  }

  lemma {:induction false} LastIsSample(obs: seq<Sample>, x: Series)
    requires LastValue(obs, x).Some?
    ensures exists s :: s in obs && SeriesOf(s) == x && s.value == LastValue(obs, x).value
  {
    var last := obs[|obs| - 1];
    if SeriesOf(last) == x {
      assert last in obs;
    } else {
      LastIsSample(obs[..|obs| - 1], x);
      var s :| s in obs[..|obs| - 1] && SeriesOf(s) == x && s.value == LastValue(obs, x).value;
      assert s in obs;
    }
  }

  lemma {:induction false} OrderedLast(obs: seq<Sample>, s: Sample)
    requires NeverDecreases(obs)
    ensures Ordered(obs, [s]) <==> !Drops(obs, s)
  {
    assert s in [s];
    if LastValue(obs, SeriesOf(s)).Some? {
      LastIsSample(obs, SeriesOf(s));
    }
    forall t | t in obs && SeriesOf(t) == SeriesOf(s)
      ensures LastValue(obs, SeriesOf(s)).Some? && t.value <= LastValue(obs, SeriesOf(s)).value
    {
      LastIsHighest(obs, t);
    }
  }

  lemma {:induction false} NothingDropped(obs: seq<Sample>)
    ensures Dropped(obs) == [] <==> NeverDecreases(obs)
  {
    if |obs| == 0 {
    } else {
      var front, last := obs[..|obs| - 1], obs[|obs| - 1];
      NothingDropped(front);
      assert obs == front + [last];
      ConcatDecreases(front, [last]);
      if NeverDecreases(front) {
        OrderedLast(front, last);
      }
    }
  }

  // ----- in terms of checkpoints

  /** No counter is smaller in a later checkpoint. */
  ghost predicate MonotoneCheckpoints(names: set<string>, checkpoints: seq<seq<Sample>>) {
    forall i, j, s: Sample, t: Sample | 0 <= i < j < |checkpoints| && s in checkpoints[i] && t in checkpoints[j]
                        && s.name in names && SeriesOf(s) == SeriesOf(t) :: s.value <= t.value
  }

  ghost predicate Ordered(a: seq<Sample>, b: seq<Sample>) {
    forall s, t | s in a && t in b && SeriesOf(s) == SeriesOf(t) :: s.value <= t.value
  }

  lemma {:induction false} PartsOrdered(a: seq<Sample>, b: seq<Sample>, s: Sample, t: Sample)
    requires NeverDecreases(a + b) && s in a && t in b && SeriesOf(s) == SeriesOf(t)
    ensures s.value <= t.value
  {
    var i :| 0 <= i < |a| && a[i] == s;
    var j :| 0 <= j < |b| && b[j] == t;
    assert (a + b)[i] == s && (a + b)[|a| + j] == t;
  }

  lemma {:induction false} PartsRise(a: seq<Sample>, b: seq<Sample>)
    requires NeverDecreases(a + b)
    ensures NeverDecreases(a) && NeverDecreases(b)
  {
    var c := a + b;
    forall i, j | 0 <= i < j < |a| && SeriesOf(a[i]) == SeriesOf(a[j]) ensures a[i].value <= a[j].value {
      assert c[i] == a[i] && c[j] == a[j];
    }
    forall i, j | 0 <= i < j < |b| && SeriesOf(b[i]) == SeriesOf(b[j]) ensures b[i].value <= b[j].value {
      assert c[|a| + i] == b[i] && c[|a| + j] == b[j];
    }
  }

  lemma {:induction false} WholeRises(a: seq<Sample>, b: seq<Sample>)
    requires NeverDecreases(a) && NeverDecreases(b) && Ordered(a, b)
    ensures NeverDecreases(a + b)
  {
    var c := a + b;
    forall i, j | 0 <= i < j < |c| && SeriesOf(c[i]) == SeriesOf(c[j]) ensures c[i].value <= c[j].value {
      if j < |a| {
        assert c[i] == a[i] && c[j] == a[j];
      } else if i >= |a| {
        assert c[i] == b[i - |a|] && c[j] == b[j - |a|];
      } else {
        assert c[i] in a && c[j] in b;
      }
    }
  }

  lemma {:induction false} ConcatDecreases(a: seq<Sample>, b: seq<Sample>)
    ensures NeverDecreases(a + b) <==> NeverDecreases(a) && NeverDecreases(b) && Ordered(a, b)
  {
    if NeverDecreases(a + b) {
      PartsRise(a, b);
      forall s, t | s in a && t in b && SeriesOf(s) == SeriesOf(t) ensures s.value <= t.value {
        PartsOrdered(a, b, s, t);
      }
    }
    if NeverDecreases(a) && NeverDecreases(b) && Ordered(a, b) {
      WholeRises(a, b);
    }
  }

  lemma {:induction false} FilterDistinct(names: set<string>, samples: seq<Sample>)
    requires DistinctSeries(samples)
    ensures DistinctSeries(Counters(names, samples))
  {
    if |samples| == 0 {
    } else {
      var front, last := samples[..|samples| - 1], samples[|samples| - 1];
      FilterDistinct(names, front);
      forall s | s in front ensures SeriesOf(s) != SeriesOf(last) {
        var i :| 0 <= i < |front| && front[i] == s;
        assert samples[i] == s;
      }
    }
  }

  lemma {:induction false} ObservedMembers(names: set<string>, checkpoints: seq<seq<Sample>>, s: Sample)
    ensures s in Observed(names, checkpoints) <==>
            s.name in names && exists i :: 0 <= i < |checkpoints| && s in checkpoints[i]
  {
    if |checkpoints| == 0 {
    } else {
      var front, last := checkpoints[..|checkpoints| - 1], checkpoints[|checkpoints| - 1];
      ObservedMembers(names, front, s);
      if s.name in names {
        if i :| 0 <= i < |front| && s in front[i] {
          assert checkpoints[i] == front[i];
        }
        if i :| 0 <= i < |checkpoints| && s in checkpoints[i] {
          assert i < |front| ==> front[i] == checkpoints[i];
        }
      }
    }
  }

  lemma {:induction false} MonotoneFront(names: set<string>, checkpoints: seq<seq<Sample>>)
    requires |checkpoints| > 0 && MonotoneCheckpoints(names, checkpoints)
    ensures
      var front, last := checkpoints[..|checkpoints| - 1], checkpoints[|checkpoints| - 1];
      MonotoneCheckpoints(names, front) && Ordered(Observed(names, front), Counters(names, last))
  {
    var n := |checkpoints| - 1;
    var front, last := checkpoints[..n], checkpoints[n];
    assert forall i | 0 <= i < n :: front[i] == checkpoints[i];
    forall s, t | s in Observed(names, front) && t in Counters(names, last) && SeriesOf(s) == SeriesOf(t)
      ensures s.value <= t.value
    {
      ObservedMembers(names, front, s);
      var i :| 0 <= i < n && s in front[i];
      assert s in checkpoints[i] && t in checkpoints[n];
    }
  }

  lemma {:induction false} MonotoneExtend(names: set<string>, checkpoints: seq<seq<Sample>>)
    requires |checkpoints| > 0
    requires MonotoneCheckpoints(names, checkpoints[..|checkpoints| - 1])
    requires Ordered(Observed(names, checkpoints[..|checkpoints| - 1]), Counters(names, checkpoints[|checkpoints| - 1]))
    ensures MonotoneCheckpoints(names, checkpoints)
  {
    var n := |checkpoints| - 1;
    var front, last := checkpoints[..n], checkpoints[n];
    assert forall i | 0 <= i < n :: front[i] == checkpoints[i];
    forall i, j, s: Sample, t: Sample | 0 <= i < j < |checkpoints| && s in checkpoints[i] && t in checkpoints[j]
                        && s.name in names && SeriesOf(s) == SeriesOf(t)
      ensures s.value <= t.value
    {
      assert s in front[i];
      if j < n {
        assert t in front[j];
      } else {
        ObservedMembers(names, front, s);
        assert t in Counters(names, last);
      }
    }
  }

  /** The scan reports nothing exactly when no counter is larger at an earlier
      checkpoint than at any later one that also has it. */
  lemma {:induction false} ScanMeaning(names: set<string>, checkpoints: seq<seq<Sample>>)
    requires forall i | 0 <= i < |checkpoints| :: DistinctSeries(checkpoints[i])
    ensures NeverDecreases(Observed(names, checkpoints)) <==> MonotoneCheckpoints(names, checkpoints)
  {
    if |checkpoints| == 0 {
    } else {
      var front, last := checkpoints[..|checkpoints| - 1], checkpoints[|checkpoints| - 1];
      assert forall i | 0 <= i < |front| :: front[i] == checkpoints[i];
      ScanMeaning(names, front);
      FilterDistinct(names, last);
      ConcatDecreases(Observed(names, front), Counters(names, last));
      if MonotoneCheckpoints(names, checkpoints) {
        MonotoneFront(names, checkpoints);
      }
      if MonotoneCheckpoints(names, front) && Ordered(Observed(names, front), Counters(names, last)) {
        MonotoneExtend(names, checkpoints);
      }
    }
  }
}

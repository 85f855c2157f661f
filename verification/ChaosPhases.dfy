/** The fault phases of a chaos run, and their agreement with the half-second bins. */
module ChaosPhases {
  import opened Outcome
  import opened ChaosSummary
  import opened ChaosTimeline

  datatype Moment =
    | TrafficStarted | WorkerAKilled | WorkerARestarted | WorkerBSlowed | WorkerBRestored
    | WorkerCDisconnected | WorkerCReconnected | TrafficCompleted
    | Other(name: string)

  datatype Event = Event(moment: Moment, elapsed: real)

  const Count: nat := 8

  /** EXPECTED_EVENTS */
  function Expected(i: nat): Moment
    requires i < Count
  {
    match i
    case 0 => TrafficStarted
    case 1 => WorkerAKilled
    case 2 => WorkerARestarted
    case 3 => WorkerBSlowed
    case 4 => WorkerBRestored
    case 5 => WorkerCDisconnected
    case 6 => WorkerCReconnected
    case _ => TrafficCompleted
  }

  datatype PhaseName =
    | HealthyBaseline | WorkerADown | WorkerARecovery | WorkerBSlow | WorkerBRecovery
    | WorkerCOut | FinalHealthy

  datatype Phase = Phase(name: PhaseName, start: Moment, end: Moment)

  /** PHASES */
  const Phases: seq<Phase> := [
    Phase(HealthyBaseline, TrafficStarted, WorkerAKilled),
    Phase(WorkerADown, WorkerAKilled, WorkerARestarted),
    Phase(WorkerARecovery, WorkerARestarted, WorkerBSlowed),
    Phase(WorkerBSlow, WorkerBSlowed, WorkerBRestored),
    Phase(WorkerBRecovery, WorkerBRestored, WorkerCDisconnected),
    Phase(WorkerCOut, WorkerCDisconnected, WorkerCReconnected),
    Phase(FinalHealthy, WorkerCReconnected, TrafficCompleted)]

  datatype PhaseSummary = PhaseSummary(start: real, end: real, summary: Summary)

  type Times = map<Moment, real>

  /** event_map: a later event of the same name wins. */
  function EventMap(events: seq<Event>): Times {
    if |events| == 0 then map[]
    else
      var e := events[|events| - 1];
      EventMap(events[..|events| - 1])[e.moment := e.elapsed]
  }

  predicate Timed(p: Phase, times: Times) {
    p.start in times && p.end in times
  }

  function SummaryOf(p: Phase, requests: seq<Request>, times: Times): PhaseSummary
    requires Timed(p, times)
  {
    PhaseSummary(times[p.start], times[p.end], Summarize(Selected(requests, times[p.start], times[p.end])))
  }

  function Names(phases: seq<Phase>): set<PhaseName> {
    set p | p in phases :: p.name
  }

  /** The table holds what is recorded of each of these phases and nothing else. */
  ghost predicate Records(
    table: map<PhaseName, PhaseSummary>, phases: seq<Phase>, record: Phase -> Option<PhaseSummary>)
  {
    && table.Keys == Names(phases)
    && forall p | p in phases :: record(p) == Some(table[p.name])
  }

  lemma {:induction false} RecordOne(
    table: map<PhaseName, PhaseSummary>, phases: seq<Phase>, p: Phase, record: Phase -> Option<PhaseSummary>)
    requires Records(table, phases, record) && record(p).Some? && p.name !in Names(phases)
    ensures Records(table[p.name := record(p).value], phases + [p], record)
  {
    assert Names(phases + [p]) == Names(phases) + {p.name};
  }

  /** The loop over the phases, given what is recorded of a phase; None where that raises. */
  method RecordPhases(phases: seq<Phase>, record: Phase -> Option<PhaseSummary>)
    returns (r: Option<map<PhaseName, PhaseSummary>>)
    requires DistinctNames(phases)
    ensures r == None <==> exists p :: p in phases && record(p) == None
    ensures r.Some? ==> Records(r.value, phases, record)
  {
    var table := map[];
    var k := 0;
    while k < |phases|
      invariant 0 <= k <= |phases|
      invariant Records(table, phases[..k], record)
    {
      var p := phases[k];
      if record(p).None? {
        assert p in phases;
        return None;
      }
      RecordOne(table, phases[..k], p, record);
      assert phases[..k + 1] == phases[..k] + [p];
      table := table[p.name := record(p).value];
      k := k + 1;
    }
    assert phases[..k] == phases;
    return Some(table);
  }

  predicate Tabulates(table: map<PhaseName, PhaseSummary>, phases: seq<Phase>, requests: seq<Request>, times: Times) {
    && table.Keys == Names(phases)
    && forall p | p in phases :: Timed(p, times) && table[p.name] == SummaryOf(p, requests, times)
  }

  predicate DistinctNames(phases: seq<Phase>) {
    forall i, j | 0 <= i < j < |phases| :: phases[i].name != phases[j].name
  }

  /** The phase loop; None stands for the KeyError of a missing event. */
  method SummarizePhases(phases: seq<Phase>, requests: seq<Request>, times: Times)
    returns (r: Option<map<PhaseName, PhaseSummary>>)
    requires DistinctNames(phases)
    ensures r == None <==> exists p :: p in phases && !Timed(p, times)
    ensures r.Some? ==> Tabulates(r.value, phases, requests, times)
  {
    var record := p => if Timed(p, times) then Some(SummaryOf(p, requests, times)) else None;
    r := RecordPhases(phases, record);
    if r.Some? {
      forall p | p in phases ensures Timed(p, times) && r.value[p.name] == SummaryOf(p, requests, times) {
        assert record(p) == Some(r.value[p.name]);
      }
    } else {
      var p :| p in phases && record(p) == None;
      assert !Timed(p, times);
    }
  }

  /** The phase loop over PHASES. */
  method SummarizeAll(requests: seq<Request>, events: seq<Event>)
    returns (r: Option<map<PhaseName, PhaseSummary>>)
    ensures InOrder(events) ==> r.Some?
    ensures r.Some? ==> Tabulates(r.value, Phases, requests, EventMap(events))
  {
    var times := EventMap(events);
    r := SummarizePhases(Phases, requests, times);
    if InOrder(events) {
      forall p | p in Phases ensures Timed(p, times) {
        var k :| 0 <= k < |Phases| && Phases[k] == p;
        PhaseTimes(events, k);
      }
    }
  }

  // ----- the phases under the expected event order

  /** The event names are the expected ones and their times strictly increase. */
  predicate InOrder(events: seq<Event>) {
    && |events| == Count
    && (forall i | 0 <= i < |events| :: events[i].moment == Expected(i))
    && forall i | 0 < i < |events| :: events[i - 1].elapsed < events[i].elapsed
  }

  predicate Distinct(events: seq<Event>) {
    forall i, j | 0 <= i < j < |events| :: events[i].moment != events[j].moment
  }

  lemma {:induction false} EventMapAt(events: seq<Event>, i: nat)
    requires Distinct(events) && i < |events|
    ensures events[i].moment in EventMap(events) && EventMap(events)[events[i].moment] == events[i].elapsed
  {
    if i == |events| - 1 {
    } else {
      EventMapAt(events[..|events| - 1], i);
    }
  }

  function Bounds(events: seq<Event>): seq<real> {
    seq(|events|, i requires 0 <= i < |events| => events[i].elapsed)
  }

  lemma {:induction false} Increasing(events: seq<Event>, i: nat, j: nat)
    requires InOrder(events) && i <= j < |events|
    ensures events[i].elapsed <= events[j].elapsed
    ensures i < j ==> events[i].elapsed < events[j].elapsed
  {
    if i == j {
    } else {
      Increasing(events, i, j - 1);
    }
  }

  lemma {:induction false} BoundsRising(events: seq<Event>)
    requires InOrder(events)
    ensures Rising(Bounds(events))
  {
    forall i, j | 0 <= i <= j < |events| ensures Bounds(events)[i] <= Bounds(events)[j] {
      Increasing(events, i, j);
    }
  }

  lemma {:induction false} PhasesChain(k: nat)
    requires k < |Phases|
    ensures Phases[k].start == Expected(k) && Phases[k].end == Expected(k + 1)
  {
  }

  /** Phase k runs from event k to event k + 1. */
  lemma {:induction false} PhaseTimes(events: seq<Event>, k: nat)
    requires InOrder(events) && k < |Phases|
    ensures Timed(Phases[k], EventMap(events))
    ensures EventMap(events)[Phases[k].start] == Bounds(events)[k]
    ensures EventMap(events)[Phases[k].end] == Bounds(events)[k + 1]
  {
    PhasesChain(k);
    EventMapAt(events, k);
    EventMapAt(events, k + 1);
  }

  /** A figure summed over the phases in a table. */
  function SumPhases(figure: Figure, phases: seq<Phase>, table: map<PhaseName, PhaseSummary>): int
    requires forall p | p in phases :: p.name in table
  {
    if |phases| == 0 then 0
    else
      SumPhases(figure, phases[..|phases| - 1], table)
      + Reported(figure, table[phases[|phases| - 1].name].summary)
  }

  lemma {:induction false} PhaseReports(
    figure: Figure, requests: seq<Request>, events: seq<Event>, table: map<PhaseName, PhaseSummary>, k: nat)
    requires InOrder(events) && Tabulates(table, Phases, requests, EventMap(events)) && k < |Phases|
    ensures Phases[k].name in table
    ensures Reported(figure, table[Phases[k].name].summary)
         == WindowTotal(figure, requests, Bounds(events)[k], Bounds(events)[k + 1])
  {
    var p := Phases[k];
    assert p in Phases;
    PhaseTimes(events, k);
    SummaryAdds(figure, Selected(requests, Bounds(events)[k], Bounds(events)[k + 1]));
  }

  /** The first n phases and the windows between the first n + 1 bounds add up to the same. */
  lemma {:induction false} PhasesAddUp(
    figure: Figure, requests: seq<Request>, phases: seq<Phase>, table: map<PhaseName, PhaseSummary>, bounds: seq<real>)
    requires |bounds| == |phases| + 1
    requires forall p | p in phases :: p.name in table
    requires forall k | 0 <= k < |phases| ::
      Reported(figure, table[phases[k].name].summary) == WindowTotal(figure, requests, bounds[k], bounds[k + 1])
    ensures SumPhases(figure, phases, table) == WindowsTotal(figure, requests, bounds)
  {
    var n := |phases|;
    if n == 0 {
    } else {
      var front, inner := phases[..n - 1], bounds[..n];
      forall k | 0 <= k < |front|
        ensures Reported(figure, table[front[k].name].summary) == WindowTotal(figure, requests, inner[k], inner[k + 1])
      {
        assert front[k] == phases[k] && inner[k] == bounds[k] && inner[k + 1] == bounds[k + 1];
      }
      PhasesAddUp(figure, requests, front, table, inner);
      assert phases[n - 1] in phases;
    }
  }

  /** The phases account for exactly the requests scheduled while traffic ran, for every
      figure of a summary. */
  lemma {:induction false} PhasesConserve(
    figure: Figure, requests: seq<Request>, events: seq<Event>, table: map<PhaseName, PhaseSummary>)
    requires InOrder(events) && Tabulates(table, Phases, requests, EventMap(events))
    ensures SumPhases(figure, Phases, table)
         == WindowTotal(figure, requests, events[0].elapsed, events[Count - 1].elapsed)
  {
    forall k: nat | k < |Phases|
      ensures Phases[k].name in table
      ensures Reported(figure, table[Phases[k].name].summary)
           == WindowTotal(figure, requests, Bounds(events)[k], Bounds(events)[k + 1])
    {
      PhaseReports(figure, requests, events, table, k);
    }
    PhasesAddUp(figure, requests, Phases, table, Bounds(events));
    BoundsRising(events);
    WindowsConserve(figure, requests, Bounds(events));
  }

  /** A request scheduled while traffic ran is counted in exactly one phase. */
  lemma {:induction false} OnePhase(r: Request, events: seq<Event>) returns (k: nat)
    requires InOrder(events) && Within(r, events[0].elapsed, events[Count - 1].elapsed)
    ensures k < |Phases| && Within(r, Bounds(events)[k], Bounds(events)[k + 1])
    ensures forall j: nat | j < |Phases| && Within(r, Bounds(events)[j], Bounds(events)[j + 1]) :: j == k
  {
    BoundsRising(events);
    k := OneWindow(r, Bounds(events));
  }

  // ----- the two views

  /** Scheduled before the end, between time zero and the start of the traffic. */
  predicate SeenOnce(r: Request, started: real, completed: real) {
    r.scheduled < completed && (0.0 <= r.scheduled < started || started <= r.scheduled < 0.0)
  }

  lemma {:induction false} EmptyTotal(figure: Figure, requests: seq<Request>, a: real, b: real)
    requires forall r | r in requests :: !Within(r, a, b)
    ensures WindowTotal(figure, requests, a, b) == 0
  {
    NoneKept(r => Within(r, a, b), requests);
  }

  lemma {:induction false} CountTotal(requests: seq<Request>, a: real, b: real)
    ensures WindowTotal(Requests, requests, a, b) >= 0
    ensures WindowTotal(Requests, requests, a, b) == 0 <==> forall r | r in requests :: !Within(r, a, b)
  {
    TotalOnes(Selected(requests, a, b));
    if forall r | r in requests :: !Within(r, a, b) {
      EmptyTotal(Requests, requests, a, b);
    } else {
      var r :| r in requests && Within(r, a, b);
      assert r in Selected(requests, a, b);
    }
  }

  /** The windows [0, completed) and [started, completed) differ by one window. */
  lemma {:induction false} WindowsDiffer(figure: Figure, requests: seq<Request>, started: real, completed: real)
    requires started < completed
    ensures WindowTotal(figure, requests, 0.0, completed) - WindowTotal(figure, requests, started, completed)
         == if started >= 0.0 then WindowTotal(figure, requests, 0.0, started)
            else -WindowTotal(figure, requests, started, Min(completed, 0.0))
  {
    if started >= 0.0 {
      WindowsJoin(figure, requests, 0.0, started, completed);
    } else if completed >= 0.0 {
      WindowsJoin(figure, requests, started, 0.0, completed);
    } else {
      EmptyTotal(figure, requests, 0.0, completed);
    }
  }

  lemma {:induction false} CountsAgree(
    requests: seq<Request>, started: real, completed: real, inBins: int, inPhases: int)
    requires started < completed
    requires inBins == WindowTotal(Requests, requests, 0.0, completed)
    requires inPhases == WindowTotal(Requests, requests, started, completed)
    ensures inBins == inPhases <==> forall r | r in requests :: !SeenOnce(r, started, completed)
  {
    WindowsDiffer(Requests, requests, started, completed);
    if started >= 0.0 {
      CountTotal(requests, 0.0, started);
      assert forall r: Request :: SeenOnce(r, started, completed) <==> Within(r, 0.0, started);
    } else {
      CountTotal(requests, started, Min(completed, 0.0));
      assert forall r: Request :: SeenOnce(r, started, completed) <==> Within(r, started, Min(completed, 0.0));
    }
  }

  lemma {:induction false} TotalsAgree(
    figure: Figure, requests: seq<Request>, started: real, completed: real, inBins: int, inPhases: int)
    requires started < completed && forall r | r in requests :: !SeenOnce(r, started, completed)
    requires inBins == WindowTotal(figure, requests, 0.0, completed)
    requires inPhases == WindowTotal(figure, requests, started, completed)
    ensures inBins == inPhases
  {
    WindowsDiffer(figure, requests, started, completed);
    if started >= 0.0 {
      EmptyTotal(figure, requests, 0.0, started);
    } else {
      EmptyTotal(figure, requests, started, Min(completed, 0.0));
    }
  }

  /** The bins and the phases of a run total the same number of requests exactly when no
      request is scheduled between time zero and the start of the traffic. */
  lemma {:induction false} ViewsAgree(
    requests: seq<Request>, events: seq<Event>, table: map<PhaseName, PhaseSummary>, bins: seq<Bin>)
    requires InOrder(events) && Tabulates(table, Phases, requests, EventMap(events))
    requires |bins| == BinCount(events[Count - 1].elapsed) && AreBins(bins, requests, events[Count - 1].elapsed)
    ensures SumBins(Requests, bins) == SumPhases(Requests, Phases, table) <==>
            forall r | r in requests :: !SeenOnce(r, events[0].elapsed, events[Count - 1].elapsed)
  {
    var started, completed := events[0].elapsed, events[Count - 1].elapsed;
    Increasing(events, 0, Count - 1);
    BinsConserve(Requests, requests, completed, bins);
    PhasesConserve(Requests, requests, events, table);
    CountsAgree(requests, started, completed, SumBins(Requests, bins), SumPhases(Requests, Phases, table));
  }

  /** Then every figure of a bin agrees too; in particular when traffic starts at zero. */
  lemma {:induction false} FiguresAgree(
    figure: Figure, requests: seq<Request>, events: seq<Event>, table: map<PhaseName, PhaseSummary>, bins: seq<Bin>)
    requires figure in {Requests, Successful, Errors, Attempts}
    requires InOrder(events) && Tabulates(table, Phases, requests, EventMap(events))
    requires |bins| == BinCount(events[Count - 1].elapsed) && AreBins(bins, requests, events[Count - 1].elapsed)
    requires forall r | r in requests :: !SeenOnce(r, events[0].elapsed, events[Count - 1].elapsed)
    ensures SumBins(figure, bins) == SumPhases(figure, Phases, table)
  {
    var started, completed := events[0].elapsed, events[Count - 1].elapsed;
    Increasing(events, 0, Count - 1);
    BinsConserve(figure, requests, completed, bins);
    PhasesConserve(figure, requests, events, table);
    TotalsAgree(figure, requests, started, completed, SumBins(figure, bins), SumPhases(figure, Phases, table));
  }
}

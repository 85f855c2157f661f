/** Summaries of the requests of a chaos run, and the sums they are made of. */
module ChaosSummary {
  import opened Outcome
  import opened Sequences
  import opened Percentiles

  datatype Request = Request(
    scheduled: real, status: Option<int>, worker: Option<string>, attempts: Option<int>, latency: real)

  datatype Latency = Latency(p50: Answer, p95: Answer, p99: Answer, max: Option<real>)

  datatype Summary = Summary(
    requests: nat, successful: nat, errors: int, statuses: map<Option<int>, nat>, workers: map<string, nat>,
    attempts: int, latency: Latency)

  predicate Succeeded(r: Request) {
    r.status == Some(200)
  }

  predicate SucceededOn(r: Request, worker: string) {
    Succeeded(r) && r.worker == Some(worker)
  }

  function Statuses(requests: seq<Request>): set<Option<int>> {
    set r | r in requests :: r.status
  }

  function Answering(requests: seq<Request>): set<string> {
    set r | r in requests && Succeeded(r) && r.worker.Some? :: r.worker.value
  }

  /** collections.Counter over the statuses. */
  function StatusCounts(requests: seq<Request>): map<Option<int>, nat> {
    map s | s in Statuses(requests) :: |Filter((r: Request) => r.status == s, requests)|
  }

  /** collections.Counter over the workers that answered successfully. */
  function WorkerCounts(requests: seq<Request>): map<string, nat> {
    map w | w in Answering(requests) :: |Filter(r => SucceededOn(r, w), requests)|
  }

  /** sum of the attempts that were reported */
  function SumAttempts(requests: seq<Request>): int {
    if |requests| == 0 then 0
    else
      var r := requests[|requests| - 1];
      SumAttempts(requests[..|requests| - 1]) + if r.attempts.Some? then r.attempts.value else 0
  }

  function Max(values: seq<real>): (m: Option<real>)
    ensures m == None <==> values == []
    ensures m.Some? ==> m.value in values && forall v | v in values :: v <= m.value
  {
    if |values| == 0 then None
    else
      var last := values[|values| - 1];
      assert values == values[..|values| - 1] + [last];
      match Max(values[..|values| - 1])
      case None => Some(last)
      case Some(m) => Some(if last > m then last else m)
  }

  function Latencies(requests: seq<Request>): seq<real> {
    Map((r: Request) => r.latency, requests)
  }

  function SummarizeLatency(values: seq<real>): Latency {
    Latency(Percentile(values, 0.50), Percentile(values, 0.95), Percentile(values, 0.99), Max(values))
  }

  function Summarize(requests: seq<Request>): Summary {
    var successful := |Filter(Succeeded, requests)|;
    Summary(|requests|, successful, |requests| - successful, StatusCounts(requests), WorkerCounts(requests),
            SumAttempts(requests), SummarizeLatency(Latencies(requests)))
  }

  /** The latency figures are in order, and missing together exactly when there is no request. */
  lemma {:induction false} LatencyOrdered(values: seq<real>)
    ensures var l := SummarizeLatency(values);
            if values == [] then
              l == Latency(Missing, Missing, Missing, None)
            else
              && l.p50.Value? && l.p95.Value? && l.p99.Value? && l.max.Some?
              && l.p50.v <= l.p95.v <= l.p99.v <= l.max.value
  {
    if values != [] {
      PercentileMonotone(values, 0.50, 0.95);
      PercentileMonotone(values, 0.95, 0.99);
      PercentileMeaning(values, 0.99, Percentile(values, 0.99).v);
    }
  }

  // ----- sums over requests

  /** The sum of f over a list. */
  function Total(f: Request -> int, s: seq<Request>): int {
    if |s| == 0 then 0 else Total(f, s[..|s| - 1]) + f(s[|s| - 1])
  }

  /** What a request adds to each figure of a summary. */
  datatype Figure = Requests | Successful | Errors | Attempts | Status(s: Option<int>) | Worker(w: string)

  function Adds(figure: Figure, r: Request): int {
    match figure
    case Requests => 1
    case Successful => if Succeeded(r) then 1 else 0
    case Errors => if Succeeded(r) then 0 else 1
    case Attempts => if r.attempts.Some? then r.attempts.value else 0
    case Status(s) => if r.status == s then 1 else 0
    case Worker(w) => if SucceededOn(r, w) then 1 else 0
  }

  /** The figure as a summary reports it. */
  function Reported(figure: Figure, summary: Summary): int {
    match figure
    case Requests => summary.requests
    case Successful => summary.successful
    case Errors => summary.errors
    case Attempts => summary.attempts
    case Status(s) => if s in summary.statuses then summary.statuses[s] else 0
    case Worker(w) => if w in summary.workers then summary.workers[w] else 0
  }

  lemma {:induction false} TotalOfFilter(keep: Request -> bool, f: Request -> int, s: seq<Request>)
    requires forall r :: f(r) == if keep(r) then 1 else 0
    ensures Total(f, s) == |Filter(keep, s)|
  {
    if |s| == 0 {
    } else {
      TotalOfFilter(keep, f, s[..|s| - 1]);
    }
  }

  lemma {:induction false} TotalAttempts(s: seq<Request>)
    ensures SumAttempts(s) == Total(r => Adds(Attempts, r), s)
  {
    if |s| == 0 {
    } else {
      TotalAttempts(s[..|s| - 1]);
    }
  }

  lemma {:induction false} TotalSum(f: Request -> int, g: Request -> int, h: Request -> int, s: seq<Request>)
    requires forall r | r in s :: f(r) == g(r) + h(r)
    ensures Total(f, s) == Total(g, s) + Total(h, s)
  {
    if |s| == 0 {
    } else {
      TotalSum(f, g, h, s[..|s| - 1]);
    }
  }

  lemma {:induction false} TotalOnes(s: seq<Request>)
    ensures Total(r => Adds(Requests, r), s) == |s|
  {
    if |s| == 0 {
    } else {
      TotalOnes(s[..|s| - 1]);
    }
  }

  lemma {:induction false} NoneKept(keep: Request -> bool, s: seq<Request>)
    requires forall r | r in s :: !keep(r)
    ensures Filter(keep, s) == []
  {
    if |s| == 0 {
    } else {
      NoneKept(keep, s[..|s| - 1]);
    }
  }

  /** Every figure of a summary is the sum of what each request adds to it. */
  lemma {:induction false} SummaryAdds(figure: Figure, s: seq<Request>)
    ensures Reported(figure, Summarize(s)) == Total(r => Adds(figure, r), s)
  {
    var adds := (r: Request) => Adds(figure, r);
    match figure
    case Requests =>
      TotalOnes(s);
    case Successful =>
      TotalOfFilter(Succeeded, adds, s);
    case Errors =>
      TotalOnes(s);
      TotalOfFilter(Succeeded, r => Adds(Successful, r), s);
      TotalSum(r => Adds(Requests, r), r => Adds(Successful, r), adds, s);
    case Attempts =>
      TotalAttempts(s);
    case Status(status) =>
      var keep := (r: Request) => r.status == status;
      TotalOfFilter(keep, adds, s);
      if status !in StatusCounts(s) {
        NoneKept(keep, s);
      }
    case Worker(w) =>
      var keep := r => SucceededOn(r, w);
      TotalOfFilter(keep, adds, s);
      if w !in WorkerCounts(s) {
        NoneKept(keep, s);
      }
  }
}

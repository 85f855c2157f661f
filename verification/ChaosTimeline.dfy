/** Windows over the requests of a chaos run, and its half-second bins. */
module ChaosTimeline {
  import opened Sequences
  import opened Percentiles
  import opened ChaosSummary

  // ----- windows

  /** start <= request["scheduled_ms"] < end */
  predicate Within(r: Request, start: real, end: real) {
    start <= r.scheduled < end
  }

  function Selected(requests: seq<Request>, start: real, end: real): seq<Request> {
    Filter(r => Within(r, start, end), requests)
  }

  /** What the requests of a window add to a figure. */
  function WindowTotal(figure: Figure, requests: seq<Request>, start: real, end: real): int {
    Total(r => Adds(figure, r), Selected(requests, start, end))
  }

  predicate Rising(bounds: seq<real>) {
    forall i, j | 0 <= i <= j < |bounds| :: bounds[i] <= bounds[j]
  }

  lemma {:induction false} WindowsJoin(figure: Figure, requests: seq<Request>, a: real, b: real, c: real)
    requires a <= b <= c
    ensures WindowTotal(figure, requests, a, c)
         == WindowTotal(figure, requests, a, b) + WindowTotal(figure, requests, b, c)
  {
    if |requests| == 0 {
    } else {
      WindowsJoin(figure, requests[..|requests| - 1], a, b, c);
      SelectedLast(figure, requests, a, b);
      SelectedLast(figure, requests, b, c);
      SelectedLast(figure, requests, a, c);
    }
  }

  lemma {:induction false} SelectedLast(figure: Figure, requests: seq<Request>, a: real, b: real)
    requires |requests| > 0
    ensures WindowTotal(figure, requests, a, b)
         == WindowTotal(figure, requests[..|requests| - 1], a, b)
          + (if Within(requests[|requests| - 1], a, b) then Adds(figure, requests[|requests| - 1]) else 0)
  {
  }

  /** The sum of a figure over consecutive windows. */
  function WindowsTotal(figure: Figure, requests: seq<Request>, bounds: seq<real>): int {
    if |bounds| <= 1 then 0
    else
      var n := |bounds|;
      WindowsTotal(figure, requests, bounds[..n - 1])
      + WindowTotal(figure, requests, bounds[n - 2], bounds[n - 1])
  }

  lemma {:induction false} EmptyWindow(figure: Figure, requests: seq<Request>, a: real)
    ensures WindowTotal(figure, requests, a, a) == 0
  {
    NoneKept(r => Within(r, a, a), requests);
  }

  /** Consecutive windows together hold exactly what the enclosing window holds. */
  lemma {:induction false} WindowsConserve(figure: Figure, requests: seq<Request>, bounds: seq<real>)
    requires |bounds| > 0 && Rising(bounds)
    ensures WindowsTotal(figure, requests, bounds)
         == WindowTotal(figure, requests, bounds[0], bounds[|bounds| - 1])
  {
    var n := |bounds|;
    if n == 1 {
      EmptyWindow(figure, requests, bounds[0]);
    } else {
      WindowsConserve(figure, requests, bounds[..n - 1]);
      WindowsJoin(figure, requests, bounds[0], bounds[n - 2], bounds[n - 1]);
    }
  }

  /** Every request of the enclosing window is in exactly one of the windows. */
  lemma {:induction false} OneWindow(r: Request, bounds: seq<real>) returns (i: nat)
    requires |bounds| > 0 && Rising(bounds) && Within(r, bounds[0], bounds[|bounds| - 1])
    ensures i + 1 < |bounds| && Within(r, bounds[i], bounds[i + 1])
    ensures forall j: nat | j + 1 < |bounds| && Within(r, bounds[j], bounds[j + 1]) :: j == i
  {
    var n := |bounds|;
    if n > 1 && bounds[n - 2] <= r.scheduled {
      i := n - 2;
    } else {
      i := OneWindow(r, bounds[..n - 1]);
    }
  }

  // ----- timeline_bins

  datatype Bin = Bin(start: real, end: real, successful: nat, errors: int, attempts: int, p95: Answer)

  const Width: real := 500.0

  /** The number of bins; range(...) of a negative number is empty. */
  function BinCount(duration: real): nat {
    if Ceil(duration / Width) < 0 then 0 else Ceil(duration / Width)
  }

  function Min(x: real, y: real): real {
    if y < x then y else x
  }

  function Start(index: nat): real {
    index as real * Width
  }

  function End(duration: real, index: nat): real {
    Min(duration, Start(index) + Width)
  }

  function BinBetween(requests: seq<Request>, start: real, end: real): Bin {
    var summary := Summarize(Selected(requests, start, end));
    Bin(start, end, summary.successful, summary.errors, summary.attempts, summary.latency.p95)
  }

  /** The loop over the bins, given what is recorded for a window. */
  method BuildBins(record: (real, real) -> Bin, duration: real, count: int) returns (bins: seq<Bin>)
    ensures |bins| == if count < 0 then 0 else count
    ensures forall i: nat | i < |bins| :: bins[i] == record(Start(i), End(duration, i))
  {
    bins := [];
    var index: nat := 0;
    while index < count
      invariant index == 0 || index <= count
      invariant |bins| == index
      invariant forall i: nat | i < index :: bins[i] == record(Start(i), End(duration, i))
    {
      var start := Start(index);
      var end := End(duration, index);
      bins := bins + [record(start, end)];
      index := index + 1;
    }
  }

  predicate AreBins(bins: seq<Bin>, requests: seq<Request>, duration: real) {
    forall i: nat | i < |bins| :: bins[i] == BinBetween(requests, Start(i), End(duration, i))
  }

  method TimelineBins(requests: seq<Request>, duration: real) returns (bins: seq<Bin>)
    ensures |bins| == BinCount(duration) && AreBins(bins, requests, duration)
  {
    var record := (start, end) => BinBetween(requests, start, end);
    bins := BuildBins(record, duration, Ceil(duration / Width));
  }

  /** The bounds of the bins: 0, 500, 1000, ... and the duration. */
  function BinBounds(duration: real): seq<real> {
    seq(BinCount(duration) + 1, (i: nat) => Min(duration, Start(i)))
  }

  lemma {:induction false} BinCountMeaning(duration: real)
    requires duration > 0.0
    ensures BinCount(duration) > 0
    ensures Start(BinCount(duration) - 1) < duration <= Start(BinCount(duration))
  {
    var n := Ceil(duration / Width);
    assert (n - 1) as real < duration / Width <= n as real;
  }

  lemma {:induction false} StartsRise(i: nat, j: nat)
    requires i <= j
    ensures Start(i) <= Start(j)
    ensures Start(i + 1) == Start(i) + Width
  {
  }

  lemma {:induction false} BoundsRise(duration: real)
    ensures Rising(BinBounds(duration))
  {
    forall i, j | 0 <= i <= j < |BinBounds(duration)| ensures BinBounds(duration)[i] <= BinBounds(duration)[j] {
      StartsRise(i, j);
    }
  }

  /** The bins are consecutive windows from 0 to the duration. */
  lemma {:induction false} BinsAreWindows(duration: real, i: nat)
    requires duration > 0.0 && i < BinCount(duration)
    ensures BinBounds(duration)[0] == 0.0 && BinBounds(duration)[BinCount(duration)] == duration
    ensures BinBounds(duration)[i] == Start(i) && BinBounds(duration)[i + 1] == End(duration, i)
  {
    BinCountMeaning(duration);
    StartsRise(i, BinCount(duration) - 1);
  }

  /** A figure as a bin reports it. */
  function InBin(figure: Figure, bin: Bin): int
    requires figure in {Requests, Successful, Errors, Attempts}
  {
    match figure
    case Requests => bin.successful + bin.errors
    case Successful => bin.successful
    case Errors => bin.errors
    case _ => bin.attempts
  }

  function SumBins(figure: Figure, bins: seq<Bin>): int
    requires figure in {Requests, Successful, Errors, Attempts}
  {
    if |bins| == 0 then 0 else SumBins(figure, bins[..|bins| - 1]) + InBin(figure, bins[|bins| - 1])
  }

  lemma {:induction false} BinReports(figure: Figure, requests: seq<Request>, start: real, end: real)
    requires figure in {Requests, Successful, Errors, Attempts}
    ensures InBin(figure, BinBetween(requests, start, end)) == WindowTotal(figure, requests, start, end)
  {
    SummaryAdds(figure, Selected(requests, start, end));
  }

  /** Bins that report consecutive windows add up to the windows. */
  lemma {:induction false} BinsAddUp(figure: Figure, requests: seq<Request>, bins: seq<Bin>, bounds: seq<real>)
    requires figure in {Requests, Successful, Errors, Attempts} && |bounds| == |bins| + 1
    requires forall k | 0 <= k < |bins| ::
      InBin(figure, bins[k]) == WindowTotal(figure, requests, bounds[k], bounds[k + 1])
    ensures SumBins(figure, bins) == WindowsTotal(figure, requests, bounds)
  {
    if |bins| == 0 {
    } else {
      var n := |bins|;
      var front, inner := bins[..n - 1], bounds[..n];
      forall k | 0 <= k < |front|
        ensures InBin(figure, front[k]) == WindowTotal(figure, requests, inner[k], inner[k + 1])
      {
        assert front[k] == bins[k] && inner[k] == bounds[k] && inner[k + 1] == bounds[k + 1];
      }
      BinsAddUp(figure, requests, front, inner);
    }
  }

  lemma {:induction false} BinAt(figure: Figure, requests: seq<Request>, duration: real, bins: seq<Bin>, k: nat)
    requires figure in {Requests, Successful, Errors, Attempts}
    requires duration > 0.0 && |bins| == BinCount(duration) && AreBins(bins, requests, duration) && k < |bins|
    ensures InBin(figure, bins[k])
         == WindowTotal(figure, requests, BinBounds(duration)[k], BinBounds(duration)[k + 1])
  {
    BinsAreWindows(duration, k);
    BinReports(figure, requests, Start(k), End(duration, k));
  }

  /** The bins of a run account for exactly the requests scheduled in [0, duration), for
      each of the figures a bin reports. */
  lemma {:induction false} BinsConserve(figure: Figure, requests: seq<Request>, duration: real, bins: seq<Bin>)
    requires figure in {Requests, Successful, Errors, Attempts}
    requires |bins| == BinCount(duration) && AreBins(bins, requests, duration)
    ensures SumBins(figure, bins) == WindowTotal(figure, requests, 0.0, duration)
  {
    if duration > 0.0 {
      var bounds := BinBounds(duration);
      forall k: nat | k < |bins|
        ensures InBin(figure, bins[k]) == WindowTotal(figure, requests, bounds[k], bounds[k + 1])
      {
        BinAt(figure, requests, duration, bins, k);
      }
      BinsAddUp(figure, requests, bins, bounds);
      BoundsRise(duration);
      WindowsConserve(figure, requests, bounds);
      BinCountMeaning(duration);
      BinsAreWindows(duration, 0);
    } else {
      NoBins(duration);
      NoneKept(r => Within(r, 0.0, duration), requests);
    }
  }

  lemma {:induction false} NoBins(duration: real)
    requires duration <= 0.0
    ensures BinCount(duration) == 0
  {
    assert (Ceil(duration / Width) - 1) as real < duration / Width <= 0.0;
  }

  /** A request scheduled in [0, duration) is counted in exactly one bin. */
  lemma {:induction false} OneBin(r: Request, duration: real) returns (i: nat)
    requires Within(r, 0.0, duration)
    ensures i < BinCount(duration) && Within(r, Start(i), End(duration, i))
    ensures forall j: nat | j < BinCount(duration) && Within(r, Start(j), End(duration, j)) :: j == i
  {
    var bounds := BinBounds(duration);
    BinCountMeaning(duration);
    BoundsRise(duration);
    BinsAreWindows(duration, 0);
    i := OneWindow(r, bounds);
    BinsAreWindows(duration, i);
    forall j: nat | j < BinCount(duration) && Within(r, Start(j), End(duration, j)) ensures j == i {
      BinsAreWindows(duration, j);
      assert Within(r, bounds[j], bounds[j + 1]);
    }
  }
}

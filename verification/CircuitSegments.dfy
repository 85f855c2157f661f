/** The run-length form of a worker's sampled circuit state over a chaos run. */
module CircuitSegments {
  import opened Outcome

  datatype Worker = Worker(id: string, state: string)

  /** A gateway sample; one that recorded an error has no workers. */
  datatype Sample = Sample(elapsed: real, workers: Option<seq<Worker>>)

  datatype Point = Point(elapsed: real, state: string)

  datatype Segment = Segment(start: real, end: real, state: string)

  // ----- worker_circuit and the points it gives

  /** The state of the first worker with this id; None where next() raises. */
  function WorkerState(workers: seq<Worker>, id: string): Option<string> {
    if |workers| == 0 then None
    else if workers[0].id == id then Some(workers[0].state)
    else WorkerState(workers[1..], id)
  }

  /** The points of the samples that are no errors; None where one of them lacks the worker. */
  function Points(samples: seq<Sample>, id: string): Option<seq<Point>> {
    if |samples| == 0 then Some([])
    else
      var points :- Points(samples[..|samples| - 1], id);
      var sample := samples[|samples| - 1];
      if sample.workers.None? then Some(points)
      else
        var state :- WorkerState(sample.workers.value, id);
        Some(points + [Point(sample.elapsed, state)])
  }

  method CollectPoints(samples: seq<Sample>, id: string) returns (r: Option<seq<Point>>)
    ensures r == Points(samples, id)
  {
    var points := [];
    var k := 0;
    while k < |samples|
      invariant 0 <= k <= |samples|
      invariant Points(samples[..k], id) == Some(points)
    {
      assert samples[..k + 1][..k] == samples[..k];
      var sample := samples[k];
      if sample.workers.Some? {
        var state := WorkerState(sample.workers.value, id);
        if state.None? {
          Raised(samples, id, k + 1);
          return None;
        }
        points := points + [Point(sample.elapsed, state.value)];
      }
      k := k + 1;
    }
    assert samples[..k] == samples;
    return Some(points);
  }

  lemma {:induction false} Raised(samples: seq<Sample>, id: string, k: nat)
    requires k <= |samples| && Points(samples[..k], id).None?
    ensures Points(samples, id).None?
  {
    if k < |samples| {
      assert samples[..|samples| - 1][..k] == samples[..k];
      Raised(samples[..|samples| - 1], id, k);
    } else {
      assert samples[..k] == samples;
    }
  }

  // ----- circuit_segments

  /** The segments of a list of points up to a given end. */
  function Segments(points: seq<Point>, end: real): seq<Segment> {
    if |points| == 0 then []
    else if |points| == 1 then [Segment(0.0, end, points[0].state)]
    else
      var front, last := points[..|points| - 1], points[|points| - 1];
      if last.state != front[|front| - 1].state then
        Segments(front, last.elapsed) + [Segment(last.elapsed, end, last.state)]
      else
        Segments(front, end)
  }

  method BuildSegments(points: seq<Point>, duration: real) returns (segments: seq<Segment>)
    ensures segments == Segments(points, duration)
  {
    segments := [];
    if |points| == 0 {
      return;
    }
    var state := points[0].state;
    var start := 0.0;
    var k := 1;
    while k < |points|
      invariant 1 <= k <= |points|
      invariant state == points[k - 1].state
      invariant forall end :: Segments(points[..k], end) == segments + [Segment(start, end, state)]
    {
      assert points[..k + 1][..k] == points[..k];
      var point := points[k];
      if point.state != state {
        assert Segments(points[..k], point.elapsed) == segments + [Segment(start, point.elapsed, state)];
        segments := segments + [Segment(start, point.elapsed, state)];
        start := point.elapsed;
        state := point.state;
      }
      k := k + 1;
    }
    assert points[..k] == points;
    segments := segments + [Segment(start, duration, state)];
  }

  // ----- what the segments are, for any points

  /** The number of points whose state differs from the one before. */
  function Changes(points: seq<Point>): nat {
    if |points| <= 1 then 0
    else
      Changes(points[..|points| - 1])
      + (if points[|points| - 1].state != points[|points| - 2].state then 1 else 0)
  }

  predicate Contiguous(s: seq<Segment>, start: real, end: real) {
    && |s| > 0
    && s[0].start == start
    && s[|s| - 1].end == end
    && forall i | 0 < i < |s| :: s[i - 1].end == s[i].start
  }

  predicate Alternating(s: seq<Segment>) {
    forall i | 0 < i < |s| :: s[i - 1].state != s[i].state
  }

  /** Without points there is no segment; otherwise they run from 0 to the end without a gap,
      neighbours differ, and there is one more than there are state changes. */
  lemma {:induction false} SegmentsShape(points: seq<Point>, end: real)
    ensures points == [] <==> Segments(points, end) == []
    ensures points != [] ==>
      var s := Segments(points, end);
      && Contiguous(s, 0.0, end)
      && Alternating(s)
      && |s| == 1 + Changes(points)
      && s[0].state == points[0].state
      && s[|s| - 1].state == points[|points| - 1].state
  {
    if |points| <= 1 {
    } else {
      var front, last := points[..|points| - 1], points[|points| - 1];
      if last.state != front[|front| - 1].state {
        SegmentsShape(front, last.elapsed);
      } else {
        SegmentsShape(front, end);
      }
    }
  }

  // ----- what they mean, for points in order

  /** The points are in order of time within [0, end]. */
  predicate Ordered(points: seq<Point>, end: real) {
    && (forall i | 0 <= i < |points| :: 0.0 <= points[i].elapsed <= end)
    && forall i, j | 0 <= i < j < |points| :: points[i].elapsed <= points[j].elapsed
  }

  predicate StrictlyOrdered(points: seq<Point>) {
    forall i, j | 0 <= i < j < |points| :: points[i].elapsed < points[j].elapsed
  }

  /** The state last sampled at or before t, or the first one sampled. */
  function StateAt(points: seq<Point>, t: real): string
    requires |points| > 0
  {
    if |points| == 1 || points[|points| - 1].elapsed <= t then points[|points| - 1].state
    else StateAt(points[..|points| - 1], t)
  }

  /** Segment k holds time t; the last one includes its end. */
  predicate Covers(s: seq<Segment>, k: nat, t: real)
    requires k < |s|
  {
    s[k].start <= t && (t < s[k].end || (k == |s| - 1 && t == s[k].end))
  }

  predicate WellPlaced(s: seq<Segment>, end: real) {
    && (forall i | 0 <= i < |s| :: 0.0 <= s[i].start <= s[i].end <= end)
    && forall i, j | 0 <= i < j < |s| :: s[i].end <= s[j].start
  }

  lemma {:induction false} SegmentsPlaced(points: seq<Point>, end: real)
    requires Ordered(points, end)
    ensures WellPlaced(Segments(points, end), end)
  {
    if |points| <= 1 {
    } else {
      var front, last := points[..|points| - 1], points[|points| - 1];
      if last.state != front[|front| - 1].state {
        SegmentsPlaced(front, last.elapsed);
      } else {
        SegmentsPlaced(front, end);
      }
    }
  }

  lemma {:induction false} FindCover(s: seq<Segment>, end: real, t: real, n: nat) returns (k: nat)
    requires Contiguous(s, 0.0, end) && WellPlaced(s, end) && 0.0 <= t <= end
    requires n < |s| && s[n].start <= t
    requires forall j | n < j < |s| :: t < s[j].start
    ensures k < |s| && Covers(s, k, t)
  {
    k := n;
    if n + 1 < |s| {
      assert s[n].end == s[n + 1].start;
    }
  }

  lemma {:induction false} LastStarted(s: seq<Segment>, t: real) returns (n: nat)
    requires |s| > 0 && s[0].start <= t
    ensures n < |s| && s[n].start <= t && forall j | n < j < |s| :: t < s[j].start
  {
    n := |s| - 1;
    while s[n].start > t
      invariant n < |s| && forall j | n < j < |s| :: t < s[j].start
      decreases n
    {
      n := n - 1;
    }
  }

  /** Every time of the run is in exactly one segment. */
  lemma {:induction false} CoveredOnce(points: seq<Point>, end: real, t: real) returns (k: nat)
    requires points != [] && Ordered(points, end) && 0.0 <= t <= end
    ensures k < |Segments(points, end)| && Covers(Segments(points, end), k, t)
    ensures forall j: nat | j < |Segments(points, end)| && Covers(Segments(points, end), j, t) :: j == k
  {
    var s := Segments(points, end);
    SegmentsShape(points, end);
    SegmentsPlaced(points, end);
    var n := LastStarted(s, t);
    k := FindCover(s, end, t, n);
  }

  /** The segment that holds a time carries the state last sampled at or before it. */
  lemma {:induction false} SegmentsMean(points: seq<Point>, end: real, t: real, k: nat)
    requires points != [] && Ordered(points, end) && 0.0 <= t <= end
    requires k < |Segments(points, end)| && Covers(Segments(points, end), k, t)
    ensures Segments(points, end)[k].state == StateAt(points, t)
  {
    if |points| <= 1 {
    } else {
      var front, last := points[..|points| - 1], points[|points| - 1];
      if last.state == front[|front| - 1].state {
        SegmentsMean(front, end, t, k);
      } else if k < |Segments(points, end)| - 1 {
        SegmentsPlaced(front, last.elapsed);
        SegmentsMean(front, last.elapsed, t, k);
      }
    }
  }

  lemma {:induction false} StateAtSample(points: seq<Point>, i: nat)
    requires i < |points| && StrictlyOrdered(points)
    ensures StateAt(points, points[i].elapsed) == points[i].state
  {
    if i == |points| - 1 {
    } else {
      StateAtSample(points[..|points| - 1], i);
    }
  }

  // ----- from the samples to the points

  /** Samples that are no errors have strictly increasing times within [0, end]. */
  predicate Increasing(samples: seq<Sample>, end: real) {
    && (forall i | 0 <= i < |samples| && samples[i].workers.Some? :: 0.0 <= samples[i].elapsed <= end)
    && forall i, j | 0 <= i < j < |samples| && samples[i].workers.Some? && samples[j].workers.Some? ::
         samples[i].elapsed < samples[j].elapsed
  }

  lemma {:induction false} FrontDefined(samples: seq<Sample>, id: string)
    requires |samples| > 0 && Points(samples, id).Some?
    ensures var front, sample := Points(samples[..|samples| - 1], id), samples[|samples| - 1];
            && front.Some?
            && if sample.workers.None? then Points(samples, id) == front
               else
                 && WorkerState(sample.workers.value, id).Some?
                 && Points(samples, id)
                    == Some(front.value + [Point(sample.elapsed, WorkerState(sample.workers.value, id).value)])
  {
  }

  /** Every point is the time and the worker's state of a sample that is no error. */
  lemma {:induction false} SampleOfPoint(samples: seq<Sample>, id: string, i: nat) returns (k: nat)
    requires Points(samples, id).Some? && i < |Points(samples, id).value|
    ensures k < |samples| && samples[k].workers.Some? && samples[k].elapsed == Points(samples, id).value[i].elapsed
    ensures WorkerState(samples[k].workers.value, id) == Some(Points(samples, id).value[i].state)
  {
    var front := samples[..|samples| - 1];
    FrontDefined(samples, id);
    if i < |Points(front, id).value| {
      k := SampleOfPoint(front, id, i);
    } else {
      k := |samples| - 1;
    }
  }

  /** Every sample that is no error gives a point with its time and its worker's state. */
  lemma {:induction false} PointOfSample(samples: seq<Sample>, id: string, k: nat) returns (i: nat)
    requires Points(samples, id).Some? && k < |samples| && samples[k].workers.Some?
    ensures i < |Points(samples, id).value| && Points(samples, id).value[i].elapsed == samples[k].elapsed
    ensures WorkerState(samples[k].workers.value, id) == Some(Points(samples, id).value[i].state)
  {
    var front := samples[..|samples| - 1];
    FrontDefined(samples, id);
    if k < |front| {
      i := PointOfSample(front, id, k);
    } else {
      i := |Points(front, id).value|;
    }
  }

  lemma {:induction false} PointsInOrder(samples: seq<Sample>, id: string, end: real)
    requires Points(samples, id).Some? && Increasing(samples, end)
    ensures Ordered(Points(samples, id).value, end) && StrictlyOrdered(Points(samples, id).value)
  {
    if |samples| == 0 {
      assert Points(samples, id).value == [];
    } else {
      var front, last := samples[..|samples| - 1], samples[|samples| - 1];
      FrontDefined(samples, id);
      PointsInOrder(front, id, end);
      var points := Points(front, id).value;
      if last.workers.Some? {
        forall i | 0 <= i < |points| ensures points[i].elapsed < last.elapsed {
          var k := SampleOfPoint(front, id, i);
          assert samples[k] == front[k];
        }
      }
    }
  }

  /** A sample that is no error and does not list the worker. */
  predicate LacksWorker(sample: Sample, id: string) {
    sample.workers.Some? && WorkerState(sample.workers.value, id).None?
  }

  lemma {:induction false} PointsDefined(samples: seq<Sample>, id: string)
    ensures Points(samples, id).None? <==> exists k :: 0 <= k < |samples| && LacksWorker(samples[k], id)
  {
    if |samples| == 0 {
    } else {
      var front, last := samples[..|samples| - 1], samples[|samples| - 1];
      PointsDefined(front, id);
      if k :| 0 <= k < |front| && LacksWorker(front[k], id) {
        assert samples[k] == front[k];
      }
      if k :| 0 <= k < |samples| && LacksWorker(samples[k], id) {
        assert k < |front| ==> front[k] == samples[k];
      }
      assert samples[|samples| - 1] == last;
    }
  }

  // ----- the whole function

  /** Exactly one segment holds the time, and it carries the state. */
  predicate ShownOnce(s: seq<Segment>, t: real, state: string) {
    exists k: nat ::
      && k < |s| && Covers(s, k, t) && s[k].state == state
      && forall j: nat | j < |s| && Covers(s, j, t) :: j == k
  }

  lemma {:induction false} SampleShown(samples: seq<Sample>, id: string, end: real, k: nat)
    requires Points(samples, id).Some? && Increasing(samples, end) && k < |samples| && samples[k].workers.Some?
    ensures WorkerState(samples[k].workers.value, id).Some?
    ensures ShownOnce(Segments(Points(samples, id).value, end), samples[k].elapsed,
                      WorkerState(samples[k].workers.value, id).value)
  {
    var points := Points(samples, id).value;
    var i := PointOfSample(samples, id, k);
    PointsInOrder(samples, id, end);
    var c := CoveredOnce(points, end, points[i].elapsed);
    SegmentsMean(points, end, points[i].elapsed, c);
    StateAtSample(points, i);
  }

  /** None stands for the StopIteration of a sample without the worker. With increasing
      sample times every sample that is no error lies in exactly one of the segments, the
      one that carries the state the sample reports. */
  method CircuitSegments(samples: seq<Sample>, id: string, duration: real) returns (r: Option<seq<Segment>>)
    ensures r.None? <==> exists k :: 0 <= k < |samples| && LacksWorker(samples[k], id)
    ensures r.Some? ==> Points(samples, id).Some? && r.value == Segments(Points(samples, id).value, duration)
    ensures r.Some? && Increasing(samples, duration) ==>
      forall k | 0 <= k < |samples| && samples[k].workers.Some? ::
        && WorkerState(samples[k].workers.value, id).Some?
        && ShownOnce(r.value, samples[k].elapsed, WorkerState(samples[k].workers.value, id).value)
  {
    PointsDefined(samples, id);
    var points := CollectPoints(samples, id);
    if points.None? {
      return None;
    }
    var segments := BuildSegments(points.value, duration);
    if Increasing(samples, duration) {
      forall k | 0 <= k < |samples| && samples[k].workers.Some?
        ensures WorkerState(samples[k].workers.value, id).Some?
        ensures ShownOnce(segments, samples[k].elapsed, WorkerState(samples[k].workers.value, id).value)
      {
        SampleShown(samples, id, duration, k);
      }
    }
    return Some(segments);
  }
}

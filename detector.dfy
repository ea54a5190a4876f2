/**
 * Inductive-loop detector of the traffic network: an append-only history of
 * occupancy changes and its export as a step function of (time, level) points.
 *
 * Times are the simulator's float seconds, modelled as exact reals.
 */
module Network {

  /** One recorded change: at `timeInstant` the detector went to `state`. */
  datatype Detection = Detection(timeInstant: real, state: bool)

  /** A point of the exported step function: (time, level with level in {0, 1}). */
  type Point = (real, int)

  /** Delay between the two points one detection expands into. */
  const RiseTime: real := 0.01

  /** Python's `int(b)` on a boolean. */
  function BoolToInt(b: bool): (r: int)
    ensures r == 0 || r == 1
    ensures r == 1 <==> b
  {
    if b then 1 else 0
  }

  /**
   * The two points one detection expands into: the negated new level at the
   * detection's time, then the new level RiseTime later. The first is the level
   * before the change only when the detection really changed the state.
   */
  function Expand(d: Detection): seq<Point>
  {
    [(d.timeInstant, BoolToInt(!d.state)), (d.timeInstant + RiseTime, BoolToInt(d.state))]
  }

  /** The exported step function of a whole history, in history order. */
  function Export(history: seq<Detection>): (points: seq<Point>)
    ensures |points| == 2 * |history|
  {
    if history == [] then []
    else Export(history[..|history| - 1]) + Expand(history[|history| - 1])
  }

  /** Reference definition of the export, point by point: point 2i is the negated new level of detection i, point 2i+1 its new level. */
  function PointAt(history: seq<Detection>, k: nat): Point
    requires k < 2 * |history|
  {
    var d := history[k / 2];
    if k % 2 == 0 then (d.timeInstant, BoolToInt(!d.state))
    else (d.timeInstant + RiseTime, BoolToInt(d.state))
  }

  /** Index-wise behaviour of the export. */
  lemma {:induction false} ExportAt(history: seq<Detection>, i: nat)
    requires i < |history|
    ensures Export(history)[2 * i] == (history[i].timeInstant, BoolToInt(!history[i].state))
    ensures Export(history)[2 * i + 1] == (history[i].timeInstant + RiseTime, BoolToInt(history[i].state))
  {
    var n := |history| - 1;
    if i < n {
      ExportAt(history[..n], i);
      assert history[..n][i] == history[i];
    }
  }

  /** Point k of the export is the reference point k. */
  lemma {:induction false} ExportPoint(history: seq<Detection>, k: nat)
    requires k < 2 * |history|
    ensures Export(history)[k] == PointAt(history, k)
  {
    var i := k / 2;
    ExportAt(history, i);
    if k % 2 == 0 {
      assert k == 2 * i;
    } else {
      assert k == 2 * i + 1;
    }
  }

  /** The recursive export agrees with the point-by-point reference definition. */
  lemma {:induction false} ExportIsPointwise(history: seq<Detection>)
    ensures Export(history) == seq(2 * |history|, k requires 0 <= k < 2 * |history| => PointAt(history, k))
  {
    var r := seq(2 * |history|, k requires 0 <= k < 2 * |history| => PointAt(history, k));
    forall k | 0 <= k < 2 * |history|
      ensures Export(history)[k] == r[k]
    {
      ExportPoint(history, k);
    }
  }

  /** Exporting a concatenation exports each part in turn. */
  lemma {:induction false} ExportAppend(a: seq<Detection>, b: seq<Detection>)
    ensures Export(a + b) == Export(a) + Export(b)
  {
    if b == [] {
      assert a + b == a;
    } else {
      var n := |b| - 1;
      ExportAppend(a, b[..n]);
      assert (a + b)[..|a + b| - 1] == a + b[..n];
      assert (a + b)[|a + b| - 1] == b[n];
    }
  }

  /** Every exported level is 0 or 1; the two points of a pair differ in level and are RiseTime apart. */
  lemma {:induction false} ExportLevels(history: seq<Detection>)
    ensures forall k :: 0 <= k < |Export(history)| ==> Export(history)[k].1 == 0 || Export(history)[k].1 == 1
    ensures forall k :: 0 <= k < |Export(history)| && k % 2 == 0 ==>
      Export(history)[k].1 != Export(history)[k + 1].1 &&
      Export(history)[k + 1].0 == Export(history)[k].0 + RiseTime
  {
    forall k | 0 <= k < |Export(history)|
      ensures Export(history)[k] == PointAt(history, k)
    {
      ExportPoint(history, k);
    }
  }

  /** Consecutive detections are at least RiseTime apart. */
  ghost predicate SpacedByRiseTime(history: seq<Detection>)
  {
    forall i :: 0 < i < |history| ==> history[i - 1].timeInstant + RiseTime <= history[i].timeInstant
  }

  /** The time axis of a point list never goes back. */
  ghost predicate TimesNonDecreasing(points: seq<Point>)
  {
    forall k :: 0 < k < |points| ==> points[k - 1].0 <= points[k].0
  }

  /** The exported time axis is non-decreasing exactly when consecutive detections are at least RiseTime apart. */
  lemma {:induction false} ExportTimesOrdered(history: seq<Detection>)
    ensures TimesNonDecreasing(Export(history)) <==> SpacedByRiseTime(history)
  {
    if SpacedByRiseTime(history) {
      forall k | 0 < k < |Export(history)|
        ensures Export(history)[k - 1].0 <= Export(history)[k].0
      {
        ExportPoint(history, k);
        ExportPoint(history, k - 1);
      }
    }
    if TimesNonDecreasing(Export(history)) {
      forall i | 0 < i < |history|
        ensures history[i - 1].timeInstant + RiseTime <= history[i].timeInstant
      {
        ExportAt(history, i);
        ExportAt(history, i - 1);
        assert 2 * i - 1 == 2 * (i - 1) + 1;
      }
    }
  }

  /**
   * The first point of detection i shows the level of detection i - 1 exactly
   * when detection i changed the state.
   */
  lemma ExportPreviousLevel(history: seq<Detection>, i: nat)
    requires 0 < i < |history|
    ensures Export(history)[2 * i].1 == BoolToInt(history[i - 1].state) <==> history[i - 1].state != history[i].state
  {
  }

  /** A repeated state exports a first point that is not the level before it. */
  lemma RepeatedStateExport()
    ensures var e := Export([Detection(0.0, false), Detection(1.0, false)]);
      e[1].1 == 0 && e[2] == (1.0, 1)
  {
  }

  /** Two detections at the same instant give an export whose time axis goes back by RiseTime. */
  lemma SameInstantExportGoesBack()
    ensures var e := Export([Detection(1.0, true), Detection(1.0, false)]);
      e[1].0 == 1.01 && e[2].0 == 1.0
  {
  }

  /** Reads a history back from an export: detection i is at the time of point 2i with the level of point 2i+1. */
  function Recover(points: seq<Point>): (history: seq<Detection>)
    requires |points| % 2 == 0
    ensures |history| == |points| / 2
  {
    seq(|points| / 2, i requires 0 <= i < |points| / 2 => Detection(points[2 * i].0, points[2 * i + 1].1 == 1))
  }

  /** The export loses nothing: the history can be read back from it. */
  lemma {:induction false} ExportRoundTrip(history: seq<Detection>)
    ensures Recover(Export(history)) == history
  {
    forall i | 0 <= i < |history|
      ensures Recover(Export(history))[i] == history[i]
    {
      ExportAt(history, i);
    }
  }

  /** An inductive detector on a lane; its history only ever grows. */
  class Detector {
    const id: string
    const edgeId: string
    const laneId: string
    const position: real
    var detectionHistory: seq<Detection>
    var state: bool

    /** The current state mirrors the last recorded detection. */
    ghost predicate Valid()
      reads this
    {
      |detectionHistory| > 0 && state == detectionHistory[|detectionHistory| - 1].state
    }

    /** A new detector starts with the implicit detection (0.0, false). */
    constructor (detectorId: string, edgeId: string, laneId: string, position: real)
      ensures id == detectorId && this.edgeId == edgeId && this.laneId == laneId && this.position == position
      ensures detectionHistory == [Detection(0.0, false)] && !state
      ensures Valid()
    {
      id := detectorId;
      this.edgeId := edgeId;
      this.laneId := laneId;
      this.position := position;
      detectionHistory := [];
      state := false;
      new;
      UpdateDetectionHistory(0.0, false);
    }

    /** Records a change; appends even when the state is unchanged. */
    method UpdateDetectionHistory(timeInstant: real, state: bool)
      modifies this
      ensures detectionHistory == old(detectionHistory) + [Detection(timeInstant, state)]
      ensures this.state == state
      ensures Valid()
    {
      this.state := state;
      detectionHistory := detectionHistory + [Detection(timeInstant, state)];
    }

    /** Expands every detection into two points; changes nothing. */
    method ExportDetectionHistory() returns (detectorHistory: seq<Point>)
      ensures detectorHistory == Export(detectionHistory)
    {
      detectorHistory := [];
      for i := 0 to |detectionHistory|
        invariant detectorHistory == Export(detectionHistory[..i])
      {
        assert detectionHistory[..i + 1][..i] == detectionHistory[..i];
        detectorHistory := detectorHistory + Expand(detectionHistory[i]);
      }
      assert detectionHistory[..|detectionHistory|] == detectionHistory;
    }
  }

  /** A detector that sees a vehicle at 1.0 s and loses it at 2.5 s. */
  method OccupancyScenario() returns (points: seq<Point>)
    ensures points == [(0.0, 1), (0.01, 0), (1.0, 0), (1.01, 1), (2.5, 1), (2.51, 0)]
  {
    var det := new Detector("MY_ID", "EDGE", "LANE", 100.0);
    det.UpdateDetectionHistory(1.0, true);
    det.UpdateDetectionHistory(2.5, false);
    points := det.ExportDetectionHistory();
    assert det.detectionHistory == [Detection(0.0, false), Detection(1.0, true), Detection(2.5, false)];
    ExportIsPointwise(det.detectionHistory);
  }
}

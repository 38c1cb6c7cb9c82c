/**
 The proximity check of `ObjectDetector.checkProximityAndVibrate`: the centre of each
 detection's box is scaled to the depth map's size, truncated to integer indices,
 bounds-checked, and the distance there is compared with one metre. A near object
 always produces a haptic pulse, and a "Close object ahead" utterance unless speech
 is already in flight.

 The depth map is a grid of distances in metres, read row by row; the pixel-buffer
 locking and pointer arithmetic that the source uses for the read are replaced by
 indexing. Haptic pulses and utterances are emitted as alert values.
 */
module Proximity {
  import opened Optional
  import opened Detections

  /** A depth map: `height` rows of `width` distances, in metres. */
  datatype DepthGrid = DepthGrid(width: nat, height: nat, rows: seq<seq<real>>) {
    predicate Valid() {
      |rows| == height && forall y :: 0 <= y < |rows| ==> |rows[y]| == width
    }
  }

  /** Depth maps whose rows match their stated size. */
  type DepthMap = g: DepthGrid | g.Valid() witness DepthGrid(0, 0, [])

  /** Objects strictly closer than this many metres are near. */
  const NearDistance: real := 1.0

  /** The two actions the proximity check can take. */
  datatype Alert = HapticPulse | CloseObjectAhead

  /** Conversion of a real to an integer that truncates toward zero, as Swift's `Int(_:)` does. */
  function TruncateToInt(x: real): (n: int)
    ensures 0.0 <= x ==> 0 <= n && n as real <= x < n as real + 1.0
    ensures x < 0.0 ==> n <= 0 && n as real - 1.0 < x <= n as real
  {
    if x >= 0.0 then x.Floor else -((-x).Floor)
  }

  /** The grid column and row of a box's centre. */
  datatype Cell = Cell(column: int, row: int)

  /**
   The cell of a box's centre: each scaled coordinate truncated toward zero, so a
   centre up to one cell left of or above the grid still lands in column or row 0.
   */
  function CentreCell(box: Rect, grid: DepthMap): (c: Cell)
    ensures var x := box.MidX() * grid.width as real;
            && (0.0 <= x ==> 0 <= c.column && c.column as real <= x < c.column as real + 1.0)
            && (x < 0.0 ==> c.column <= 0 && c.column as real - 1.0 < x <= c.column as real)
    ensures var y := box.MidY() * grid.height as real;
            && (0.0 <= y ==> 0 <= c.row && c.row as real <= y < c.row as real + 1.0)
            && (y < 0.0 ==> c.row <= 0 && c.row as real - 1.0 < y <= c.row as real)
  {
    Cell(TruncateToInt(box.MidX() * grid.width as real), TruncateToInt(box.MidY() * grid.height as real))
  }

  predicate InBounds(c: Cell, grid: DepthMap) {
    0 <= c.column < grid.width && 0 <= c.row < grid.height
  }

  /** The distance at the centre of a box, or `None` when its cell lies outside the grid. */
  function SampleAt(box: Rect, grid: DepthMap): (r: Option<real>)
    ensures r.Some? <==> InBounds(CentreCell(box, grid), grid)
    ensures r.Some? ==> r.value == grid.rows[CentreCell(box, grid).row][CentreCell(box, grid).column]
  {
    var c := CentreCell(box, grid);
    if InBounds(c, grid) then Some(grid.rows[c.row][c.column]) else None
  }

  predicate IsNear(distance: real) {
    distance < NearDistance
  }

  /** The depth sample of each detection, in order; `None` marks a centre outside the grid. */
  function Samples(objects: seq<DetectedObject>, grid: DepthMap): (r: seq<Option<real>>)
    ensures |r| == |objects|
    ensures forall i :: 0 <= i < |objects| ==> r[i] == SampleAt(objects[i].boundingBox, grid)
  {
    seq(|objects|, i requires 0 <= i < |objects| => SampleAt(objects[i].boundingBox, grid))
  }

  /** Whether a sample exists and is near. */
  predicate NearSample(d: Option<real>) {
    d.Some? && IsNear(d.value)
  }

  /** How many samples are near. */
  function NearCount(samples: seq<Option<real>>): (n: nat)
    ensures n <= |samples|
  {
    if samples == [] then 0 else (if NearSample(samples[0]) then 1 else 0) + NearCount(samples[1..])
  }

  /** What one sample triggers: nothing unless it is near; then a pulse and, if speech is idle, the warning. */
  function SampleAlerts(d: Option<real>, isSpeaking: bool): seq<Alert> {
    if NearSample(d) then [HapticPulse] + (if isSpeaking then [] else [CloseObjectAhead]) else []
  }

  /** The alerts for a sequence of samples, one sample after another. */
  function AlertsFor(samples: seq<Option<real>>, isSpeaking: bool): (r: seq<Alert>)
    ensures |r| == (if isSpeaking then 1 else 2) * NearCount(samples)
  {
    if samples == [] then []
    else SampleAlerts(samples[0], isSpeaking) + AlertsFor(samples[1..], isSpeaking)
  }

  /** The alerts of one proximity pass over the detections, in order. */
  function ProximityAlerts(objects: seq<DetectedObject>, grid: DepthMap, isSpeaking: bool): (r: seq<Alert>)
    ensures multiset(r)[HapticPulse] == NearCount(Samples(objects, grid))
    ensures multiset(r)[CloseObjectAhead] == if isSpeaking then 0 else NearCount(Samples(objects, grid))
    ensures isSpeaking ==> forall i :: 0 <= i < |r| ==> r[i] == HapticPulse
  {
    AlertCounts(Samples(objects, grid), isSpeaking);
    SpeakingGivesPulsesOnly(Samples(objects, grid));
    AlertsFor(Samples(objects, grid), isSpeaking)
  }

  /**
   Every near sample gives exactly one pulse; the spoken warning is issued once per
   near sample when speech is idle and never while it is in flight.
   */
  lemma {:induction false} AlertCounts(samples: seq<Option<real>>, isSpeaking: bool)
    ensures multiset(AlertsFor(samples, isSpeaking))[HapticPulse] == NearCount(samples)
    ensures multiset(AlertsFor(samples, isSpeaking))[CloseObjectAhead]
            == if isSpeaking then 0 else NearCount(samples)
  {
    if samples != [] {
      AlertCounts(samples[1..], isSpeaking);
      var head := SampleAlerts(samples[0], isSpeaking);
      var tail := AlertsFor(samples[1..], isSpeaking);
      assert multiset(head + tail) == multiset(head) + multiset(tail);
    }
  }

  /** Samples are processed independently: the alerts of a concatenation are the concatenated alerts. */
  lemma {:induction false} AlertsForAppend(a: seq<Option<real>>, b: seq<Option<real>>, isSpeaking: bool)
    ensures AlertsFor(a + b, isSpeaking) == AlertsFor(a, isSpeaking) + AlertsFor(b, isSpeaking)
  {
    if a == [] {
      assert a + b == b;
    } else {
      assert (a + b)[0] == a[0];
      assert (a + b)[1..] == a[1..] + b;
      AlertsForAppend(a[1..], b, isSpeaking);
    }
  }

  /**
   A missing sample (a detection whose centre falls outside the grid) is skipped: it
   adds no alert and the samples around it are processed as if it were absent.
   */
  lemma MissingSampleSkipped(before: seq<Option<real>>, after: seq<Option<real>>, isSpeaking: bool)
    ensures AlertsFor(before + [None] + after, isSpeaking) == AlertsFor(before + after, isSpeaking)
  {
    var missing: seq<Option<real>> := [None];
    assert AlertsFor(missing, isSpeaking) == [] by {
      assert missing[1..] == [];
    }
    AlertsForAppend(before, [None], isSpeaking);
    AlertsForAppend(before + [None], after, isSpeaking);
    AlertsForAppend(before, after, isSpeaking);
  }

  /** Sampling commutes with concatenation, so a detection outside the grid is a `None` in place. */
  lemma SamplesAppend(a: seq<DetectedObject>, o: DetectedObject, b: seq<DetectedObject>, grid: DepthMap)
    requires SampleAt(o.boundingBox, grid).None?
    ensures Samples(a + [o] + b, grid) == Samples(a, grid) + [None] + Samples(b, grid)
  {
    var l := Samples(a + [o] + b, grid);
    var r := Samples(a, grid) + [None] + Samples(b, grid);
    forall i | 0 <= i < |l| ensures l[i] == r[i] {
      if i < |a| {
        assert (a + [o] + b)[i] == a[i];
      } else if i == |a| {
        assert (a + [o] + b)[i] == o;
      } else {
        assert (a + [o] + b)[i] == b[i - |a| - 1];
      }
    }
  }

  /**
   A detection whose centre falls outside the grid triggers no pulse and no speech,
   and the detections around it are processed as if it were absent.
   */
  lemma OutOfBoundsSkipped(before: seq<DetectedObject>, o: DetectedObject, after: seq<DetectedObject>,
                           grid: DepthMap, isSpeaking: bool)
    requires SampleAt(o.boundingBox, grid).None?
    ensures ProximityAlerts(before + [o] + after, grid, isSpeaking)
            == ProximityAlerts(before + after, grid, isSpeaking)
  {
    SamplesAppend(before, o, after, grid);
    MissingSampleSkipped(Samples(before, grid), Samples(after, grid), isSpeaking);
    assert Samples(before + after, grid) == Samples(before, grid) + Samples(after, grid);
  }

  /** While speech is in flight the pass produces only pulses. */
  lemma {:induction false} SpeakingGivesPulsesOnly(samples: seq<Option<real>>)
    ensures forall i :: 0 <= i < |AlertsFor(samples, true)| ==> AlertsFor(samples, true)[i] == HapticPulse
  {
    if samples != [] {
      SpeakingGivesPulsesOnly(samples[1..]);
    }
  }

  /** Exactly one metre is not near; a millimetre less is. */
  lemma NearBoundary()
    ensures !IsNear(1.0) && IsNear(0.999)
  {
  }

  /** A centre that scales to (5000, 5000) on a 640 by 480 grid has no sample. */
  lemma FarOutsideHasNoSample(grid: DepthMap)
    requires grid.width == 640 && grid.height == 480
    ensures CentreCell(Rect(7.8125, 10.0, 0.0, 5.0 / 6.0), grid) == Cell(5000, 5000)
    ensures SampleAt(Rect(7.8125, 10.0, 0.0, 5.0 / 6.0), grid).None?
  {
  }

  /**
   Truncation toward zero admits centres slightly left of or above the image: a
   scaled coordinate in (-1, 0) becomes index 0, which passes the bounds check.
   */
  lemma SlightlyNegativeTruncatesToZero(x: real)
    requires -1.0 < x < 0.0
    ensures TruncateToInt(x) == 0
  {
  }

  /**
   On a non-empty grid, a box whose centre scales into (-1, 0) on both axes lands in
   cell (0, 0), passes the bounds check and is sampled there.
   */
  lemma SlightlyNegativeCentreSampled(grid: DepthMap, box: Rect)
    requires grid.width > 0 && grid.height > 0
    requires -1.0 < box.MidX() * grid.width as real < 0.0
    requires -1.0 < box.MidY() * grid.height as real < 0.0
    ensures InBounds(CentreCell(box, grid), grid)
    ensures SampleAt(box, grid) == Some(grid.rows[0][0])
  {
    SlightlyNegativeTruncatesToZero(box.MidX() * grid.width as real);
    SlightlyNegativeTruncatesToZero(box.MidY() * grid.height as real);
    assert CentreCell(box, grid) == Cell(0, 0);
  }
}

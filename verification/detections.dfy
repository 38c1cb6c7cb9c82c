/**
 Shaping of the raw recognition results into the detection list that the rest of
 `ObjectDetector` works on: keep observations above the confidence threshold, take
 the first three, drop the unlabelled ones, and capitalise the label of each.

 The recognition model itself is not modelled: its output is an input sequence of
 observations. Label capitalisation is a parameter `capitalize`, since Foundation's
 `capitalized` is not part of this model.
 */
module Detections {
  import opened Optional

  /** A classification attached to an observation: identifier and its own confidence. */
  datatype Label = Label(identifier: string, confidence: real)

  /** An axis-aligned rectangle in normalised image coordinates: origin and size. */
  datatype Rect = Rect(x: real, y: real, width: real, height: real) {

    /** Horizontal centre; for a negative width this is still origin plus half the width. */
    function MidX(): real { x + width / 2.0 }

    /** Vertical centre. */
    function MidY(): real { y + height / 2.0 }
  }

  /** One recognised-object observation as the model reports it; `labels` is ranked, best first. */
  datatype Observation = Observation(confidence: real, labels: seq<Label>, boundingBox: Rect)

  /** A shaped detection: the capitalised top label, that label's confidence, and the box. */
  datatype DetectedObject = DetectedObject(identifier: string, confidence: real, boundingBox: Rect)

  /** Observations must be strictly more confident than this to be kept. */
  const ConfidenceThreshold: real := 0.6

  /** At most this many observations are taken after the confidence filter. */
  const MaxDetections: nat := 3

  predicate Passes(o: Observation) {
    o.confidence > ConfidenceThreshold
  }

  /** The observations that pass the confidence filter, in result order. */
  function Passing(results: seq<Observation>): (r: seq<Observation>)
    ensures |r| <= |results|
    ensures forall i :: 0 <= i < |r| ==> Passes(r[i])
  {
    if results == [] then []
    else if Passes(results[0]) then [results[0]] + Passing(results[1..])
    else Passing(results[1..])
  }

  /** The first `n` elements of `s`, or all of `s` when it is shorter. */
  function Take<T>(s: seq<T>, n: nat): (r: seq<T>)
    ensures |r| == if |s| < n then |s| else n
    ensures r <= s
  {
    if |s| <= n then s else s[..n]
  }

  /**
   The detection made from one observation: nothing when it has no label; otherwise
   its top-ranked label, capitalised, with that label's confidence (not the
   observation's) and the observation's box.
   */
  function Detect(o: Observation, capitalize: string -> string): (r: Option<DetectedObject>)
    ensures r.None? <==> o.labels == []
    ensures r.Some? ==> && r.value.identifier == capitalize(o.labels[0].identifier)
                        && r.value.confidence == o.labels[0].confidence
                        && r.value.boundingBox == o.boundingBox
  {
    if o.labels == [] then None
    else Some(DetectedObject(capitalize(o.labels[0].identifier), o.labels[0].confidence, o.boundingBox))
  }

  /** The compacting map: one detection per labelled observation, in order; unlabelled ones vanish. */
  function Labelled(obs: seq<Observation>, capitalize: string -> string): (r: seq<DetectedObject>)
    ensures |r| <= |obs|
    ensures (forall i :: 0 <= i < |obs| ==> obs[i].labels != []) ==> |r| == |obs|
  {
    if obs == [] then []
    else match Detect(obs[0], capitalize)
      case None => Labelled(obs[1..], capitalize)
      case Some(d) => [d] + Labelled(obs[1..], capitalize)
  }

  /** The detection list built from one set of recognition results. */
  function Shape(results: seq<Observation>, capitalize: string -> string): (r: seq<DetectedObject>)
    ensures |r| <= MaxDetections
    ensures |r| <= |Passing(results)|
  {
    Labelled(Take(Passing(results), MaxDetections), capitalize)
  }

  /** Compacting distributes over concatenation. */
  lemma {:induction false} LabelledAppend(a: seq<Observation>, b: seq<Observation>, capitalize: string -> string)
    ensures Labelled(a + b, capitalize) == Labelled(a, capitalize) + Labelled(b, capitalize)
  {
    if a == [] {
      assert a + b == b;
    } else {
      assert (a + b)[1..] == a[1..] + b;
      LabelledAppend(a[1..], b, capitalize);
    }
  }

  /** An observation is kept by the confidence filter exactly when it passes. */
  lemma {:induction false} PassingMembers(results: seq<Observation>, o: Observation)
    ensures o in Passing(results) <==> o in results && Passes(o)
  {
    if results != [] {
      PassingMembers(results[1..], o);
      assert results == [results[0]] + results[1..];
    }
  }

  /** Every compacted detection is made from some labelled observation of the input. */
  lemma {:induction false} LabelledMembers(obs: seq<Observation>, capitalize: string -> string, d: DetectedObject)
    requires d in Labelled(obs, capitalize)
    ensures exists o :: o in obs && Detect(o, capitalize) == Some(d)
  {
    if Detect(obs[0], capitalize) == Some(d) {
    } else {
      LabelledMembers(obs[1..], capitalize, d);
      var o :| o in obs[1..] && Detect(o, capitalize) == Some(d);
      assert o in obs;
    }
  }

  /**
   Every shaped detection comes from a labelled observation of the results whose
   confidence is above the threshold, and carries that observation's box.
   */
  lemma ShapeProvenance(results: seq<Observation>, capitalize: string -> string, d: DetectedObject)
    requires d in Shape(results, capitalize)
    ensures exists o :: o in results && Passes(o) && Detect(o, capitalize) == Some(d)
  {
    var t := Take(Passing(results), MaxDetections);
    LabelledMembers(t, capitalize, d);
    var o :| o in t && Detect(o, capitalize) == Some(d);
    assert o in Passing(results);
    PassingMembers(results, o);
  }

  /**
   Order is kept: the shaped list is a prefix of the list of ALL labelled, passing
   observations in result order. It need not be the first three of that list,
   because the three-cap applies before unlabelled observations are dropped.
   */
  lemma ShapeIsPrefixOfLabelledPassing(results: seq<Observation>, capitalize: string -> string)
    ensures Shape(results, capitalize) <= Labelled(Passing(results), capitalize)
  {
    var p := Passing(results);
    var t := Take(p, MaxDetections);
    assert p == t + p[|t|..];
    LabelledAppend(t, p[|t|..], capitalize);
  }

  /** When the first three passing observations all carry a label, nothing is lost by compacting. */
  lemma ShapeFullWhenLabelled(results: seq<Observation>, capitalize: string -> string)
    requires forall i :: 0 <= i < |Take(Passing(results), MaxDetections)| ==>
               Take(Passing(results), MaxDetections)[i].labels != []
    ensures |Shape(results, capitalize)| ==
            if |Passing(results)| < MaxDetections then |Passing(results)| else MaxDetections
  {
  }

  /**
   Single-pass reading of the filter/prefix/compactMap chain: walk the results once,
   spend one unit of `budget` on every observation that passes, and emit a detection
   for those of them that carry a label.
   */
  function ShapeFrom(results: seq<Observation>, budget: nat, capitalize: string -> string): seq<DetectedObject>
  {
    if results == [] || budget == 0 then []
    else if Passes(results[0]) then
      (match Detect(results[0], capitalize) case None => [] case Some(d) => [d])
      + ShapeFrom(results[1..], budget - 1, capitalize)
    else ShapeFrom(results[1..], budget, capitalize)
  }

  lemma {:induction false} LabelledTakePassing(results: seq<Observation>, budget: nat, capitalize: string -> string)
    ensures Labelled(Take(Passing(results), budget), capitalize) == ShapeFrom(results, budget, capitalize)
  {
    if results == [] || budget == 0 {
    } else if Passes(results[0]) {
      LabelledTakePassing(results[1..], budget - 1, capitalize);
      PassingStep(results, budget, capitalize);
    } else {
      LabelledTakePassing(results[1..], budget, capitalize);
    }
  }

  /** The inductive step for a passing head observation. */
  lemma PassingStep(results: seq<Observation>, budget: nat, capitalize: string -> string)
    requires results != [] && budget > 0 && Passes(results[0])
    requires Labelled(Take(Passing(results[1..]), budget - 1), capitalize)
             == ShapeFrom(results[1..], budget - 1, capitalize)
    ensures Labelled(Take(Passing(results), budget), capitalize) == ShapeFrom(results, budget, capitalize)
  {
    var x := results[0];
    var t := Take(Passing(results[1..]), budget - 1);
    TakePassingCons(results, budget);
    LabelledAppend([x], t, capitalize);
  }

  lemma TakePassingCons(results: seq<Observation>, budget: nat)
    requires results != [] && budget > 0 && Passes(results[0])
    ensures Take(Passing(results), budget) == [results[0]] + Take(Passing(results[1..]), budget - 1)
  {
    TakeCons(results[0], Passing(results[1..]), budget);
  }

  lemma TakeCons<T>(x: T, s: seq<T>, n: nat)
    requires n > 0
    ensures Take([x] + s, n) == [x] + Take(s, n - 1)
  {
  }

  /** The chained definition and the single-pass one agree on every input. */
  lemma ShapeIsSinglePass(results: seq<Observation>, capitalize: string -> string)
    ensures Shape(results, capitalize) == ShapeFrom(results, MaxDetections, capitalize)
  {
    LabelledTakePassing(results, MaxDetections, capitalize);
  }

  /**
   Four confident observations whose first has no label give two detections, not
   three: the cap is taken before unlabelled observations are dropped.
   */
  lemma ShortfallAfterCap(capitalize: string -> string)
    ensures var box := Rect(0.0, 0.0, 1.0, 1.0);
            var l := [Label("chair", 0.9)];
            var results := [Observation(0.9, [], box), Observation(0.8, l, box),
                            Observation(0.7, l, box), Observation(0.95, l, box)];
            |Passing(results)| == 4 && |Shape(results, capitalize)| == 2
  {
  }
}

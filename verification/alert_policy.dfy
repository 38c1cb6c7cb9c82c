/**
 The per-label speech debounce of `ObjectDetector`: the `lastSpeakTime` map, the
 `isCurrentlySpeaking` flag, `speakDetections`, `cleanupOldSpokenObjects`, and the
 two speech-synthesizer delegate callbacks that clear the flag.

 Time is real-valued seconds; the clock reading `Date()` is the parameter `now`,
 and `timeIntervalSince` is plain subtraction. The synthesizer itself is not
 modelled: a call reports the set of labels it hands to the synthesizer.
 */
module AlertPolicy {
  import opened Detections

  /** A label is not spoken again until this many seconds after it was last spoken. */
  const RepeatInterval: real := 3.0

  /** Entries this old or older are purged: twice the repeat interval. */
  const CleanupInterval: real := RepeatInterval * 2.0

  /** The detector's speech state: last time each label was spoken, and whether an utterance is in flight. */
  datatype AlertState = AlertState(lastSpeakTime: map<string, real>, isSpeaking: bool)

  /** The state of a freshly created detector. */
  const Initial := AlertState(map[], false)

  /** A label is due for speech when it has no entry or its entry is at least the repeat interval old. */
  predicate Due(lastSpeakTime: map<string, real>, name: string, now: real) {
    name in lastSpeakTime ==> now - lastSpeakTime[name] >= RepeatInterval
  }

  /** The distinct identifiers of a detection list. */
  function Identifiers(detections: seq<DetectedObject>): set<string> {
    set i | 0 <= i < |detections| :: detections[i].identifier
  }

  /** The purge pass: keep only the entries younger than the cleanup interval. */
  function Cleanup(lastSpeakTime: map<string, real>, now: real): (r: map<string, real>)
    ensures r.Keys <= lastSpeakTime.Keys
    ensures forall l :: l in r ==> r[l] == lastSpeakTime[l] && now - r[l] < CleanupInterval
    ensures forall l :: l in lastSpeakTime && now - lastSpeakTime[l] < CleanupInterval ==> l in r
  {
    map l | l in lastSpeakTime && now - lastSpeakTime[l] < CleanupInterval :: lastSpeakTime[l]
  }

  /** What one call of the speech step produces: the next state and the labels handed to the synthesizer. */
  datatype Announcement = Announcement(state: AlertState, spoken: set<string>)

  /**
   The labels of a detection list that are due at `now`: a detected label never
   spoken before always is; one spoken before is exactly when at least the repeat
   interval has passed since.
   */
  function DueLabels(lastSpeakTime: map<string, real>, detections: seq<DetectedObject>, now: real): (r: set<string>)
    ensures r <= Identifiers(detections)
    ensures forall name :: name in Identifiers(detections) && name !in lastSpeakTime ==> name in r
    ensures forall name :: name in Identifiers(detections) && name in lastSpeakTime ==>
              (name in r <==> lastSpeakTime[name] + RepeatInterval <= now)
  {
    set name | name in Identifiers(detections) && Due(lastSpeakTime, name, now)
  }

  /** Record `now` as the last speak time of every label in `names`. */
  function Stamp(lastSpeakTime: map<string, real>, names: set<string>, now: real): (r: map<string, real>)
    ensures r.Keys == lastSpeakTime.Keys + names
    ensures forall name :: name in names ==> r[name] == now
    ensures forall name :: name in lastSpeakTime && name !in names ==> r[name] == lastSpeakTime[name]
  {
    lastSpeakTime + map name | name in names :: now
  }

  /**
   One call of `speakDetections` at time `now`. Nothing happens for an empty list
   or when no label is due; otherwise every due label is stamped with `now` and
   spoken, the flag is raised, and the purge pass runs.
   */
  function SpeakDetections(s: AlertState, detections: seq<DetectedObject>, now: real): (r: Announcement)
    ensures forall name :: name in r.spoken <==>
              name in Identifiers(detections)
              && (name !in s.lastSpeakTime || now - s.lastSpeakTime[name] >= RepeatInterval)
    ensures r.spoken == {} ==> r.state == s
    ensures r.spoken != {} ==> r.state.isSpeaking
    ensures forall name :: name in r.spoken ==> name in r.state.lastSpeakTime && r.state.lastSpeakTime[name] == now
    ensures forall name :: name in r.state.lastSpeakTime && name !in r.spoken ==>
              name in s.lastSpeakTime && r.state.lastSpeakTime[name] == s.lastSpeakTime[name]
    ensures forall name :: name in s.lastSpeakTime && name !in r.spoken ==>
              (name in r.state.lastSpeakTime <==>
                 r.spoken == {} || now - s.lastSpeakTime[name] < CleanupInterval)
    ensures r.spoken != {} ==>
              forall name :: name in r.state.lastSpeakTime ==> now - r.state.lastSpeakTime[name] < CleanupInterval
  {
    var toSpeak := DueLabels(s.lastSpeakTime, detections, now);
    if |detections| == 0 || toSpeak == {} then Announcement(s, {})
    else Announcement(AlertState(Cleanup(Stamp(s.lastSpeakTime, toSpeak, now), now), true), toSpeak)
  }

  /** A label occurs in a detection list exactly when some detection carries it. */
  lemma IdentifiersMembers(detections: seq<DetectedObject>, name: string)
    ensures name in Identifiers(detections) <==>
              exists i :: 0 <= i < |detections| && detections[i].identifier == name
  {
  }

  /**
   The loop of `speakDetections` over the due labels, in whatever order the set is
   walked: each label is stamped with `now` and exactly one utterance is queued for it.
   */
  method AnnounceEach(lastSpeakTime: map<string, real>, toSpeak: set<string>, now: real)
    returns (stamped: map<string, real>, utterances: seq<string>)
    ensures stamped.Keys == lastSpeakTime.Keys + toSpeak
    ensures forall name :: name in toSpeak ==> stamped[name] == now
    ensures forall name :: name in lastSpeakTime && name !in toSpeak ==> stamped[name] == lastSpeakTime[name]
    ensures forall name :: name in utterances <==> name in toSpeak
    ensures forall i, j :: 0 <= i < j < |utterances| ==> utterances[i] != utterances[j]
    ensures stamped == Stamp(lastSpeakTime, toSpeak, now)
  {
    stamped := lastSpeakTime;
    utterances := [];
    var rest := toSpeak;
    while rest != {}
      invariant rest <= toSpeak
      invariant stamped.Keys == lastSpeakTime.Keys + (toSpeak - rest)
      invariant forall name :: name in toSpeak - rest ==> stamped[name] == now
      invariant forall name :: name in lastSpeakTime && name !in toSpeak - rest ==> stamped[name] == lastSpeakTime[name]
      invariant forall name :: name in utterances <==> name in toSpeak - rest
      invariant forall i, j :: 0 <= i < j < |utterances| ==> utterances[i] != utterances[j]
      decreases rest
    {
      var name :| name in rest;
      stamped := stamped[name := now];
      utterances := utterances + [name];
      rest := rest - {name};
    }
    assert stamped == Stamp(lastSpeakTime, toSpeak, now);
  }

  /** The synthesizer reports an utterance finished. */
  function SpeechFinished(s: AlertState): (r: AlertState)
    ensures !r.isSpeaking && r.lastSpeakTime == s.lastSpeakTime
  {
    s.(isSpeaking := false)
  }

  /** The synthesizer reports an utterance cancelled. */
  function SpeechCancelled(s: AlertState): (r: AlertState)
    ensures !r.isSpeaking && r.lastSpeakTime == s.lastSpeakTime
  {
    s.(isSpeaking := false)
  }

  /** What reaches the speech state: a detection list at a time, or a delegate callback. */
  datatype SpeechEvent =
    | Detected(detections: seq<DetectedObject>, now: real)
    | Finished
    | Cancelled

  function Step(s: AlertState, e: SpeechEvent): Announcement {
    match e
    case Detected(ds, now) => SpeakDetections(s, ds, now)
    case Finished => Announcement(SpeechFinished(s), {})
    case Cancelled => Announcement(SpeechCancelled(s), {})
  }

  /** The state after a sequence of events, applied first to last. */
  function Run(s: AlertState, es: seq<SpeechEvent>): AlertState
    decreases |es|
  {
    if es == [] then s else Run(Step(s, es[0]).state, es[1..])
  }

  /** Every detection event of `es` happens at a time in the half-open window [lo, hi). */
  predicate TimesWithin(es: seq<SpeechEvent>, lo: real, hi: real) {
    forall i :: 0 <= i < |es| && es[i].Detected? ==> lo <= es[i].now < hi
  }

  /** Whether some step of the run from `s` over `es` hands `name` to the synthesizer. */
  predicate SpokenDuring(s: AlertState, es: seq<SpeechEvent>, name: string)
    decreases |es|
  {
    es != [] && (name in Step(s, es[0]).spoken || SpokenDuring(Step(s, es[0]).state, es[1..], name))
  }

  /**
   While every detection event stays within the repeat interval after `t1`, an entry
   stamped at or after `t1` survives and is never moved before `t1`.
   */
  lemma {:induction false} EntryPersistsWithinInterval(s: AlertState, es: seq<SpeechEvent>, name: string, t1: real)
    requires name in s.lastSpeakTime && t1 <= s.lastSpeakTime[name]
    requires TimesWithin(es, t1, t1 + RepeatInterval)
    ensures name in Run(s, es).lastSpeakTime && t1 <= Run(s, es).lastSpeakTime[name]
    decreases |es|
  {
    if es != [] {
      assert TimesWithin(es[1..], t1, t1 + RepeatInterval) by {
        forall i | 0 <= i < |es[1..]| && es[1..][i].Detected?
          ensures t1 <= es[1..][i].now < t1 + RepeatInterval
        {
          assert es[1..][i] == es[i + 1];
        }
      }
      EntryPersistsWithinInterval(Step(s, es[0]).state, es[1..], name, t1);
    }
  }

  /**
   Debounce: a name spoken at `t1` is not spoken again by a later call at `t2` less
   than the repeat interval after `t1`, provided every call in between happened in
   that window too (the clock does not run backwards past `t1`).
   */
  lemma RepeatSuppressed(s: AlertState, ds: seq<DetectedObject>, t1: real,
                         es: seq<SpeechEvent>, ds2: seq<DetectedObject>, t2: real, name: string)
    requires name in SpeakDetections(s, ds, t1).spoken
    requires TimesWithin(es, t1, t1 + RepeatInterval)
    requires t1 <= t2 < t1 + RepeatInterval
    ensures name !in SpeakDetections(Run(SpeakDetections(s, ds, t1).state, es), ds2, t2).spoken
  {
    EntryPersistsWithinInterval(SpeakDetections(s, ds, t1).state, es, name, t1);
  }

  /** An entry is either absent or still holds `t1` as long as its label is not spoken again. */
  lemma {:induction false} EntryUntouchedUntilSpoken(s: AlertState, es: seq<SpeechEvent>, name: string, t1: real)
    requires name !in s.lastSpeakTime || s.lastSpeakTime[name] == t1
    requires !SpokenDuring(s, es, name)
    ensures name !in Run(s, es).lastSpeakTime || Run(s, es).lastSpeakTime[name] == t1
    decreases |es|
  {
    if es != [] {
      EntryUntouchedUntilSpoken(Step(s, es[0]).state, es[1..], name, t1);
    }
  }

  /**
   Release: a name spoken at `t1` and not spoken since is spoken again by any call
   at `t2 >= t1 + 3.0` whose detections include it, whatever happened in between.
   */
  lemma RepeatReleased(s: AlertState, ds: seq<DetectedObject>, t1: real,
                       es: seq<SpeechEvent>, ds2: seq<DetectedObject>, t2: real, name: string)
    requires name in SpeakDetections(s, ds, t1).spoken
    requires !SpokenDuring(SpeakDetections(s, ds, t1).state, es, name)
    requires t2 - t1 >= RepeatInterval
    requires name in Identifiers(ds2)
    ensures name in SpeakDetections(Run(SpeakDetections(s, ds, t1).state, es), ds2, t2).spoken
  {
    EntryUntouchedUntilSpoken(SpeakDetections(s, ds, t1).state, es, name, t1);
  }

  /** Whether `es` contains a finish or cancel callback. */
  predicate HasCompletion(es: seq<SpeechEvent>) {
    exists i :: 0 <= i < |es| && !es[i].Detected?
  }

  /** Only the finish and cancel callbacks lower the speaking flag. */
  lemma {:induction false} FlagHeldUntilCompletion(s: AlertState, es: seq<SpeechEvent>)
    requires s.isSpeaking
    requires !HasCompletion(es)
    ensures Run(s, es).isSpeaking
    decreases |es|
  {
    if es != [] {
      assert !HasCompletion(es[1..]) by {
        forall i | 0 <= i < |es[1..]| ensures es[1..][i].Detected? {
          assert es[1..][i] == es[i + 1];
        }
      }
      FlagHeldUntilCompletion(Step(s, es[0]).state, es[1..]);
    }
  }

  /** A finish or cancel callback lowers the flag and leaves the map alone. */
  lemma CompletionClearsFlag(s: AlertState, e: SpeechEvent)
    requires !e.Detected?
    ensures !Step(s, e).state.isSpeaking
    ensures Step(s, e).state.lastSpeakTime == s.lastSpeakTime
    ensures Step(s, e).spoken == {}
  {
  }

  /** Every label ever detected in `es`. */
  function SeenLabels(es: seq<SpeechEvent>): set<string>
    decreases |es|
  {
    if es == [] then {}
    else (if es[0].Detected? then Identifiers(es[0].detections) else {}) + SeenLabels(es[1..])
  }

  /** The map only ever holds labels that were present at the start or detected along the way. */
  lemma {:induction false} KeysAreSeenLabels(s: AlertState, es: seq<SpeechEvent>)
    ensures Run(s, es).lastSpeakTime.Keys <= s.lastSpeakTime.Keys + SeenLabels(es)
    decreases |es|
  {
    if es != [] {
      var next := Step(s, es[0]).state;
      KeysAreSeenLabels(next, es[1..]);
      if es[0].Detected? {
        assert next.lastSpeakTime.Keys <= s.lastSpeakTime.Keys + Identifiers(es[0].detections);
      }
    }
  }

  /** The purge pass is idempotent and a later pass subsumes an earlier one. */
  lemma CleanupComposes(m: map<string, real>, t1: real, t2: real)
    requires t1 <= t2
    ensures Cleanup(Cleanup(m, t1), t2) == Cleanup(m, t2)
    ensures Cleanup(Cleanup(m, t1), t1) == Cleanup(m, t1)
  {
  }

  /**
   The end-to-end scenario: "Chair" detected at 0.0, 1.0 and 3.1 seconds is spoken
   at 0.0, suppressed at 1.0 and spoken again at 3.1.
   */
  lemma ChairScenario(chair: DetectedObject)
    requires chair.identifier == "Chair"
    ensures var a0 := SpeakDetections(Initial, [chair], 0.0);
            var a1 := SpeakDetections(a0.state, [chair], 1.0);
            var a2 := SpeakDetections(a1.state, [chair], 3.1);
            a0.spoken == {"Chair"} && a1.spoken == {} && a2.spoken == {"Chair"}
  {
    assert [chair][0].identifier == "Chair";
    IdentifiersMembers([chair], "Chair");
    var a0 := SpeakDetections(Initial, [chair], 0.0);
    assert "Chair" in a0.spoken;
    var a1 := SpeakDetections(a0.state, [chair], 1.0);
    assert "Chair" !in a1.spoken;
    var a2 := SpeakDetections(a1.state, [chair], 3.1);
    assert "Chair" in a2.spoken;
  }
}

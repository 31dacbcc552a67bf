/** What both trigger models do with their stream of comparisons, apart from how
    they compare: fire on an event only when armed, and re-arm on a quiet beat. */
module TriggerLaw {

  // One beat through the pipeline: was the sample valid, did it make an event?
  datatype Beat = Beat(valid: bool, event: bool)

  function ArmedAfter(beats: seq<Beat>): bool
  {
    if beats == [] then true else
    var n := |beats| - 1;
    if beats[n].valid then !beats[n].event else ArmedAfter(beats[..n])
  }

  predicate Fires(beats: seq<Beat>, i: nat)
    requires i < |beats|
  {
    beats[i].valid && beats[i].event && ArmedAfter(beats[..i])
  }

  // Beat i is valid and no later one is.
  predicate LastValid(beats: seq<Beat>, i: int)
  {
    0 <= i < |beats| && beats[i].valid && forall j :: i < j < |beats| ==> !beats[j].valid
  }

  // Invalid beats are transparent: being armed depends on the last valid beat only.
  lemma {:induction false} ArmedLooksAtLastValid(beats: seq<Beat>)
    ensures ArmedAfter(beats) <==>
      forall i :: LastValid(beats, i) ==> !beats[i].event
    decreases |beats|
  {
    if beats == [] {
    } else {
      var n := |beats| - 1;
      if beats[n].valid {
        if beats[n].event {
          assert LastValid(beats, n);
        } else {
          forall i | 0 <= i < |beats| && beats[i].valid && (forall j :: i < j < |beats| ==> !beats[j].valid)
            ensures !beats[i].event
          {
            assert i >= n;
          }
        }
      } else {
        ArmedLooksAtLastValid(beats[..n]);
        if ArmedAfter(beats[..n]) {
          forall i | 0 <= i < |beats| && beats[i].valid && (forall j :: i < j < |beats| ==> !beats[j].valid)
            ensures !beats[i].event
          {
            assert beats[..n][i] == beats[i];
          }
        } else {
          var i :| 0 <= i < n && beats[..n][i].valid && (forall j :: i < j < n ==> !beats[..n][j].valid)
            && beats[..n][i].event;
          assert forall j :: i < j < n ==> beats[..n][j] == beats[j];
          assert beats[i].valid && beats[i].event && forall j :: i < j < |beats| ==> !beats[j].valid;
        }
      }
    }
  }
}

/** The ESL trigger: threshold crossings of a sample stream, through a two-stage
    pipeline, one trigger per run of events. */
module Trigger {
  import opened TriggerLaw

  datatype Mode = RISING | FALLING | BOTH | LEVEL

  datatype TriggerConfig = TriggerConfig(enable: bool, mode: Mode, threshold: int)

  datatype TriggerEvent = TriggerEvent(sampleIndex: nat, sampleValue: int, prevValue: int, mode: Mode)

  datatype Out = Nothing | Trigger(fired: bool)

  // A 16-bit pattern read as two's complement; values already signed are kept.
  function ToSigned(v: int): int { if v >= 32768 then v - 65536 else v }

  predicate Above(cfg: TriggerConfig, v: int) { ToSigned(v) >= ToSigned(cfg.threshold) }

  predicate Crossing(cfg: TriggerConfig, prev: int, curr: int)
  {
    var rising := !Above(cfg, prev) && Above(cfg, curr);
    var falling := Above(cfg, prev) && !Above(cfg, curr);
    match cfg.mode
    case RISING => rising
    case FALLING => falling
    case BOTH => rising || falling
    case LEVEL => Above(cfg, curr)
  }

  // The pipeline starts with a zero sample in front of the stream.
  function LastOrZero(samples: seq<int>): int
  {
    if samples == [] then 0 else samples[|samples| - 1]
  }

  predicate Event(cfg: TriggerConfig, samples: seq<int>, i: nat)
    requires i < |samples|
  {
    Crossing(cfg, LastOrZero(samples[..i]), samples[i])
  }

  function Beats(cfg: TriggerConfig, samples: seq<int>): seq<Beat>
  {
    seq(|samples|, i requires 0 <= i < |samples| => Beat(true, Event(cfg, samples, i)))
  }

  // Sample i of an all-valid stream fires a fresh trigger.
  predicate FiresAt(cfg: TriggerConfig, samples: seq<int>, i: nat)
    requires i < |samples|
  {
    cfg.enable && Fires(Beats(cfg, samples), i)
  }

  class TriggerModel {
    var config: TriggerConfig
    var pipeline0: int
    var pipeline1: int
    var valid0: bool
    var valid1: bool
    var armed: bool

    // Everything shifted in since the reset.
    ghost var samples: seq<int>
    ghost var beats: seq<Beat>

    ghost predicate Valid()
      reads this
    {
      && |beats| == |samples|
      && pipeline0 == LastOrZero(samples)
      && armed == ArmedAfter(beats)
    }

    // Only valid samples seen, all under the present configuration.
    ghost predicate Steady()
      reads this
    {
      Valid() && beats == Beats(config, samples)
    }

    constructor (cfg: TriggerConfig)
      ensures Steady() && config == cfg && samples == []
    {
      config := cfg;
      pipeline0, pipeline1, valid0, valid1, armed := 0, 0, false, false, true;
      samples, beats := [], [];
    }

    method Reset()
      modifies this
      ensures Steady() && config == old(config) && samples == []
    {
      pipeline0, pipeline1, valid0, valid1, armed := 0, 0, false, false, true;
      samples, beats := [], [];
    }

    // The pipeline and the armed flag survive a change of configuration.
    method Configure(cfg: TriggerConfig)
      requires Valid()
      modifies this`config
      ensures Valid() && config == cfg
      ensures samples == [] ==> Steady()
    {
      config := cfg;
    }

    method ProcessSample(sample: int, valid: bool) returns (out: Out)
      requires Valid()
      modifies this
      ensures Valid() && config == old(config)
      ensures !config.enable ==> out == Nothing && samples == old(samples) && beats == old(beats)
      ensures config.enable ==>
        && samples == old(samples) + [sample]
        && beats == old(beats) + [Beat(valid, Crossing(config, LastOrZero(old(samples)), sample))]
        && out == if valid then Trigger(Fires(beats, |beats| - 1)) else Nothing
      ensures old(Steady()) && valid ==> Steady()
    {
      hide Crossing;
      if !config.enable {
        return Nothing;
      }
      pipeline1, valid1 := pipeline0, valid0;
      pipeline0, valid0 := sample, valid;
      ghost var event := Crossing(config, pipeline1, pipeline0);
      ghost var before := beats;
      samples := samples + [sample];
      beats := beats + [Beat(valid, event)];
      assert beats[..|beats| - 1] == before;
      if old(Steady()) && valid {
        BeatsSnoc(config, old(samples), sample);
      }
      if !valid0 {
        return Nothing;
      }
      var eventDetected := Crossing(config, pipeline1, pipeline0);
      var triggerOut := false;
      if armed && eventDetected {
        triggerOut := true;
        armed := false;
      } else if !eventDetected {
        armed := true;
      }
      out := Trigger(triggerOut);
    }

    // The batch run reports every trigger but one on sample 0, one index early.
    method ProcessSamples(input: seq<int>) returns (events: seq<TriggerEvent>)
      modifies this
      ensures Steady() && config == old(config)
      ensures samples == if config.enable then input else []
      ensures events == Reports(config, input, |input|)
    {
      hide Crossing, Fires, ArmedAfter, Beats;
      Reset();
      events := [];
      for i := 0 to |input|
        invariant Steady() && config == old(config)
        invariant samples == if config.enable then input[..i] else []
        invariant events == Reports(config, input, i)
      {
        var trigger := ProcessSample(input[i], true);
        assert input[..i] + [input[i]] == input[..i + 1];
        FiresOnPrefix(config, input, i);
        if trigger.Trigger? && trigger.fired {
          if i - 1 >= 0 {
            events := events + [TriggerEvent(i - 1, input[i - 1], if i - 1 > 0 then input[i - 2] else 0, config.mode)];
          }
        }
      }
      assert input[..|input|] == input;
    }
  }

  lemma BeatsSnoc(cfg: TriggerConfig, samples: seq<int>, s: int)
    ensures Beats(cfg, samples + [s]) == Beats(cfg, samples) + [Beat(true, Crossing(cfg, LastOrZero(samples), s))]
  {
    var all := samples + [s];
    forall i | 0 <= i < |all|
      ensures all[..i] == if i < |samples| then samples[..i] else samples
    {
    }
  }

  lemma FiresOnPrefix(cfg: TriggerConfig, samples: seq<int>, i: nat)
    requires i < |samples|
    ensures FiresAt(cfg, samples[..i + 1], i) == FiresAt(cfg, samples, i)
    ensures Event(cfg, samples[..i + 1], i) == Event(cfg, samples, i)
  {
    assert samples[..i + 1][..i] == samples[..i];
    assert Beats(cfg, samples[..i + 1])[..i] == Beats(cfg, samples)[..i] by {
      forall j | 0 <= j < i
        ensures samples[..i + 1][..j] == samples[..j]
      {
      }
    }
  }

  // --- The closed form and what follows from it -----------------------------------

  // Main result: a trigger fires at sample i exactly when i is an event and i - 1
  // is not.
  lemma FiresClosedForm(cfg: TriggerConfig, samples: seq<int>, i: nat)
    requires i < |samples|
    ensures FiresAt(cfg, samples, i) <==>
      cfg.enable && Event(cfg, samples, i) && (i == 0 || !Event(cfg, samples, i - 1))
  {
    var before := Beats(cfg, samples)[..i];
    if i > 0 {
      assert before[i - 1] == Beat(true, Event(cfg, samples, i - 1));
    }
  }

  lemma PreviousSample(samples: seq<int>, i: nat)
    requires 1 <= i < |samples|
    ensures LastOrZero(samples[..i]) == samples[i - 1]
  {
  }

  // One-sided modes never see two events in a row, so no edge is missed.
  lemma OneSidedFiresOnEveryEdge(cfg: TriggerConfig, samples: seq<int>, i: nat)
    requires i < |samples| && cfg.enable && (cfg.mode == RISING || cfg.mode == FALLING)
    ensures FiresAt(cfg, samples, i) <==> Event(cfg, samples, i)
  {
    FiresClosedForm(cfg, samples, i);
    if i >= 1 {
      PreviousSample(samples, i);
    }
  }

  // LEVEL fires where RISING does, except perhaps on the first sample.
  lemma LevelFiresLikeRising(cfg: TriggerConfig, samples: seq<int>, i: nat)
    requires 1 <= i < |samples|
    ensures FiresAt(cfg.(mode := LEVEL), samples, i) <==> FiresAt(cfg.(mode := RISING), samples, i)
  {
    FiresClosedForm(cfg.(mode := LEVEL), samples, i);
    FiresClosedForm(cfg.(mode := RISING), samples, i);
    PreviousSample(samples, i);
    if i >= 2 {
      PreviousSample(samples, i - 1);
    }
  }

  // On the first sample the two modes disagree exactly when zero is not below the
  // threshold and the sample is.
  lemma LevelAndRisingOnFirstSample(cfg: TriggerConfig, samples: seq<int>)
    requires samples != [] && cfg.enable
    ensures (FiresAt(cfg.(mode := LEVEL), samples, 0) <==> FiresAt(cfg.(mode := RISING), samples, 0))
       <==> !(Above(cfg, 0) && Above(cfg, samples[0]))
  {
    FiresClosedForm(cfg.(mode := LEVEL), samples, 0);
    FiresClosedForm(cfg.(mode := RISING), samples, 0);
    assert samples[..0] == [];
  }

  // BOTH fires on every edge exactly when no two edges are adjacent ...
  lemma BothFiresOnEveryEdge(cfg: TriggerConfig, samples: seq<int>)
    requires cfg.enable && cfg.mode == BOTH
    ensures (forall i: nat :: i < |samples| && Event(cfg, samples, i) ==> FiresAt(cfg, samples, i))
       <==> (forall i: nat :: i + 1 < |samples| ==> !(Event(cfg, samples, i) && Event(cfg, samples, i + 1)))
  {
    forall i: nat | i < |samples|
      ensures FiresAt(cfg, samples, i) <==> Event(cfg, samples, i) && (i == 0 || !Event(cfg, samples, i - 1))
    {
      FiresClosedForm(cfg, samples, i);
    }
    if forall i: nat :: i < |samples| && Event(cfg, samples, i) ==> FiresAt(cfg, samples, i) {
      forall i: nat | i + 1 < |samples|
        ensures !(Event(cfg, samples, i) && Event(cfg, samples, i + 1))
      {
        if Event(cfg, samples, i + 1) {
          assert FiresAt(cfg, samples, i + 1);
        }
      }
    } else {
      var i: nat :| i < |samples| && Event(cfg, samples, i) && !FiresAt(cfg, samples, i);
      assert Event(cfg, samples, i - 1) && Event(cfg, samples, (i - 1) + 1);
    }
  }

  // ... and a stream that crosses up and at once down again is one where it does not.
  lemma BothMissesAnEdge()
    ensures var cfg, samples := TriggerConfig(true, BOTH, 500), [100, 600, 100];
      Event(cfg, samples, 2) && !FiresAt(cfg, samples, 2)
  {
    var cfg, samples := TriggerConfig(true, BOTH, 500), [100, 600, 100];
    PreviousSample(samples, 1);
    PreviousSample(samples, 2);
    FiresClosedForm(cfg, samples, 2);
  }

  // How many of samples 1 .. n fire.
  function CountFires(cfg: TriggerConfig, samples: seq<int>, n: nat): nat
    requires n < |samples|
  {
    if n == 0 then 0 else CountFires(cfg, samples, n - 1) + (if FiresAt(cfg, samples, n) then 1 else 0)
  }

  // Those samples themselves.
  function Firing(cfg: TriggerConfig, samples: seq<int>, n: nat): set<nat>
    requires n < |samples|
  {
    set i: nat | 1 <= i <= n && FiresAt(cfg, samples, i)
  }

  lemma {:induction false} CountIs(cfg: TriggerConfig, samples: seq<int>, n: nat)
    requires n < |samples|
    ensures CountFires(cfg, samples, n) == |Firing(cfg, samples, n)|
  {
    hide FiresAt;
    if n == 0 {
      assert Firing(cfg, samples, n) == {};
    } else {
      CountIs(cfg, samples, n - 1);
      var before := Firing(cfg, samples, n - 1);
      assert Firing(cfg, samples, n) == if FiresAt(cfg, samples, n) then before + {n} else before;
    }
  }

  function Indicator(b: bool): int { if b then 1 else 0 }

  // Main result: rising triggers minus falling triggers tell the net crossing.
  lemma {:induction false} CrossingsTelescope(cfg: TriggerConfig, samples: seq<int>, n: nat)
    requires n < |samples| && cfg.enable
    ensures CountFires(cfg.(mode := RISING), samples, n) - CountFires(cfg.(mode := FALLING), samples, n)
         == Indicator(Above(cfg, samples[n])) - Indicator(Above(cfg, samples[0]))
  {
    if n == 0 {
    } else {
      CrossingsTelescope(cfg, samples, n - 1);
      OneSidedFiresOnEveryEdge(cfg.(mode := RISING), samples, n);
      OneSidedFiresOnEveryEdge(cfg.(mode := FALLING), samples, n);
      PreviousSample(samples, n);
    }
  }

  // --- The batch report ---------------------------------------------------------

  // Which samples of a stream of signed numbers are events.
  lemma EventIs(cfg: TriggerConfig, samples: seq<int>, i: nat)
    requires 1 <= i < |samples| && cfg.threshold < 32768 && samples[i - 1] < 32768 && samples[i] < 32768
    ensures var rises := samples[i - 1] < cfg.threshold <= samples[i];
      var falls := samples[i] < cfg.threshold <= samples[i - 1];
      && (cfg.mode == RISING ==> (Event(cfg, samples, i) <==> rises))
      && (cfg.mode == FALLING ==> (Event(cfg, samples, i) <==> falls))
      && (cfg.mode == BOTH ==> (Event(cfg, samples, i) <==> rises || falls))
      && (cfg.mode == LEVEL ==> (Event(cfg, samples, i) <==> samples[i] >= cfg.threshold))
  {
    PreviousSample(samples, i);
  }

  function ReportOf(cfg: TriggerConfig, samples: seq<int>, i: nat): TriggerEvent
    requires 1 <= i < |samples|
  {
    TriggerEvent(i - 1, samples[i - 1], LastOrZero(samples[..i - 1]), cfg.mode)
  }

  function Reports(cfg: TriggerConfig, samples: seq<int>, n: nat): seq<TriggerEvent>
    requires n <= |samples|
  {
    if n <= 1 then [] else
    Reports(cfg, samples, n - 1) + (if FiresAt(cfg, samples, n - 1) then [ReportOf(cfg, samples, n - 1)] else [])
  }

  // Every report is of a firing sample, the one after its index ...
  lemma {:induction false} ReportSound(cfg: TriggerConfig, samples: seq<int>, n: nat, a: nat)
    requires n <= |samples| && a < |Reports(cfg, samples, n)|
    ensures var i := Reports(cfg, samples, n)[a].sampleIndex + 1;
      i < n && FiresAt(cfg, samples, i) && Reports(cfg, samples, n)[a] == ReportOf(cfg, samples, i)
  {
    hide FiresAt;
    if a >= |Reports(cfg, samples, n - 1)| {
    } else {
      ReportSound(cfg, samples, n - 1, a);
    }
  }

  // ... reports come in index order ...
  lemma {:induction false} ReportsInOrder(cfg: TriggerConfig, samples: seq<int>, n: nat, a: nat, b: nat)
    requires n <= |samples| && a < b < |Reports(cfg, samples, n)|
    ensures Reports(cfg, samples, n)[a].sampleIndex < Reports(cfg, samples, n)[b].sampleIndex
  {
    hide FiresAt;
    if b < |Reports(cfg, samples, n - 1)| {
      ReportsInOrder(cfg, samples, n - 1, a, b);
    } else {
      ReportSound(cfg, samples, n - 1, a);
    }
  }

  // ... and no firing sample but the first goes unreported.
  lemma {:induction false} ReportsComplete(cfg: TriggerConfig, samples: seq<int>, n: nat, i: nat)
    requires 1 <= i < n <= |samples| && FiresAt(cfg, samples, i)
    ensures ReportOf(cfg, samples, i) in Reports(cfg, samples, n)
  {
    hide FiresAt;
    if i >= n - 1 {
    } else {
      ReportsComplete(cfg, samples, n - 1, i);
    }
  }

  // Whether the crossing at sample i has a report.
  ghost predicate Reported(cfg: TriggerConfig, samples: seq<int>, i: nat)
  {
    var reports := Reports(cfg, samples, |samples|);
    exists a: nat :: a < |reports| && reports[a].sampleIndex + 1 == i
  }

  // Main result: all firing samples are reported exactly when the first sample does not fire.
  lemma AllReportedIff(cfg: TriggerConfig, samples: seq<int>)
    requires samples != []
    ensures (forall i: nat :: i < |samples| && FiresAt(cfg, samples, i) ==> Reported(cfg, samples, i))
      <==> !FiresAt(cfg, samples, 0)
  {
    hide FiresAt;
    forall i: nat | 1 <= i < |samples| && FiresAt(cfg, samples, i)
      ensures Reported(cfg, samples, i)
    {
      ReportsComplete(cfg, samples, |samples|, i);
      var a: nat :| a < |Reports(cfg, samples, |samples|)|
        && Reports(cfg, samples, |samples|)[a] == ReportOf(cfg, samples, i);
    }
    assert !Reported(cfg, samples, 0);
  }

  // A stream whose first sample fires: nothing is reported.
  lemma FirstSampleIsLost()
    ensures var cfg, samples := TriggerConfig(true, RISING, 500), [600, 100];
      FiresAt(cfg, samples, 0) && Reports(cfg, samples, |samples|) == []
  {
    var cfg, samples := TriggerConfig(true, RISING, 500), [600, 100];
    FiresClosedForm(cfg, samples, 0);
    FiresClosedForm(cfg, samples, 1);
    PreviousSample(samples, 1);
    hide FiresAt, Event;
  }

  // Main result: no report of any mode names a sample that fires.
  lemma ReportIsNeverRight(cfg: TriggerConfig, samples: seq<int>, a: nat)
    requires a < |Reports(cfg, samples, |samples|)|
    ensures var i := Reports(cfg, samples, |samples|)[a].sampleIndex;
      i + 1 < |samples| && FiresAt(cfg, samples, i + 1) && !FiresAt(cfg, samples, i)
  {
    ReportSound(cfg, samples, |samples|, a);
    var i := Reports(cfg, samples, |samples|)[a].sampleIndex;
    FiresClosedForm(cfg, samples, i);
    FiresClosedForm(cfg, samples, i + 1);
  }

  // The stream of the model's own example: sample 3 fires, and the report says 2.
  lemma ExampleStream()
    ensures var cfg, samples := TriggerConfig(true, RISING, 500), [100, 200, 400, 600, 800, 600, 400];
      && (forall i: nat :: i < |samples| ==> (FiresAt(cfg, samples, i) <==> i == 3))
      && Reports(cfg, samples, |samples|) == [TriggerEvent(2, 400, 200, RISING)]
  {
    var cfg, samples := TriggerConfig(true, RISING, 500), [100, 200, 400, 600, 800, 600, 400];
    forall i: nat | i < |samples|
      ensures FiresAt(cfg, samples, i) <==> i == 3
    {
      OneSidedFiresOnEveryEdge(cfg, samples, i);
      if i > 0 {
        PreviousSample(samples, i);
      }
    }
    PreviousSample(samples, 2);
    assert ReportOf(cfg, samples, 3) == TriggerEvent(2, 400, 200, RISING);
    OneReport(cfg, samples, 3);
  }

  // With one firing sample there is one report.
  lemma OneReport(cfg: TriggerConfig, samples: seq<int>, i: nat)
    requires 1 <= i < |samples| && forall j: nat :: j < |samples| ==> (FiresAt(cfg, samples, j) <==> j == i)
    ensures Reports(cfg, samples, |samples|) == [ReportOf(cfg, samples, i)]
  {
    hide FiresAt;
    ReportsComplete(cfg, samples, |samples|, i);
    var reports := Reports(cfg, samples, |samples|);
    ReportSound(cfg, samples, |samples|, 0);
    if |reports| > 1 {
      ReportSound(cfg, samples, |samples|, 1);
      ReportsInOrder(cfg, samples, |samples|, 0, 1);
      assert false;
    }
  }

  // A reported rising crossing names the last sample below the threshold, not the
  // first one above it.
  lemma ReportIsOneEarly(cfg: TriggerConfig, samples: seq<int>, a: nat)
    requires cfg.mode == RISING && a < |Reports(cfg, samples, |samples|)|
    ensures var r := Reports(cfg, samples, |samples|)[a];
      && r.sampleIndex + 1 < |samples|
      && r.sampleValue == samples[r.sampleIndex]
      && !Above(cfg, r.sampleValue) && Above(cfg, samples[r.sampleIndex + 1])
      && (cfg.threshold < 32768 && r.sampleValue < 32768 && samples[r.sampleIndex + 1] < 32768 ==>
        r.sampleValue < cfg.threshold <= samples[r.sampleIndex + 1])
  {
    ReportSound(cfg, samples, |samples|, a);
    var k := Reports(cfg, samples, |samples|)[a].sampleIndex;
    FiresClosedForm(cfg, samples, k + 1);
    PreviousSample(samples, k + 1);
  }
}

/** The SystemC trigger, on 16-bit samples, and its agreement with the ESL one. */
module TriggerTlm {
  import opened Samples
  import opened TriggerLaw
  import opened Trigger

  // The mode is a plain byte here; 0 to 3 are the four modes.
  datatype TlmConfig = TlmConfig(enable: bool, mode: int, threshold: int16)

  datatype EventRecord = EventRecord(index: nat, value: int16, prevValue: int16)

  predicate DetectThresholdCrossing(cfg: TlmConfig, prev: int16, curr: int16)
  {
    var rising := prev < cfg.threshold && curr >= cfg.threshold;
    var falling := prev >= cfg.threshold && curr < cfg.threshold;
    if cfg.mode == 0 then rising
    else if cfg.mode == 1 then falling
    else if cfg.mode == 2 then rising || falling
    else if cfg.mode == 3 then curr >= cfg.threshold
    else false
  }

  function TlmLastOrZero(samples: seq<int16>): int16
  {
    if samples == [] then 0 else samples[|samples| - 1]
  }

  function TlmBeats(cfg: TlmConfig, samples: seq<int16>): seq<Beat>
  {
    seq(|samples|, i requires 0 <= i < |samples| =>
      Beat(true, DetectThresholdCrossing(cfg, TlmLastOrZero(samples[..i]), samples[i])))
  }

  class TriggerTlm {
    var config: TlmConfig
    var pipeline0: int16
    var pipeline1: int16
    var valid0: bool
    var valid1: bool
    var armed: bool
    var triggerCount: nat
    var triggerEvents: seq<EventRecord>

    ghost var samples: seq<int16>
    ghost var beats: seq<Beat>

    ghost predicate Valid()
      reads this
    {
      && |beats| == |samples|
      && pipeline0 == TlmLastOrZero(samples)
      && armed == ArmedAfter(beats)
    }

    // Only valid samples seen, all under the present configuration.
    ghost predicate Steady()
      reads this
    {
      Valid() && beats == TlmBeats(config, samples)
    }

    constructor ()
      ensures Steady() && samples == [] && beats == [] && triggerEvents == [] && triggerCount == 0
    {
      config := TlmConfig(true, 0, 0);
      pipeline0, pipeline1, valid0, valid1, armed := 0, 0, false, false, true;
      triggerCount, triggerEvents := 0, [];
      samples, beats := [], [];
    }

    method Configure(cfg: TlmConfig)
      requires Valid()
      modifies this`config
      ensures Valid() && config == cfg
      ensures samples == old(samples) && triggerEvents == old(triggerEvents) && triggerCount == old(triggerCount)
      ensures samples == [] ==> Steady()
    {
      config := cfg;
    }

    // The event list is cleared, the trigger counter is not.
    method Reset()
      modifies this
      ensures Steady() && samples == [] && beats == [] && triggerEvents == []
      ensures triggerCount == old(triggerCount) && config == old(config)
    {
      pipeline0, pipeline1, valid0, valid1, armed := 0, 0, false, false, true;
      triggerEvents := [];
      samples, beats := [], [];
    }

    method ProcessSample(sample: int16, valid: bool, index: nat) returns (triggerOut: bool)
      requires Valid()
      modifies this
      ensures Valid() && config == old(config)
      ensures !config.enable ==> !triggerOut && samples == old(samples) && beats == old(beats)
      ensures config.enable ==>
        && samples == old(samples) + [sample]
        && beats == old(beats) + [Beat(valid, DetectThresholdCrossing(config, TlmLastOrZero(old(samples)), sample))]
        && triggerOut == Fires(beats, |beats| - 1)
      ensures old(Steady()) && valid ==> Steady()
      ensures triggerCount == old(triggerCount) + (if triggerOut then 1 else 0)
      ensures triggerEvents == old(triggerEvents) +
        (if triggerOut then [EventRecord(index, sample, TlmLastOrZero(old(samples)))] else [])
    {
      hide DetectThresholdCrossing, TlmBeats;
      if !config.enable {
        return false;
      }
      pipeline1, valid1 := pipeline0, valid0;
      pipeline0, valid0 := sample, valid;
      ghost var event := DetectThresholdCrossing(config, pipeline1, pipeline0);
      ghost var before := beats;
      samples := samples + [sample];
      beats := beats + [Beat(valid, event)];
      assert beats[..|beats| - 1] == before;
      if old(Steady()) && valid {
        TlmBeatsSnoc(config, old(samples), sample);
      }
      if !valid0 {
        return false;
      }
      var eventDetected := DetectThresholdCrossing(config, pipeline1, pipeline0);
      triggerOut := false;
      if armed && eventDetected {
        triggerOut := true;
        armed := false;
        triggerCount := triggerCount + 1;
        triggerEvents := triggerEvents + [EventRecord(index, pipeline0, pipeline1)];
      } else if !eventDetected {
        armed := true;
      }
    }
  }

  lemma TlmBeatsSnoc(cfg: TlmConfig, samples: seq<int16>, s: int16)
    ensures TlmBeats(cfg, samples + [s])
         == TlmBeats(cfg, samples) + [Beat(true, DetectThresholdCrossing(cfg, TlmLastOrZero(samples), s))]
  {
    hide DetectThresholdCrossing;
    var all := samples + [s];
    forall i | 0 <= i < |all|
      ensures all[..i] == if i < |samples| then samples[..i] else samples
    {
    }
  }

  // What the mode bytes stand for.
  lemma TlmEventIs(cfg: TlmConfig, prev: int16, curr: int16)
    ensures var rises, falls := prev < cfg.threshold <= curr, curr < cfg.threshold <= prev;
      && (cfg.mode == 0 ==> (DetectThresholdCrossing(cfg, prev, curr) <==> rises))
      && (cfg.mode == 1 ==> (DetectThresholdCrossing(cfg, prev, curr) <==> falls))
      && (cfg.mode == 2 ==> (DetectThresholdCrossing(cfg, prev, curr) <==> rises || falls))
      && (cfg.mode == 3 ==> (DetectThresholdCrossing(cfg, prev, curr) <==> curr >= cfg.threshold))
  {
  }

  // A mode byte that stands for no mode fires at nothing.
  lemma UnknownModeIsSilent(cfg: TlmConfig, samples: seq<int16>, i: nat)
    requires i < |samples| && !(0 <= cfg.mode <= 3)
    ensures !Fires(TlmBeats(cfg, samples), i)
  {
  }

  function ModeByte(m: Mode): int
  {
    match m case RISING => 0 case FALLING => 1 case BOTH => 2 case LEVEL => 3
  }

  predicate SixteenBit(v: int) { -32768 <= v < 65536 }

  function Wire(samples: seq<int>): seq<int16>
    requires forall i :: 0 <= i < |samples| ==> SixteenBit(samples[i])
  {
    seq(|samples|, i requires 0 <= i < |samples| && SixteenBit(samples[i]) => Narrow(samples[i]))
  }

  function Narrow(v: int): int16
    requires SixteenBit(v)
  {
    ToSigned(v)
  }

  // On 16-bit inputs, signed or as raw patterns, the two models see the same events.
  lemma ModelsAgree(cfg: TriggerConfig, samples: seq<int>)
    requires SixteenBit(cfg.threshold)
    requires forall i :: 0 <= i < |samples| ==> SixteenBit(samples[i])
    ensures TlmBeats(Translate(cfg), Wire(samples)) == Beats(cfg, samples)
  {
    forall i | 0 <= i < |samples|
      ensures TlmLastOrZero(Wire(samples)[..i]) == ToSigned(LastOrZero(samples[..i]))
    {
    }
  }

  // The configuration that says the same to the SystemC model.
  function Translate(cfg: TriggerConfig): TlmConfig
    requires SixteenBit(cfg.threshold)
  {
    TlmConfig(cfg.enable, ModeByte(cfg.mode), ToSigned(cfg.threshold))
  }

  // The events of the first n samples, by where the ESL trigger fires.
  function EventsOf(cfg: TriggerConfig, samples: seq<int>, n: nat): seq<EventRecord>
    requires n <= |samples| && forall i :: 0 <= i < |samples| ==> SixteenBit(samples[i])
  {
    if n == 0 then [] else
    EventsOf(cfg, samples, n - 1) + (
      if FiresAt(cfg, samples, n - 1)
      then [EventRecord(n - 1, Narrow(samples[n - 1]), TlmLastOrZero(Wire(samples)[..n - 1]))]
      else [])
  }

  // Main result: the SystemC trigger, run over the same stream, fires exactly where the ESL
  // trigger does, and records exactly those samples.
  method RunStream(cfg: TriggerConfig, samples: seq<int>) returns (fired: seq<bool>, events: seq<EventRecord>)
    requires SixteenBit(cfg.threshold)
    requires forall i :: 0 <= i < |samples| ==> SixteenBit(samples[i])
    ensures |fired| == |samples|
    ensures forall i :: 0 <= i < |samples| ==> fired[i] == FiresAt(cfg, samples, i)
    ensures events == EventsOf(cfg, samples, |samples|)
  {
    hide DetectThresholdCrossing, Fires, TlmBeats, Beats, ArmedAfter, Narrow;
    var wire := Wire(samples);
    var trigger := new TriggerTlm();
    trigger.Configure(Translate(cfg));
    fired := [];
    for n := 0 to |samples|
      invariant fresh(trigger) && trigger.Steady() && trigger.config == Translate(cfg)
      invariant trigger.samples == if cfg.enable then wire[..n] else []
      invariant trigger.triggerEvents == EventsOf(cfg, samples, n)
      invariant |fired| == n && forall i :: 0 <= i < n ==> fired[i] == FiresAt(cfg, samples, i)
    {
      PrefixFires(cfg, samples, n);
      var out := trigger.ProcessSample(wire[n], true, n);
      assert wire[..n + 1] == wire[..n] + [wire[n]];
      fired := fired + [out];
    }
    events := trigger.triggerEvents;
  }

  lemma PrefixFires(cfg: TriggerConfig, samples: seq<int>, n: nat)
    requires SixteenBit(cfg.threshold) && n < |samples|
    requires forall i :: 0 <= i < |samples| ==> SixteenBit(samples[i])
    ensures cfg.enable ==>
      FiresAt(cfg, samples, n) == Fires(TlmBeats(Translate(cfg), Wire(samples)[..n + 1]), n)
    ensures !cfg.enable ==> !FiresAt(cfg, samples, n)
  {
    var part := samples[..n + 1];
    assert Wire(samples)[..n + 1] == Wire(part);
    ModelsAgree(cfg, part);
    FiresOnPrefix(cfg, samples, n);
  }
}

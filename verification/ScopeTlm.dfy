/** The SystemC scope: five states, and the captured window played back sample by
    sample before the next capture. */
module ScopeTlm {
  import opened Samples
  import Scope

  datatype State = IDLE | FILLING | ARMED | CAPTURING | OUTPUTTING

  datatype Config = Config(enable: bool, preSamples: nat, postSamples: nat, bufferDepth: nat)

  datatype Window = Window(samples: seq<int16>, triggerIndex: nat, preSamples: nat, postSamples: nat)

  // The samples a window was made of: up to the trigger, and after it.
  datatype Origin = Origin(armed: seq<int16>, after: seq<int16>)

  function Concat(windows: seq<Window>): seq<int16>
  {
    if windows == [] then [] else Concat(windows[..|windows|-1]) + windows[|windows|-1].samples
  }

  // The trigger sample is stored twice: as the newest pre-trigger sample and again
  // as the first post-trigger one.
  function Capture(armed: seq<int16>, after: seq<int16>, pre: nat): seq<int16>
    requires armed != []
  {
    LastN(armed, pre) + [armed[|armed| - 1]] + after
  }

  lemma CaptureSnoc(armed: seq<int16>, after: seq<int16>, pre: nat, s: int16)
    requires armed != []
    ensures Capture(armed, after, pre) + [s] == Capture(armed, after + [s], pre)
  {
  }

  lemma CaptureNonempty(armed: seq<int16>, after: seq<int16>, pre: nat)
    requires armed != []
    ensures Capture(armed, after, pre) != []
  {
  }

  lemma ConcatSnoc(windows: seq<Window>, w: Window)
    ensures Concat(windows + [w]) == Concat(windows) + w.samples
  {
    assert (windows + [w])[..|windows|] == windows;
  }

  // How many samples follow the trigger sample before a capture is complete.
  function AfterCount(post: nat): nat { if post >= 2 then post - 1 else 1 }

  // Every window is the capture of its own run of samples.
  ghost predicate WindowsExact(windows: seq<Window>, origins: seq<Origin>, pre: nat, post: nat)
  {
    && |windows| == |origins|
    && forall k :: 0 <= k < |windows| ==>
      && origins[k].armed != []
      && |origins[k].after| == AfterCount(post)
      && windows[k].samples == Capture(origins[k].armed, origins[k].after, pre)
  }

  lemma WindowsExactSnoc(windows: seq<Window>, origins: seq<Origin>, pre: nat, post: nat, w: Window, o: Origin)
    requires WindowsExact(windows, origins, pre, post)
    requires o.armed != [] && |o.after| == AfterCount(post) && w.samples == Capture(o.armed, o.after, pre)
    ensures WindowsExact(windows + [w], origins + [o], pre, post)
  {
  }

  lemma NothingYet(pre: nat, post: nat)
    ensures LastN<int16>([], pre) == [] && Concat([]) == [] && WindowsExact([], [], pre, post)
  {
  }

  class ScopeTlm {
    var config: Config
    var state: State
    var circularBuffer: seq<int16>
    var captureBuffer: seq<int16>
    var postCounter: nat
    var sampleCount: nat
    var outputIndex: nat
    var windows: seq<Window>

    // Since the last (re-)arming: samples taken before and at the trigger, and after
    // it; since the reset: every valid output, and what each window was made of.
    ghost var armedSamples: seq<int16>
    ghost var afterSamples: seq<int16>
    ghost var outputs: seq<int16>
    ghost var origins: seq<Origin>

    // The windows played back in full, and the one being played back.
    ghost var played: seq<Window>
    ghost var current: Window

    ghost predicate Valid()
      reads this
    {
      && circularBuffer == LastN(armedSamples, config.preSamples)
      && (state == IDLE ==> armedSamples == [])
      && (state == FILLING ==> |armedSamples| < Max(1, config.preSamples))
      && (state == CAPTURING ==>
        && armedSamples != []
        && captureBuffer == Capture(armedSamples, afterSamples, config.preSamples)
        && postCounter == 1 + |afterSamples|
        && |afterSamples| < AfterCount(config.postSamples))
      && WindowsExact(windows, origins, config.preSamples, config.postSamples)
      && Replay()
    }

    // The outputs so far are the completed windows, in order and once each, and of
    // the window being played back the part already sent.
    ghost predicate Replay()
      reads this
    {
      if state == OUTPUTTING then
        && windows == played + [current]
        && captureBuffer == current.samples
        && outputIndex < |captureBuffer|
        && outputs == Concat(played) + captureBuffer[..outputIndex]
      else
        windows == played && outputs == Concat(played)
    }

    constructor ()
      ensures Valid() && state == IDLE && windows == [] && outputs == [] && armedSamples == []
    {
      config := Config(true, 100, 100, 4096);
      state, circularBuffer, captureBuffer := IDLE, [], [];
      postCounter, sampleCount, outputIndex, windows := 0, 0, 0, [];
      armedSamples, afterSamples, outputs, origins := [], [], [], [];
      played, current := [], Window([], 0, 0, 0);
    }

    // A run is promised anything only under one configuration, set while idle and
    // before the first window.
    method Configure(cfg: Config)
      requires Valid()
      modifies this`config
      ensures config == cfg
      ensures state == IDLE && windows == [] ==> Valid()
    {
      config := cfg;
    }

    method Reset()
      modifies this
      ensures Valid() && state == IDLE && windows == [] && outputs == [] && armedSamples == []
      ensures config == old(config)
    {
      NothingYet(config.preSamples, config.postSamples);
      hide LastN, Capture, Concat, WindowsExact;
      state, circularBuffer, captureBuffer := IDLE, [], [];
      postCounter, sampleCount, windows := 0, 0, [];
      armedSamples, afterSamples, outputs, origins := [], [], [], [];
      played, current := [], Window([], 0, 0, 0);
    }

    method Enable()
      requires Valid()
      modifies this
      ensures Valid() && config == old(config)
      ensures windows == old(windows) && outputs == old(outputs)
      ensures state == if old(state) == IDLE then FILLING else old(state)
      ensures old(state) == IDLE ==> armedSamples == []
    {
      if state == IDLE {
        state := FILLING;
        circularBuffer := [];
        armedSamples := [];
      }
    }

    // Push, then drop the oldest sample if there is one too many.
    method PushCircular(sample: int16)
      requires circularBuffer == LastN(armedSamples, config.preSamples)
      modifies this`circularBuffer, this`armedSamples
      ensures armedSamples == old(armedSamples) + [sample]
      ensures circularBuffer == LastN(armedSamples, config.preSamples)
    {
      circularBuffer := circularBuffer + [sample];
      if |circularBuffer| > config.preSamples {
        circularBuffer := circularBuffer[1..];
      }
      armedSamples := armedSamples + [sample];
    }

    // The copy of the pre-trigger buffer, element by element.
    method StartCapture(sample: int16)
      requires armedSamples != [] && sample == armedSamples[|armedSamples| - 1]
      requires circularBuffer == LastN(armedSamples, config.preSamples)
      modifies this`captureBuffer, this`postCounter, this`afterSamples
      ensures captureBuffer == Capture(armedSamples, [], config.preSamples)
      ensures postCounter == 1 && afterSamples == []
    {
      captureBuffer := [];
      for i := 0 to |circularBuffer|
        invariant captureBuffer == circularBuffer[..i]
      {
        captureBuffer := captureBuffer + [circularBuffer[i]];
      }
      captureBuffer := captureBuffer + [sample];
      postCounter := 1;
      afterSamples := [];
    }

    // The sample counter is a 32-bit word.
    method CountSample()
      requires Valid()
      modifies this`sampleCount
      ensures Valid()
      ensures sampleCount == if old(sampleCount) == 0xFFFF_FFFF then 0 else old(sampleCount) + 1
    {
      hide LastN, Capture, Concat, WindowsExact;
      sampleCount := if sampleCount == 0xFFFF_FFFF then 0 else sampleCount + 1;
    }

    method Fill(sample: int16)
      requires Valid() && state == FILLING
      modifies this
      ensures Valid() && config == old(config) && windows == old(windows) && outputs == old(outputs)
      ensures armedSamples == old(armedSamples) + [sample]
      ensures state == if |armedSamples| >= config.preSamples then ARMED else FILLING
    {
      hide LastN, Capture, Concat, WindowsExact;
      PushCircular(sample);
      LastNLength(armedSamples, config.preSamples);
      if |circularBuffer| >= config.preSamples {
        state := ARMED;
      }
    }

    method Watch(sample: int16, trigger: bool)
      requires Valid() && state == ARMED
      modifies this
      ensures Valid() && config == old(config) && windows == old(windows) && outputs == old(outputs)
      ensures armedSamples == old(armedSamples) + [sample]
      ensures state == if trigger then CAPTURING else ARMED
      ensures trigger ==> afterSamples == []
    {
      hide LastN, Capture, Concat, WindowsExact;
      PushCircular(sample);
      if trigger {
        state := CAPTURING;
        StartCapture(sample);
      }
    }

    method ContinueCapture(sample: int16)
      requires Valid() && state == CAPTURING
      modifies this
      ensures Valid() && config == old(config)
      ensures outputs == old(outputs) && armedSamples == old(armedSamples)
      ensures afterSamples == old(afterSamples) + [sample]
      ensures state == if |afterSamples| < AfterCount(config.postSamples) then CAPTURING else OUTPUTTING
      ensures state == CAPTURING ==> windows == old(windows)
      ensures state == OUTPUTTING ==>
        && outputIndex == 0 && captureBuffer == Capture(armedSamples, afterSamples, config.preSamples)
        && windows == old(windows) + [
          Window(Capture(armedSamples, afterSamples, config.preSamples), config.preSamples, config.preSamples,
            config.postSamples)]
    {
      hide LastN, Capture, Concat, WindowsExact;
      CaptureSnoc(armedSamples, afterSamples, config.preSamples, sample);
      captureBuffer := captureBuffer + [sample];
      afterSamples := afterSamples + [sample];
      postCounter := postCounter + 1;
      if postCounter >= config.postSamples {
        CompleteCapture();
      }
    }

    method CompleteCapture()
      requires armedSamples != [] && |afterSamples| == AfterCount(config.postSamples)
      requires circularBuffer == LastN(armedSamples, config.preSamples)
      requires captureBuffer == Capture(armedSamples, afterSamples, config.preSamples)
      requires WindowsExact(windows, origins, config.preSamples, config.postSamples)
      requires windows == played && outputs == Concat(played)
      modifies this`windows, this`origins, this`current, this`state, this`outputIndex
      ensures Valid() && state == OUTPUTTING && outputIndex == 0
      ensures windows == old(windows) + [Window(
        Capture(armedSamples, afterSamples, config.preSamples), config.preSamples, config.preSamples,
          config.postSamples)]
    {
      CaptureNonempty(armedSamples, afterSamples, config.preSamples);
      hide LastN, Capture, Concat, WindowsExact;
      var window := Window(captureBuffer, config.preSamples, config.preSamples, config.postSamples);
      WindowsExactSnoc(windows, origins, config.preSamples, config.postSamples, window,
        Origin(armedSamples, afterSamples));
      windows := windows + [window];
      origins := origins + [Origin(armedSamples, afterSamples)];
      current := window;
      state := OUTPUTTING;
      outputIndex := 0;
      assert outputs + captureBuffer[..0] == outputs;
    }

    method Output() returns (sample: int16)
      requires Valid() && state == OUTPUTTING
      modifies this
      ensures Valid() && config == old(config) && windows == old(windows)
      ensures sample == old(captureBuffer)[old(outputIndex)] && outputs == old(outputs) + [sample]
      ensures outputIndex == old(outputIndex) + 1 && captureBuffer == old(captureBuffer)
      ensures state == if outputIndex < |captureBuffer| then OUTPUTTING else ARMED
      ensures state == ARMED ==> armedSamples == []
    {
      hide LastN, Capture, Concat, WindowsExact;
      sample := captureBuffer[outputIndex];
      assert captureBuffer[..outputIndex + 1] == captureBuffer[..outputIndex] + [sample];
      outputs := outputs + [sample];
      outputIndex := outputIndex + 1;
      var last := outputIndex >= |captureBuffer|;
      if last {
        assert captureBuffer[..outputIndex] == captureBuffer;
        ConcatSnoc(played, current);
        played := played + [current];
        state := ARMED;
        circularBuffer := [];
        armedSamples := [];
        LastNLength<int16>([], config.preSamples);
      }
    }

    // One clock: what every state does with the sample and the trigger.
    method ProcessSample(sample: int16, trigger: bool) returns (valid: bool, out: int16)
      requires Valid()
      modifies this
      ensures Valid() && config == old(config)
      ensures valid <==> config.enable && old(state) == OUTPUTTING
      ensures outputs == if valid then old(outputs) + [out] else old(outputs)
      ensures !config.enable || old(state) == IDLE ==>
        state == old(state) && windows == old(windows) && armedSamples == old(armedSamples)
      ensures config.enable && old(state) == FILLING ==>
        && armedSamples == old(armedSamples) + [sample] && windows == old(windows)
        && state == (if |armedSamples| >= config.preSamples then ARMED else FILLING)
      ensures config.enable && old(state) == ARMED ==>
        && armedSamples == old(armedSamples) + [sample] && windows == old(windows)
        && state == (if trigger then CAPTURING else ARMED)
        && (trigger ==> afterSamples == [])
      ensures config.enable && old(state) == CAPTURING ==>
        && armedSamples == old(armedSamples) && afterSamples == old(afterSamples) + [sample]
        && (if |afterSamples| < AfterCount(config.postSamples)
            then state == CAPTURING && windows == old(windows)
            else
              && state == OUTPUTTING && outputIndex == 0
              && captureBuffer == Capture(armedSamples, afterSamples, config.preSamples)
              && windows == old(windows)
                + [Window(captureBuffer, config.preSamples, config.preSamples, config.postSamples)])
      ensures config.enable && old(state) == OUTPUTTING ==>
        && windows == old(windows)
        && outputIndex == old(outputIndex) + 1 && captureBuffer == old(captureBuffer)
        && state == (if outputIndex < |captureBuffer| then OUTPUTTING else ARMED)
        && (state == ARMED ==> armedSamples == [])
    {
      hide LastN, Capture, Concat, Valid;
      valid, out := false, 0;
      if !config.enable {
        return;
      }
      CountSample();
      match state {
        case IDLE =>
        case FILLING =>
          Fill(sample);
        case ARMED =>
          Watch(sample, trigger);
        case CAPTURING =>
          ContinueCapture(sample);
        case OUTPUTTING =>
          out := Output();
          valid := true;
      }
    }
  }

  // --- Runs over any trigger sequence ------------------------------------------------------

  // A capture: armed samples from `start` on, the trigger at `trig`, complete before `end`.
  datatype Span = Span(start: nat, trig: nat, end: nat)
  {
    predicate Fits(n: nat) { start <= trig < end <= n }

    // The samples in the window, and when it has been played back: what comes meanwhile is
    // dropped, and the buffer is armed again empty.
    function Length(pre: nat): nat
      requires start <= trig < end
    {
      Min(pre, trig + 1 - start) + 1 + (end - trig - 1)
    }

    function Next(pre: nat): nat
      requires start <= trig < end
    {
      end + Length(pre)
    }
  }

  // The captures of a run: armed from `start`, sensitive to triggers from `ready` on.
  function Spans(triggers: seq<bool>, pre: nat, post: nat, start: nat, ready: nat): (spans: seq<Span>)
    requires start <= ready
    ensures forall k :: 0 <= k < |spans| ==> spans[k].Fits(|triggers|)
    decreases if start <= |triggers| then |triggers| + 1 - start else 0
  {
    if ready > |triggers| then [] else
    var t := NextFire(triggers, ready);
    var span := Span(start, t, t + 1 + AfterCount(post));
    if span.end > |triggers| then [] else [span] + Spans(triggers, pre, post, span.Next(pre), span.Next(pre))
  }

  // From a reset the buffer fills first, and at least one sample goes by.
  function RunSpans(triggers: seq<bool>, pre: nat, post: nat): (spans: seq<Span>)
    ensures forall k :: 0 <= k < |spans| ==> spans[k].Fits(|triggers|)
  {
    Spans(triggers, pre, post, 0, Max(1, pre))
  }

  function WindowOf(signal: seq<int16>, span: Span, pre: nat, post: nat): Window
    requires span.Fits(|signal|)
  {
    Window(Capture(signal[span.start..span.trig + 1], signal[span.trig + 1..span.end], pre), pre, pre, post)
  }

  function WindowsOf(signal: seq<int16>, spans: seq<Span>, pre: nat, post: nat): seq<Window>
    requires forall k :: 0 <= k < |spans| ==> spans[k].Fits(|signal|)
  {
    seq(|spans|, k requires 0 <= k < |spans| => WindowOf(signal, spans[k], pre, post))
  }

  // How much of the windows is still to be played back after n samples.
  function Unsent(spans: seq<Span>, pre: nat, n: nat): nat
    requires forall k :: 0 <= k < |spans| ==> spans[k].Fits(n)
  {
    if spans == [] then 0 else
    var last := spans[|spans| - 1];
    assert last.Fits(n);
    if last.Next(pre) <= n then 0 else last.Next(pre) - n
  }

  // Every capture takes the first trigger since it was armed, and runs for the length that is
  // asked for; the next one is armed when the window has been played back.
  lemma {:induction false} SpanShape(triggers: seq<bool>, pre: nat, post: nat, start: nat, ready: nat, k: nat)
    requires start <= ready && k < |Spans(triggers, pre, post, start, ready)|
    ensures var spans := Spans(triggers, pre, post, start, ready);
      var from, on := if k == 0 then start else spans[k - 1].Next(pre),
        if k == 0 then ready else spans[k - 1].Next(pre);
      && spans[k].start == from <= on <= spans[k].trig && triggers[spans[k].trig]
      && (forall j :: on <= j < spans[k].trig ==> !triggers[j])
      && spans[k].end == spans[k].trig + 1 + AfterCount(post)
    decreases k
  {
    hide NextFire;
    if k == 0 {
    } else {
      var next := Spans(triggers, pre, post, start, ready)[0].Next(pre);
      SpanShape(triggers, pre, post, next, next, k - 1);
    }
  }

  // The window that a trigger at sample `trig` of a stream makes, if it is the first to count.
  function TlmWindowAt(signal: seq<int16>, trig: nat, pre: nat, post: nat): Option<seq<int16>>
  {
    if Max(1, pre) <= trig && trig + 1 + AfterCount(post) <= |signal|
    then Some(Capture(signal[..trig + 1], signal[trig + 1..trig + 1 + AfterCount(post)], pre))
    else None
  }

  // The first window of any run is the one around the first trigger after the filling,
  // whatever triggers were lost before and come later.
  lemma FirstWindow(signal: seq<int16>, triggers: seq<bool>, pre: nat, post: nat)
    requires |triggers| == |signal| && Max(1, pre) <= |signal|
    ensures var spans := RunSpans(triggers, pre, post);
      (if spans == [] then None else Some(WindowOf(signal, spans[0], pre, post).samples))
        == TlmWindowAt(signal, NextFire(triggers, Max(1, pre)), pre, post)
  {
    hide NextFire, Capture;
    var t := NextFire(triggers, Max(1, pre));
    if t + 1 + AfterCount(post) <= |signal| {
      assert signal[0..t + 1] == signal[..t + 1];
    }
  }

  // --- The recorded trigger position ----------------------------------------------------------

  // A window's trigger index is right if the post-trigger part, which starts with the copy of
  // the trigger sample, begins there.
  predicate IndexIsRight(w: Window, after: nat)
  {
    w.triggerIndex + 1 + after == |w.samples|
  }

  // Main result: the recorded index is right exactly when the buffer was armed for as many
  // samples as it holds ...
  lemma IndexRightIff(signal: seq<int16>, span: Span, pre: nat, post: nat)
    requires span.Fits(|signal|)
    ensures IndexIsRight(WindowOf(signal, span, pre, post), span.end - span.trig - 1)
      <==> span.trig + 1 - span.start >= pre
    ensures IndexIsRight(WindowOf(signal, span, pre, post), span.end - span.trig - 1)
      ==> WindowOf(signal, span, pre, post).samples[pre..] == [signal[span.trig]] + signal[span.trig + 1..span.end]
  {
    hide LastN, WindowOf;
    var armed, after := signal[span.start..span.trig + 1], signal[span.trig + 1..span.end];
    WindowParts(signal, span, pre, post);
    LastNLength(armed, pre);
    IndexOfParts(LastN(armed, pre), signal[span.trig], after, pre);
  }

  lemma WindowParts(signal: seq<int16>, span: Span, pre: nat, post: nat)
    requires span.Fits(|signal|)
    ensures var w, armed := WindowOf(signal, span, pre, post), signal[span.start..span.trig + 1];
      && w.samples == LastN(armed, pre) + [signal[span.trig]] + signal[span.trig + 1..span.end]
      && w.triggerIndex == pre && |armed| == span.trig + 1 - span.start
  {
    hide LastN;
  }

  lemma IndexOfParts(kept: seq<int16>, x: int16, after: seq<int16>, pre: nat)
    requires |kept| <= pre
    ensures var samples := kept + [x] + after;
      && (pre + 1 + |after| == |samples| <==> |kept| == pre)
      && (|kept| == pre ==> samples[pre..] == [x] + after)
  {
  }

  // ... which the first window of a run always meets.
  lemma FirstIndexIsRight(signal: seq<int16>, triggers: seq<bool>, pre: nat, post: nat)
    requires |triggers| == |signal| && RunSpans(triggers, pre, post) != []
    ensures var span := RunSpans(triggers, pre, post)[0];
      IndexIsRight(WindowOf(signal, span, pre, post), span.end - span.trig - 1)
  {
    SpanShape(triggers, pre, post, 0, Max(1, pre), 0);
    IndexRightIff(signal, RunSpans(triggers, pre, post)[0], pre, post);
  }

  ghost predicate AllIndexesRight(signal: seq<int16>, triggers: seq<bool>, pre: nat, post: nat)
  {
    var spans := RunSpans(triggers, pre, post);
    |triggers| == |signal| ==>
      forall k :: 0 <= k < |spans| ==> IndexIsRight(WindowOf(signal, spans[k], pre, post), AfterCount(post))
  }

  // Main result: a setting records right indexes in every run exactly when it asks for at most
  // one sample before the trigger.
  lemma SettingIndexesRight(pre: nat, post: nat)
    ensures (forall signal: seq<int16>, triggers: seq<bool> :: AllIndexesRight(signal, triggers, pre, post))
      <==> pre <= 1
  {
    if pre <= 1 {
      forall signal: seq<int16>, triggers: seq<bool> | |triggers| == |signal|
        ensures AllIndexesRight(signal, triggers, pre, post)
      {
        hide RunSpans, WindowOf, IndexIsRight;
        var spans := RunSpans(triggers, pre, post);
        forall k | 0 <= k < |spans|
          ensures IndexIsRight(WindowOf(signal, spans[k], pre, post), AfterCount(post))
        {
          RunSpanShape(triggers, pre, post, k);
          IndexRightIff(signal, spans[k], pre, post);
        }
      }
    } else {
      var n := 3 * (pre + 1 + AfterCount(post));
      var signal: seq<int16>, triggers := seq(n, _ => 0), seq(n, _ => true);
      TriggersAllTheTime(triggers, pre, post);
      IndexRightIff(signal, RunSpans(triggers, pre, post)[1], pre, post);
      assert !AllIndexesRight(signal, triggers, pre, post);
    }
  }

  lemma RunSpanShape(triggers: seq<bool>, pre: nat, post: nat, k: nat)
    requires k < |RunSpans(triggers, pre, post)|
    ensures var span := RunSpans(triggers, pre, post)[k];
      span.Fits(|triggers|) && span.end == span.trig + 1 + AfterCount(post)
  {
    SpanShape(triggers, pre, post, 0, Max(1, pre), k);
  }

  // With a trigger on every sample the second capture is of the sample it was armed for.
  lemma TriggersAllTheTime(triggers: seq<bool>, pre: nat, post: nat)
    requires pre >= 2 && |triggers| == 3 * (pre + 1 + AfterCount(post))
    requires forall i :: 0 <= i < |triggers| ==> triggers[i]
    ensures var spans, next := RunSpans(triggers, pre, post), 2 * (pre + 1 + AfterCount(post));
      |spans| >= 2 && spans[1] == Span(next, next, next + 1 + AfterCount(post))
  {
    var first := Span(0, pre, pre + 1 + AfterCount(post));
    var next := first.Next(pre);
    assert NextFire(triggers, pre) == pre && NextFire(triggers, next) == next;
    hide NextFire;
    assert Spans(triggers, pre, post, 0, pre) == [first] + Spans(triggers, pre, post, next, next);
  }

  // --- The run itself ---------------------------------------------------------------------------

  // Where a run stands before sample i: `done` are the captures so far, `start` and `ready`
  // belong to the one that is going on.
  ghost predicate RunAt(scope: ScopeTlm, signal: seq<int16>, triggers: seq<bool>, i: nat, done: seq<Span>, start: nat,
      ready: nat)
    reads scope
  {
    var pre, post := scope.config.preSamples, scope.config.postSamples;
    && |triggers| == |signal| && start <= ready && i <= |signal|
    && (forall k :: 0 <= k < |done| ==> done[k].Fits(i))
    && scope.windows == WindowsOf(signal, done, pre, post)
    && RunSpans(triggers, pre, post) == done + Spans(triggers, pre, post, start, ready)
    && (done != [] ==> start == done[|done| - 1].Next(pre))
    && match scope.state
       case IDLE => false
       case FILLING => i < ready && AwaitsTrigger(scope, signal, triggers, i, start, ready)
       case ARMED => ready <= i && AwaitsTrigger(scope, signal, triggers, i, start, ready)
       case CAPTURING => ready <= i && Captures(scope, signal, triggers, i, start, ready)
       case OUTPUTTING =>
         && done != [] && start == ready
         && i == done[|done| - 1].end + scope.outputIndex
         && scope.outputIndex < |scope.captureBuffer| == done[|done| - 1].Length(pre)
  }

  ghost predicate AwaitsTrigger(scope: ScopeTlm, signal: seq<int16>, triggers: seq<bool>, i: nat, start: nat,
      ready: nat)
    requires i <= |signal|
    reads scope
  {
    && start <= i && scope.armedSamples == signal[start..i]
    && (start < ready ==> start == 0 && ready == Max(1, scope.config.preSamples))
    && (ready <= i ==> |triggers| == |signal| && NextFire(triggers, ready) >= i)
  }

  ghost predicate Captures(scope: ScopeTlm, signal: seq<int16>, triggers: seq<bool>, i: nat, start: nat, ready: nat)
    requires |triggers| == |signal| && start <= ready <= i <= |signal|
    reads scope
  {
    var t := NextFire(triggers, ready);
    && t < i <= t + AfterCount(scope.config.postSamples)
    && scope.armedSamples == signal[start..t + 1] && scope.afterSamples == signal[t + 1..i]
  }

  // At the end nothing more is to come.
  lemma RunIsOver(scope: ScopeTlm, signal: seq<int16>, triggers: seq<bool>, done: seq<Span>, start: nat, ready: nat)
    requires scope.Valid() && RunAt(scope, signal, triggers, |signal|, done, start, ready)
    ensures RunSpans(triggers, scope.config.preSamples, scope.config.postSamples) == done
    ensures scope.windows == WindowsOf(signal, done, scope.config.preSamples, scope.config.postSamples)
    ensures |scope.outputs| <= |Concat(scope.windows)| && scope.outputs == Concat(scope.windows)[..|scope.outputs|]
    ensures |scope.outputs| + Unsent(done, scope.config.preSamples, |signal|) == |Concat(scope.windows)|
  {
    hide LastN, Capture, Concat, WindowsExact, RunSpans, WindowsOf;
    assert done + [] == done;
    if scope.state == OUTPUTTING {
      ConcatSnoc(scope.played, scope.current);
    }
  }

  // One sample of the run, by the state it finds.
  method Feed(scope: ScopeTlm, signal: seq<int16>, triggers: seq<bool>, i: nat, ghost done: seq<Span>,
      ghost start: nat, ghost ready: nat)
    returns (valid: bool, out: int16, ghost done': seq<Span>, ghost start': nat, ghost ready': nat)
    requires scope.Valid() && scope.config.enable
    requires i < |signal| && RunAt(scope, signal, triggers, i, done, start, ready)
    modifies scope
    ensures scope.Valid() && scope.config == old(scope.config)
    ensures RunAt(scope, signal, triggers, i + 1, done', start', ready')
    ensures scope.outputs == if valid then old(scope.outputs) + [out] else old(scope.outputs)
  {
    hide ScopeTlm.Valid, WindowsOf, AwaitsTrigger, Captures;
    done', start', ready' := done, start, ready;
    if scope.state == CAPTURING {
      valid, out, done', start', ready' := FeedCapturing(scope, signal, triggers, i, done, start, ready);
    } else if scope.state == OUTPUTTING {
      valid, out := FeedOutputting(scope, signal, triggers, i, done, start);
    } else {
      valid, out := FeedAwaiting(scope, signal, triggers, i, done, start, ready);
    }
  }

  method FeedAwaiting(scope: ScopeTlm, signal: seq<int16>, triggers: seq<bool>, i: nat,
                      ghost done: seq<Span>, ghost start: nat, ghost ready: nat)
    returns (valid: bool, out: int16)
    requires scope.Valid() && scope.config.enable && (scope.state == FILLING || scope.state == ARMED)
    requires i < |signal| && RunAt(scope, signal, triggers, i, done, start, ready)
    modifies scope
    ensures scope.Valid() && scope.config == old(scope.config)
    ensures RunAt(scope, signal, triggers, i + 1, done, start, ready)
    ensures scope.outputs == if valid then old(scope.outputs) + [out] else old(scope.outputs)
  {
    hide LastN, Capture, Concat, ScopeTlm.Valid, RunSpans, Spans, WindowsOf, NextFire;
    assert signal[start..i + 1] == signal[start..i] + [signal[i]];
    assert signal[i + 1..i + 1] == [];
    FitsLater(done, i);
    valid, out := scope.ProcessSample(signal[i], triggers[i]);
  }

  method FeedCapturing(scope: ScopeTlm, signal: seq<int16>, triggers: seq<bool>, i: nat,
                       ghost done: seq<Span>, ghost start: nat, ghost ready: nat)
    returns (valid: bool, out: int16, ghost done': seq<Span>, ghost start': nat, ghost ready': nat)
    requires scope.Valid() && scope.config.enable && scope.state == CAPTURING
    requires i < |signal| && RunAt(scope, signal, triggers, i, done, start, ready)
    modifies scope
    ensures scope.Valid() && scope.config == old(scope.config)
    ensures RunAt(scope, signal, triggers, i + 1, done', start', ready')
    ensures scope.outputs == if valid then old(scope.outputs) + [out] else old(scope.outputs)
  {
    hide LastN, Capture, Concat, ScopeTlm.Valid, RunSpans, Spans, WindowsOf, NextFire;
    done', start', ready' := done, start, ready;
    ghost var pre, post := scope.config.preSamples, scope.config.postSamples;
    ghost var t := NextFire(triggers, ready);
    assert signal[t + 1..i + 1] == signal[t + 1..i] + [signal[i]];
    FitsLater(done, i);
    valid, out := scope.ProcessSample(signal[i], triggers[i]);
    if scope.state == OUTPUTTING {
      ghost var span := Span(start, t, i + 1);
      FitsMore(done, |signal|, i + 1);
      SpanDone(signal, triggers, pre, post, done, start, ready, span);
      done' := done + [span];
      start', ready' := span.Next(pre), span.Next(pre);
    }
  }

  method FeedOutputting(scope: ScopeTlm, signal: seq<int16>, triggers: seq<bool>, i: nat, ghost done: seq<Span>,
      ghost start: nat)
    returns (valid: bool, out: int16)
    requires scope.Valid() && scope.config.enable && scope.state == OUTPUTTING
    requires i < |signal| && RunAt(scope, signal, triggers, i, done, start, start)
    modifies scope
    ensures scope.Valid() && scope.config == old(scope.config)
    ensures RunAt(scope, signal, triggers, i + 1, done, start, start)
    ensures scope.outputs == if valid then old(scope.outputs) + [out] else old(scope.outputs)
  {
    hide LastN, Capture, Concat, ScopeTlm.Valid, RunSpans, Spans, WindowsOf, NextFire;
    assert signal[i + 1..i + 1] == [];
    FitsLater(done, i);
    valid, out := scope.ProcessSample(signal[i], triggers[i]);
  }

  lemma FitsLater(done: seq<Span>, i: nat)
    requires forall k :: 0 <= k < |done| ==> done[k].Fits(i)
    ensures forall k :: 0 <= k < |done| ==> done[k].Fits(i + 1)
  {
  }

  lemma FitsMore(done: seq<Span>, n: nat, i: nat)
    requires i <= n && forall k :: 0 <= k < |done| ==> done[k].Fits(i)
    ensures forall k :: 0 <= k < |done| ==> done[k].Fits(n)
  {
  }

  // Taking the capture that is complete off the front of what is to come.
  lemma SpanDone(signal: seq<int16>, triggers: seq<bool>, pre: nat, post: nat, done: seq<Span>, start: nat,
      ready: nat, span: Span)
    requires |triggers| == |signal| && start <= ready <= |triggers| && span.Fits(|signal|)
    requires span == Span(start, NextFire(triggers, ready), NextFire(triggers, ready) + 1 + AfterCount(post))
    requires forall k :: 0 <= k < |done| ==> done[k].Fits(|signal|)
    ensures done + Spans(triggers, pre, post, start, ready)
         == (done + [span]) + Spans(triggers, pre, post, span.Next(pre), span.Next(pre))
    ensures WindowsOf(signal, done + [span], pre, post)
         == WindowsOf(signal, done, pre, post) + [WindowOf(signal, span, pre, post)]
    ensures |WindowOf(signal, span, pre, post).samples| == span.Length(pre)
  {
    hide NextFire, Capture;
    WindowLength(signal, span, pre, post);
    var rest := Spans(triggers, pre, post, span.Next(pre), span.Next(pre));
    assert Spans(triggers, pre, post, start, ready) == [span] + rest;
    assert done + ([span] + rest) == (done + [span]) + rest;
  }

  lemma WindowLength(signal: seq<int16>, span: Span, pre: nat, post: nat)
    requires span.Fits(|signal|)
    ensures |WindowOf(signal, span, pre, post).samples| == span.Length(pre)
  {
    LastNLength(signal[span.start..span.trig + 1], pre);
    hide LastN;
  }

  // Main result: over any stream and any triggers, a fresh scope makes exactly the windows of
  // its captures, and plays them back in order as far as the run goes.
  method Run(signal: seq<int16>, triggers: seq<bool>, cfg: Config) returns (windows: seq<Window>, outputs: seq<int16>)
    requires |triggers| == |signal|
    ensures cfg.enable ==>
      var spans := RunSpans(triggers, cfg.preSamples, cfg.postSamples);
      && windows == WindowsOf(signal, spans, cfg.preSamples, cfg.postSamples)
      && |outputs| <= |Concat(windows)| && outputs == Concat(windows)[..|outputs|]
      && |outputs| + Unsent(spans, cfg.preSamples, |signal|) == |Concat(windows)|
    ensures !cfg.enable ==> windows == [] && outputs == []
  {
    hide LastN, Capture, Concat, WindowsExact, ScopeTlm.Valid, RunSpans, Spans, RunAt;
    var scope := new ScopeTlm();
    scope.Configure(cfg);
    scope.Reset();
    scope.Enable();
    ghost var done, start, ready := [], 0, Max(1, cfg.preSamples);
    StartOfRun(scope, signal, triggers);
    outputs := [];
    for i := 0 to |signal|
      invariant fresh(scope) && scope.Valid() && scope.config == cfg && scope.outputs == outputs
      invariant cfg.enable ==> RunAt(scope, signal, triggers, i, done, start, ready)
      invariant !cfg.enable ==> scope.windows == [] && outputs == []
    {
      var valid, out;
      if cfg.enable {
        valid, out, done, start, ready := Feed(scope, signal, triggers, i, done, start, ready);
      } else {
        valid, out := scope.ProcessSample(signal[i], triggers[i]);
      }
      if valid {
        outputs := outputs + [out];
      }
    }
    if cfg.enable {
      RunIsOver(scope, signal, triggers, done, start, ready);
    }
    windows := scope.windows;
  }

  lemma StartOfRun(scope: ScopeTlm, signal: seq<int16>, triggers: seq<bool>)
    requires |triggers| == |signal| && scope.state == FILLING && scope.windows == [] && scope.armedSamples == []
    ensures RunAt(scope, signal, triggers, 0, [], 0, Max(1, scope.config.preSamples))
  {
    hide Spans;
    var spans := RunSpans(triggers, scope.config.preSamples, scope.config.postSamples);
    assert [] + spans == spans;
  }

  lemma OneTrigger(triggers: seq<bool>, trig: nat, pre: nat, post: nat)
    requires forall i :: 0 <= i < |triggers| ==> triggers[i] == (i == trig)
    ensures |RunSpans(triggers, pre, post)| <= 1
    ensures Max(1, pre) <= |triggers| ==>
      NextFire(triggers, Max(1, pre)) == if Max(1, pre) <= trig < |triggers| then trig else |triggers|
  {
    hide NextFire;
    var spans := RunSpans(triggers, pre, post);
    if |spans| >= 2 {
      SpanShape(triggers, pre, post, 0, Max(1, pre), 0);
      SpanShape(triggers, pre, post, 0, Max(1, pre), 1);
      assert false;
    }
    assert trig < |triggers| ==> triggers[trig];
  }

  // With a single trigger there is at most one window, and none if the trigger comes while
  // the buffer is still filling.
  method RunOneTrigger(signal: seq<int16>, trig: nat, cfg: Config) returns (windows: seq<Window>)
    requires cfg.enable
    ensures |windows| <= 1
    ensures (if windows == [] then None else Some(windows[0].samples))
         == TlmWindowAt(signal, trig, cfg.preSamples, cfg.postSamples)
  {
    hide RunSpans, NextFire, Capture, Concat;
    var triggers := seq(|signal|, i => i == trig);
    var outputs;
    windows, outputs := Run(signal, triggers, cfg);
    OneTrigger(triggers, trig, cfg.preSamples, cfg.postSamples);
    if Max(1, cfg.preSamples) <= |signal| {
      FirstWindow(signal, triggers, cfg.preSamples, cfg.postSamples);
    } else {
      ShortRun(triggers, cfg.preSamples, cfg.postSamples);
    }
  }

  // A run whose only trigger comes while the buffer is still filling: nothing is captured.
  method TriggerWhileFilling() returns (windows: seq<Window>)
    ensures windows == []
    ensures TlmWindowAt([5, 6, 7, 8, 9, 10], 0, 2, 2) == None && TlmWindowAt([5, 6, 7, 8, 9, 10], 2, 2, 2) != None
  {
    windows := RunOneTrigger([5, 6, 7, 8, 9, 10], 0, Config(true, 2, 2, 4096));
  }

  lemma ShortRun(triggers: seq<bool>, pre: nat, post: nat)
    requires |triggers| < Max(1, pre)
    ensures RunSpans(triggers, pre, post) == []
  {
  }

  // A run whose second window records a wrong trigger index: re-armed empty, the buffer held
  // one sample when the next trigger came.
  method SecondIndexIsWrong() returns (windows: seq<Window>)
    ensures |windows| == 2
    ensures windows[0] == Window([1, 2, 2, 3], 2, 2, 2) && windows[1] == Window([8, 8, 9], 2, 2, 2)
    ensures !IndexIsRight(windows[1], 1)
  {
    hide Concat, WindowsOf, RunSpans;
    var signal: seq<int16> := seq(10, i requires 0 <= i < 10 => i);
    var triggers := [false, false, true, false, false, false, false, false, true, false];
    var outputs;
    TwoSpans(triggers);
    TwoWindows(signal);
    windows, outputs := Run(signal, triggers, Config(true, 2, 2, 4096));
  }

  lemma TwoWindows(signal: seq<int16>)
    requires |signal| == 10 && forall i :: 0 <= i < 10 ==> signal[i] == i
    ensures WindowsOf(signal, [Span(0, 2, 4), Span(8, 8, 10)], 2, 2)
         == [Window([1, 2, 2, 3], 2, 2, 2), Window([8, 8, 9], 2, 2, 2)]
  {
    assert signal[0..3] == [0, 1, 2] && signal[3..4] == [3];
    assert signal[8..9] == [8] && signal[9..10] == [9];
    TwoCaptures();
    hide Capture;
    assert WindowOf(signal, Span(0, 2, 4), 2, 2) == Window([1, 2, 2, 3], 2, 2, 2);
    assert WindowOf(signal, Span(8, 8, 10), 2, 2) == Window([8, 8, 9], 2, 2, 2);
  }

  lemma TwoCaptures()
    ensures Capture([0, 1, 2], [3], 2) == [1, 2, 2, 3] && Capture([8], [9], 2) == [8, 8, 9]
  {
    assert LastN<int16>([0, 1, 2], 2) == [1, 2];
  }

  lemma TwoSpans(triggers: seq<bool>)
    requires triggers == [false, false, true, false, false, false, false, false, true, false]
    ensures RunSpans(triggers, 2, 2) == [Span(0, 2, 4), Span(8, 8, 10)]
  {
    assert NextFire(triggers, 2) == 2 && NextFire(triggers, 8) == 8;
    assert Span(0, 2, 4).Next(2) == 8 && Span(8, 8, 10).Next(2) == 13;
    assert Spans(triggers, 2, 2, 13, 13) == [];
    assert Spans(triggers, 2, 2, 8, 8) == [Span(8, 8, 10)];
  }

  // Main result: for the same trigger the SystemC window is the ESL window with the
  // trigger sample repeated and the last post-trigger sample dropped.
  lemma WindowsAlign(signal: seq<int16>, trig: nat, pre: nat, post: nat)
    requires 1 <= pre <= trig && 2 <= post && trig + 1 + post <= |signal|
    ensures Scope.WindowAt(signal, trig, pre, post).Some?
    ensures var esl := Scope.WindowAt(signal, trig, pre, post).value;
      var k := esl.triggerIndex;
      && k >= 1 && esl.samples[k - 1] == signal[trig]
      && TlmWindowAt(signal, trig, pre, post)
         == Some(esl.samples[..k] + [esl.samples[k - 1]] + esl.samples[k..|esl.samples| - 1])
  {
    var before := LastN(signal[..trig + 1], pre);
    var after := signal[trig + 1..trig + 1 + post];
    assert |before| == pre && before[pre - 1] == signal[trig];
    assert (before + after)[..pre] == before;
    assert (before + after)[pre..pre + post - 1] == after[..post - 1] == signal[trig + 1..trig + post];
  }
}

/** The ESL scope: a bounded pre-trigger buffer, a post-trigger buffer, and the
    window they make. */
module Scope {
  import opened Samples

  datatype State = IDLE | ARMED | TRIGGERED | TRANSFER | DONE

  datatype ScopeConfig = ScopeConfig(enable: bool, arm: bool, preSamples: nat, postSamples: nat)

  datatype CapturedWindow = CapturedWindow(samples: seq<int16>, triggerIndex: nat, preSamples: nat, postSamples: nat)

  // A capture always takes one sample after the trigger, even when asked for none.
  function PostCount(post: nat): nat { Max(1, post) }

  // A window made of the last pre samples of `armed` and the samples in `post`.
  function MakeWindow(armed: seq<int16>, post: seq<int16>, pre: nat): CapturedWindow
  {
    CapturedWindow(LastN(armed, pre) + post, Min(pre, |armed|), Min(pre, |armed|), |post|)
  }

  // What the extraction of the pre-trigger samples finds in the bounded buffer.
  lemma PreTrigger(armed: seq<int16>, depth: nat, pre: nat)
    ensures var kept := LastN(armed, depth);
      var n := Min(pre, |kept|);
      && n == Min(Min(pre, depth), |armed|)
      && (if n > 0 then kept[|kept| - n..] else []) == LastN(armed, Min(pre, depth))
  {
    var kept := LastN(armed, depth);
    LastNLength(armed, depth);
    TailIsLastN(kept, pre);
    LastNOfLastN(armed, depth, pre);
    hide LastN;
  }

  lemma TailIsLastN(s: seq<int16>, n: nat)
    ensures var k := Min(n, |s|);
      (if k > 0 then s[|s| - k..] else []) == LastN(s, n)
  {
  }

  class ScopeModel {
    const bufferDepth: nat
    var config: ScopeConfig
    var state: State
    var circularBuffer: seq<int16>
    var postBuffer: seq<int16>
    var triggerPosition: nat
    var postCount: nat

    // Every sample accepted while armed, since the last arming.
    ghost var armedSamples: seq<int16>

    ghost predicate Valid()
      reads this
    {
      && circularBuffer == LastN(armedSamples, bufferDepth)
      && postCount == |postBuffer|
    }

    constructor (bufferDepth: nat)
      ensures Valid() && state == IDLE && this.bufferDepth == bufferDepth
      ensures armedSamples == [] && postBuffer == []
    {
      this.bufferDepth := bufferDepth;
      config := ScopeConfig(true, false, 100, 100);
      state, circularBuffer, postBuffer, triggerPosition, postCount := IDLE, [], [], 0, 0;
      armedSamples := [];
    }

    method Reset()
      modifies this
      ensures Valid() && state == IDLE && config == old(config)
      ensures armedSamples == [] && postBuffer == []
    {
      state, circularBuffer, postBuffer, triggerPosition, postCount := IDLE, [], [], 0, 0;
      armedSamples := [];
    }

    // Asking for more pre-trigger samples than the buffer holds is an error; the bad
    // configuration is kept all the same, and the state is left alone.
    method Configure(cfg: ScopeConfig) returns (ok: bool)
      requires Valid()
      modifies this
      ensures Valid() && config == cfg
      ensures ok <==> cfg.preSamples <= bufferDepth
      ensures state ==
        if !ok then old(state)
        else if !cfg.enable then IDLE
        else if cfg.arm && old(state) == IDLE then ARMED
        else old(state)
      ensures if ok && cfg.enable && cfg.arm && old(state) == IDLE
        then armedSamples == [] && postBuffer == []
        else armedSamples == old(armedSamples) && postBuffer == old(postBuffer)
    {
      config := cfg;
      if cfg.preSamples > bufferDepth {
        return false;
      }
      if cfg.enable && cfg.arm && state == IDLE {
        state := ARMED;
        circularBuffer, postBuffer, postCount := [], [], 0;
        armedSamples := [];
      } else if !cfg.enable {
        state := IDLE;
      }
      ok := true;
    }

    method ProcessSample(sample: int16) returns (accepted: bool)
      requires Valid()
      modifies this
      ensures Valid() && config == old(config)
      ensures accepted <==> old(state) == ARMED || old(state) == TRIGGERED
      ensures armedSamples == if old(state) == ARMED then old(armedSamples) + [sample] else old(armedSamples)
      ensures postBuffer == if old(state) == TRIGGERED then old(postBuffer) + [sample] else old(postBuffer)
      ensures state ==
        if old(state) == TRIGGERED && |postBuffer| >= config.postSamples then TRANSFER else old(state)
    {
      if state == ARMED {
        LastNPush(armedSamples, bufferDepth, sample);
        circularBuffer := LastN(circularBuffer + [sample], bufferDepth);
        armedSamples := armedSamples + [sample];
        return true;
      } else if state == TRIGGERED {
        postBuffer := postBuffer + [sample];
        postCount := postCount + 1;
        if postCount >= config.postSamples {
          state := TRANSFER;
        }
        return true;
      }
      accepted := false;
    }

    method Trigger() returns (accepted: bool)
      requires Valid()
      modifies this
      ensures Valid() && config == old(config) && armedSamples == old(armedSamples)
      ensures accepted <==> old(state) == ARMED
      ensures state == if accepted then TRIGGERED else old(state)
      ensures postBuffer == if accepted then [] else old(postBuffer)
      ensures triggerPosition == if accepted then Min(|armedSamples|, bufferDepth) else old(triggerPosition)
    {
      if state != ARMED {
        return false;
      }
      LastNLength(armedSamples, bufferDepth);
      triggerPosition := |circularBuffer|;
      state, postCount, postBuffer := TRIGGERED, 0, [];
      accepted := true;
    }

    // The window is the last pre samples armed for, as far as the buffer and the
    // stream go back, then the samples after the trigger.
    method GetCapturedData() returns (window: Option<CapturedWindow>)
      requires Valid()
      modifies this`state
      ensures Valid()
      ensures old(state) != TRANSFER && old(state) != DONE ==> window == None && state == old(state)
      ensures old(state) == TRANSFER || old(state) == DONE ==>
        && state == DONE
        && window == Some(MakeWindow(armedSamples, postBuffer, Min(config.preSamples, bufferDepth)))
    {
      if state != TRANSFER && state != DONE {
        return None;
      }
      hide LastN;
      PreTrigger(armedSamples, bufferDepth, config.preSamples);
      var availablePre := Min(config.preSamples, |circularBuffer|);
      var preData := if availablePre > 0 then circularBuffer[|circularBuffer| - availablePre..] else [];
      state := DONE;
      window := Some(CapturedWindow(preData + postBuffer, availablePre, availablePre, |postBuffer|));
    }

    method Arm()
      requires Valid()
      modifies this
      ensures Valid()
      ensures var go := old(config).enable && (old(state) == IDLE || old(state) == DONE);
        && config == (if go then old(config).(arm := true) else old(config))
        && state == (if go then ARMED else old(state))
        && armedSamples == (if go then [] else old(armedSamples))
        && postBuffer == (if go then [] else old(postBuffer))
    {
      if config.enable && (state == IDLE || state == DONE) {
        config := config.(arm := true);
        state := ARMED;
        circularBuffer, postBuffer, postCount := [], [], 0;
        armedSamples := [];
      }
    }
  }

  // The window around sample `trig` of a signal: what the capture is for.
  function WindowAt(signal: seq<int16>, trig: nat, pre: nat, post: nat): Option<CapturedWindow>
  {
    if trig + 1 + PostCount(post) <= |signal|
    then Some(MakeWindow(signal[..trig + 1], signal[trig + 1..trig + 1 + PostCount(post)], pre))
    else None
  }

  // Main result: feeding a fresh scope from a buffer's length before the trigger
  // captures exactly that window, or nothing when the signal is too short.
  method CaptureAround(signal: seq<int16>, trig: nat, pre: nat, post: nat, depth: nat)
    returns (ok: bool, window: Option<CapturedWindow>)
    ensures ok <==> pre <= depth
    ensures window == if ok then WindowAt(signal, trig, pre, post) else None
  {
    var scope := new ScopeModel(depth);
    ok := scope.Configure(ScopeConfig(true, true, pre, post));
    if !ok {
      return false, None;
    }
    hide LastN, MakeWindow, PostCount;
    var start := if trig > depth then trig - depth else 0;
    var i := start;
    assert i <= |signal| ==> signal[start..i] == [];
    while i < |signal| && scope.state != TRANSFER
      invariant fresh(scope) && scope.Valid() && scope.config == ScopeConfig(true, true, pre, post)
      invariant scope.bufferDepth == depth && CaptureState(scope, signal, start, trig, i)
      decreases |signal| - i
    {
      FeedCapture(scope, signal, start, trig, i);
      i := i + 1;
    }
    if scope.state == TRANSFER {
      WindowFromStart(signal, start, trig, pre, post);
    }
    window := scope.GetCapturedData();
  }

  method FeedCapture(scope: ScopeModel, signal: seq<int16>, start: nat, trig: nat, i: nat)
    requires scope.Valid() && i < |signal| && scope.state != TRANSFER && CaptureState(scope, signal, start, trig, i)
    modifies scope
    ensures scope.Valid() && scope.config == old(scope.config)
    ensures CaptureState(scope, signal, start, trig, i + 1)
  {
    hide LastN, ScopeModel.Valid;
    if scope.state == ARMED {
      assert signal[start..i + 1] == signal[start..i] + [signal[i]];
      var _ := scope.ProcessSample(signal[i]);
      if i == trig {
        assert signal[trig + 1..i + 1] == [];
        var _ := scope.Trigger();
      }
    } else {
      assert signal[trig + 1..i + 1] == signal[trig + 1..i] + [signal[i]];
      var _ := scope.ProcessSample(signal[i]);
    }
  }

  // Where the loop stands before sample i: armed up to the trigger, then capturing, then done.
  ghost predicate CaptureState(scope: ScopeModel, signal: seq<int16>, start: nat, trig: nat, i: nat)
    reads scope
  {
    var count := PostCount(scope.config.postSamples);
    && start <= i && start <= trig
    && match scope.state
       case ARMED => i <= trig && (i <= |signal| ==> scope.armedSamples == signal[start..i])
       case TRIGGERED => Capturing(scope, signal, start, trig, i) && i < trig + 1 + count
       case TRANSFER => Capturing(scope, signal, start, trig, i) && i == trig + 1 + count
       case _ => false
  }

  // Sample i is next, and the samples since the trigger are in the post buffer.
  ghost predicate Capturing(scope: ScopeModel, signal: seq<int16>, start: nat, trig: nat, i: nat)
    reads scope
  {
    && start <= trig < i <= |signal|
    && scope.armedSamples == signal[start..trig + 1]
    && scope.postBuffer == signal[trig + 1..i]
  }

  // Starting a buffer's length before the trigger loses nothing of the window.
  lemma WindowFromStart(signal: seq<int16>, start: nat, trig: nat, pre: nat, post: nat)
    requires start <= trig && trig + 1 + PostCount(post) <= |signal|
    requires start == 0 || start + pre <= trig
    ensures WindowAt(signal, trig, pre, post)
         == Some(MakeWindow(signal[start..trig + 1], signal[trig + 1..trig + 1 + PostCount(post)], pre))
  {
    LastNOfSuffix(signal[..trig + 1], start, pre);
    assert signal[..trig + 1][start..] == signal[start..trig + 1];
  }

  // Main result: a window is one stretch of the signal, from `pre` samples up to the trigger, or
  // its beginning, to `post` samples after it, or one; there is none only if the signal ends first.
  lemma WindowIsStretch(signal: seq<int16>, trig: nat, pre: nat, post: nat)
    ensures var n, from := if post == 0 then 1 else post, if pre <= trig + 1 then trig + 1 - pre else 0;
      WindowAt(signal, trig, pre, post) ==
        if trig + 1 + n > |signal| then None
        else Some(CapturedWindow(signal[from..trig + 1 + n], trig + 1 - from, trig + 1 - from, n))
  {
    var n, from := if post == 0 then 1 else post, if pre <= trig + 1 then trig + 1 - pre else 0;
    if trig + 1 + n <= |signal| {
      assert LastN(signal[..trig + 1], pre) == signal[from..trig + 1];
      assert signal[from..trig + 1] + signal[trig + 1..trig + 1 + n] == signal[from..trig + 1 + n];
    }
  }

  // The windows around a list of trigger positions, without those that the signal cuts short.
  function WindowsAt(signal: seq<int16>, triggers: seq<nat>, pre: nat, post: nat): seq<CapturedWindow>
  {
    if triggers == [] then [] else
    var n := |triggers| - 1;
    WindowsAt(signal, triggers[..n], pre, post) + (
      match WindowAt(signal, triggers[n], pre, post)
      case None => []
      case Some(w) => [w])
  }

  // Where the signal is long enough for all of them, each trigger has its window, in order.
  lemma {:induction false} WindowsInOrder(signal: seq<int16>, triggers: seq<nat>, pre: nat, post: nat, k: nat)
    requires forall i :: 0 <= i < |triggers| ==> WindowAt(signal, triggers[i], pre, post).Some?
    ensures |WindowsAt(signal, triggers, pre, post)| == |triggers|
    ensures k < |triggers| ==>
      Some(WindowsAt(signal, triggers, pre, post)[k]) == WindowAt(signal, triggers[k], pre, post)
    decreases |triggers|
  {
    hide WindowAt;
    if triggers == [] {
    } else {
      WindowsInOrder(signal, triggers[..|triggers| - 1], pre, post, k);
    }
  }

  // Main result: the simulation captures exactly those windows, in the order of the list; it
  // fails exactly when there is a trigger and the buffer is too small for the setting.
  method SimulateAcquisition(signal: seq<int16>, triggers: seq<nat>, pre: nat, post: nat, depth: nat)
    returns (ok: bool, windows: seq<CapturedWindow>)
    ensures ok <==> triggers == [] || pre <= depth
    ensures ok ==> windows == WindowsAt(signal, triggers, pre, post)
  {
    hide WindowAt;
    windows := [];
    for k := 0 to |triggers|
      invariant windows == WindowsAt(signal, triggers[..k], pre, post)
      invariant k > 0 ==> pre <= depth
    {
      assert triggers[..k + 1][..k] == triggers[..k];
      var window;
      ok, window := CaptureAround(signal, triggers[k], pre, post, depth);
      if !ok {
        return false, [];
      }
      if window.Some? {
        windows := windows + [window.value];
      }
    }
    ok := true;
    assert triggers[..|triggers|] == triggers;
  }
}

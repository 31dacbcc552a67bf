/** What an acquisition run is for, stated on the signals alone: which samples fire,
    which spans of the first signal are captured, what goes to memory. */
module AcquisitionSpec {
  import opened Samples
  import opened Scope
  import Trigger
  import BurstPlan
  import RamWriter

  datatype SystemConfig = SystemConfig(
    trigger1: Trigger.TriggerConfig, trigger2: Trigger.TriggerConfig, orMode: bool,
    scopePre: nat, scopePost: nat, scopeBuffer: nat,
    ramBase: nat, ramSize: nat)

  const FIFO_DEPTH: nat := 512

  predicate Combine(orMode: bool, a: bool, b: bool) { if orMode then a || b else a && b }

  // The combined trigger, sample by sample.
  function Fires(cfg: SystemConfig, s1: seq<int>, s2: seq<int>): seq<bool>
    requires |s1| <= |s2|
  {
    seq(|s1|, i requires 0 <= i < |s1| =>
      Combine(cfg.orMode, Trigger.FiresAt(cfg.trigger1, s1, i), Trigger.FiresAt(cfg.trigger2, s2, i)))
  }

  // One captured window: samples from .. end, triggered at trig.
  datatype Span = Span(from: nat, trig: nat, end: nat)

  function SpanFrom(start: nat, t: nat, pre: nat): nat
  {
    if t + 1 <= start + pre then start else t + 1 - pre
  }

  // The windows of a run: from `start`, wait for the trigger, take the samples
  // after it, start again where they end; at most `left` times.
  function Spans(fires: seq<bool>, pre: nat, post: nat, start: nat, left: int): seq<Span>
    requires start <= |fires|
    decreases |fires| - start
  {
    var t := NextFire(fires, start);
    var end := t + 1 + PostCount(post);
    if left <= 0 || end > |fires| then [] else
    [Span(SpanFrom(start, t, pre), t, end)] + Spans(fires, pre, post, end, left - 1)
  }

  predicate SpanInRange(signal: seq<int16>, s: Span) { s.from <= s.trig + 1 <= s.end <= |signal| }

  function WindowOf(signal: seq<int16>, s: Span): CapturedWindow
    requires SpanInRange(signal, s)
  {
    CapturedWindow(signal[s.from..s.end], s.trig + 1 - s.from, s.trig + 1 - s.from, s.end - s.trig - 1)
  }

  // --- What the spans of a run look like ---------------------------------------------

  // Every window lies after `start`, holds at most pre samples up to its trigger,
  // exactly PostCount(post) after it, and its trigger is the first since the end of
  // the window before.
  lemma {:induction false} SpanShape(fires: seq<bool>, pre: nat, post: nat, start: nat, left: int, k: nat)
    requires start <= |fires| && k < |Spans(fires, pre, post, start, left)|
    ensures var spans := Spans(fires, pre, post, start, left);
      var lo := if k == 0 then start else spans[k - 1].end;
      && lo <= spans[k].from <= spans[k].trig + 1 && lo <= spans[k].trig
      && spans[k].trig + 1 - spans[k].from == Min(pre, spans[k].trig + 1 - lo)
      && spans[k].end == spans[k].trig + 1 + PostCount(post) <= |fires|
      && fires[spans[k].trig]
      && forall j :: lo <= j < spans[k].trig ==> !fires[j]
    decreases k
  {
    if k == 0 {
    } else {
      var end := NextFire(fires, start) + 1 + PostCount(post);
      SpanShape(fires, pre, post, end, left - 1, k - 1);
    }
  }

  // Windows are disjoint, in the order of the signal, and at most `left` of them.
  lemma {:induction false} SpansDisjoint(fires: seq<bool>, pre: nat, post: nat, start: nat, left: int)
    requires start <= |fires|
    ensures var spans := Spans(fires, pre, post, start, left);
      && |spans| <= (if left <= 0 then 0 else left)
      && forall a, b :: 0 <= a < b < |spans| ==> spans[a].end <= spans[b].from
    decreases |fires| - start
  {
    var spans := Spans(fires, pre, post, start, left);
    if spans == [] {
    } else {
      var end := NextFire(fires, start) + 1 + PostCount(post);
      SpansDisjoint(fires, pre, post, end, left - 1);
      var rest := Spans(fires, pre, post, end, left - 1);
      forall a, b | 0 <= a < b < |spans|
        ensures spans[a].end <= spans[b].from
      {
        assert spans[b] == rest[b - 1];
        if a > 0 {
          assert spans[a] == rest[a - 1];
        } else {
          FirstSpanBound(fires, pre, post, end, left - 1, b - 1);
        }
      }
    }
  }

  lemma {:induction false} FirstSpanBound(fires: seq<bool>, pre: nat, post: nat, start: nat, left: int, k: nat)
    requires start <= |fires| && k < |Spans(fires, pre, post, start, left)|
    ensures start <= Spans(fires, pre, post, start, left)[k].from
    decreases k
  {
    if k == 0 {
    } else {
      var end := NextFire(fires, start) + 1 + PostCount(post);
      FirstSpanBound(fires, pre, post, end, left - 1, k - 1);
    }
  }

  // No window is left out: a run with fewer than `left` windows ends with no trigger
  // since the last one, or with one too late for its window to fit.
  lemma {:induction false} SpansComplete(fires: seq<bool>, pre: nat, post: nat, start: nat, left: int)
    requires start <= |fires| && |Spans(fires, pre, post, start, left)| < left
    ensures var spans := Spans(fires, pre, post, start, left);
      var lo := if spans == [] then start else spans[|spans| - 1].end;
      lo <= |fires| && NextFire(fires, lo) + 1 + PostCount(post) > |fires|
    decreases |fires| - start
  {
    var end := NextFire(fires, start) + 1 + PostCount(post);
    if end > |fires| {
    } else {
      SpansComplete(fires, pre, post, end, left - 1);
    }
  }

  // --- What goes to memory ------------------------------------------------------------

  function Windows(signal: seq<int16>, spans: seq<Span>): seq<CapturedWindow>
    requires forall k :: 0 <= k < |spans| ==> SpanInRange(signal, spans[k])
  {
    seq(|spans|, k requires 0 <= k < |spans| => WindowOf(signal, spans[k]))
  }

  function AllSamples(windows: seq<CapturedWindow>): seq<int>
  {
    if windows == [] then [] else AllSamples(windows[..|windows|-1]) + windows[|windows|-1].samples
  }

  // A window longer than the FIFO loses the samples that the FIFO refuses.
  function Kept(w: CapturedWindow): seq<int>
  {
    w.samples[..Min(|w.samples|, FIFO_DEPTH)]
  }

  function Written(windows: seq<CapturedWindow>): seq<int>
  {
    if windows == [] then [] else Written(windows[..|windows|-1]) + Kept(windows[|windows|-1])
  }

  lemma {:induction false} WrittenIsNoLonger(windows: seq<CapturedWindow>)
    ensures |Written(windows)| <= |AllSamples(windows)|
    decreases |windows|
  {
    if windows == [] {
    } else {
      WrittenIsNoLonger(windows[..|windows| - 1]);
    }
  }

  // Main result: memory receives the captured samples in full exactly when every
  // window fits the FIFO.
  lemma {:induction false} WrittenInFull(windows: seq<CapturedWindow>)
    ensures Written(windows) == AllSamples(windows)
       <==> forall k :: 0 <= k < |windows| ==> |windows[k].samples| <= FIFO_DEPTH
    decreases |windows|
  {
    if windows == [] {
    } else {
      var n := |windows| - 1;
      var before, w := windows[..n], windows[n];
      WrittenInFull(before);
      WrittenIsNoLonger(before);
      assert windows == before + [w];
      assert |Written(windows)| == |Written(before)| + |Kept(w)|;
      assert |AllSamples(windows)| == |AllSamples(before)| + |w.samples|;
      if |w.samples| <= FIFO_DEPTH {
        assert Kept(w) == w.samples;
        SameSuffix(Written(before), AllSamples(before), w.samples);
      }
    }
  }

  lemma SameSuffix(a: seq<int>, b: seq<int>, c: seq<int>)
    ensures a + c == b + c <==> a == b
  {
    if a + c == b + c {
      assert a == (a + c)[..|a|] && b == (b + c)[..|b|];
    }
  }

  // What the writer has stored of a run's windows, where it will write next, and what is
  // stuck in the FIFO because no beat fits before the end of a page.
  datatype Stored = Stored(address: nat, pending: seq<int>, data: seq<int>)

  // The samples of a window that the FIFO takes.
  function Accepted(before: Stored, w: CapturedWindow): seq<int>
    requires |before.pending| <= FIFO_DEPTH
  {
    w.samples[..Min(|w.samples|, FIFO_DEPTH - |before.pending|)]
  }

  function StoreOne(cfg: BurstPlan.Config, before: Stored, w: CapturedWindow): (s: Stored)
    requires |before.pending| <= FIFO_DEPTH
    ensures |s.pending| <= FIFO_DEPTH
    ensures s.data + s.pending == before.data + (before.pending + Accepted(before, w))
  {
    var queue := before.pending + Accepted(before, w);
    RamWriter.DrainConserves(cfg, before.address, queue);
    var drained := BurstPlan.Flatten(BurstPlan.Drain(cfg, before.address, queue));
    Joined(before.data, drained, RamWriter.Left(cfg, before.address, queue));
    Stored(BurstPlan.DrainAddress(cfg, before.address, |queue|), RamWriter.Left(cfg, before.address, queue),
      before.data + drained)
  }

  lemma Joined(a: seq<int>, b: seq<int>, c: seq<int>)
    ensures a + b + c == a + (b + c)
  {
  }

  function StoreAll(cfg: BurstPlan.Config, windows: seq<CapturedWindow>): (s: Stored)
    ensures |s.pending| <= FIFO_DEPTH
  {
    if windows == [] then Stored(cfg.baseAddr, [], []) else
    StoreOne(cfg, StoreAll(cfg, windows[..|windows|-1]), windows[|windows|-1])
  }

  // Where no beat fits before the end of the page the writer stays for ever, and stores
  // nothing more.
  lemma StuckForEver(cfg: BurstPlan.Config, before: Stored, w: CapturedWindow)
    requires |before.pending| <= FIFO_DEPTH && BurstPlan.BeatsToPage(before.address) == 0
    ensures StoreOne(cfg, before, w).address == before.address && StoreOne(cfg, before, w).data == before.data
  {
    var queue := before.pending + Accepted(before, w);
    RamWriter.DrainStops(cfg, before.address, queue);
    hide BurstPlan.Drain, BurstPlan.DrainAddress;
    assert BurstPlan.Flatten([]) == [];
  }

  // With a base on a word boundary nothing gets stuck, and all that the FIFO takes is stored.
  lemma {:induction false} AlignedStores(cfg: BurstPlan.Config, windows: seq<CapturedWindow>)
    requires BurstPlan.Aligned(cfg.baseAddr) && cfg.maxBurstLen >= 1
    ensures var s := StoreAll(cfg, windows);
      s.pending == [] && BurstPlan.Aligned(s.address) && s.data == Written(windows)
    decreases |windows|
  {
    hide BurstPlan.Drain, BurstPlan.DrainAddress, BurstPlan.Flatten, BurstPlan.Aligned, RamWriter.Left;
    if windows == [] {
    } else {
      var n := |windows| - 1;
      var before := StoreAll(cfg, windows[..n]);
      AlignedStores(cfg, windows[..n]);
      var queue := before.pending + Accepted(before, windows[n]);
      assert queue == Kept(windows[n]);
      BurstPlan.DrainShape(cfg, before.address, queue);
      RamWriter.NothingLeft(cfg, before.address, queue);
    }
  }

  // A setting a caller can check: pre- and post-trigger samples fit the FIFO.
  lemma SmallWindowsFit(signal: seq<int16>, fires: seq<bool>, pre: nat, post: nat, left: int, k: nat)
    requires |fires| == |signal| && pre + PostCount(post) <= FIFO_DEPTH
    requires k < |Spans(fires, pre, post, 0, left)|
    ensures var s := Spans(fires, pre, post, 0, left)[k];
      SpanInRange(signal, s) && |WindowOf(signal, s).samples| <= FIFO_DEPTH
  {
    SpanShape(fires, pre, post, 0, left, k);
  }

  // Everything captured in a run is kept.
  predicate KeepsAll(signal: seq<int16>, fires: seq<bool>, pre: nat, post: nat, left: int)
    requires |fires| == |signal|
  {
    Written(RunWindows(signal, fires, pre, post, left)) == AllSamples(RunWindows(signal, fires, pre, post, left))
  }

  lemma SmallSettingKeepsAll(signal: seq<int16>, fires: seq<bool>, pre: nat, post: nat, left: int)
    requires |fires| == |signal| && pre + PostCount(post) <= FIFO_DEPTH
    ensures KeepsAll(signal, fires, pre, post, left)
  {
    var windows := RunWindows(signal, fires, pre, post, left);
    forall k | 0 <= k < |windows|
      ensures |windows[k].samples| <= FIFO_DEPTH
    {
      SmallWindowsFit(signal, fires, pre, post, left, k);
    }
    WrittenInFull(windows);
  }

  // One trigger, after as many samples as are kept before it, makes one full window.
  lemma OneFullWindow(signal: seq<int16>, fires: seq<bool>, pre: nat, post: nat)
    requires |fires| == |signal| == pre + 1 + PostCount(post)
    requires forall i :: 0 <= i < |fires| ==> (fires[i] <==> i == pre)
    ensures var windows := RunWindows(signal, fires, pre, post, 1);
      |windows| == 1 && |windows[0].samples| == pre + PostCount(post)
  {
    assert fires[pre];
    assert NextFire(fires, 0) == pre;
    assert Spans(fires, pre, post, |fires|, 0) == [];
  }

  // Main result: a setting keeps everything captured from every signal and every trigger
  // exactly when its pre- and post-trigger samples fit the FIFO.
  lemma SettingKeepsAll(pre: nat, post: nat)
    ensures pre + PostCount(post) <= FIFO_DEPTH <==>
      forall signal: seq<int16>, fires: seq<bool>, left: int ::
        |fires| == |signal| ==> KeepsAll(signal, fires, pre, post, left)
  {
    hide KeepsAll;
    if pre + PostCount(post) <= FIFO_DEPTH {
      forall signal: seq<int16>, fires: seq<bool>, left: int | |fires| == |signal|
        ensures KeepsAll(signal, fires, pre, post, left)
      {
        SmallSettingKeepsAll(signal, fires, pre, post, left);
      }
    } else {
      var n := pre + 1 + PostCount(post);
      var signal: seq<int16>, fires := seq(n, _ => 0), seq(n, i => i == pre);
      LargeSettingLoses(signal, fires, pre, post);
      assert !KeepsAll(signal, fires, pre, post, 1);
    }
  }

  lemma LargeSettingLoses(signal: seq<int16>, fires: seq<bool>, pre: nat, post: nat)
    requires pre + PostCount(post) > FIFO_DEPTH && |fires| == |signal| == pre + 1 + PostCount(post)
    requires forall i :: 0 <= i < |fires| ==> (fires[i] <==> i == pre)
    ensures !KeepsAll(signal, fires, pre, post, 1)
  {
    OneFullWindow(signal, fires, pre, post);
    WrittenInFull(RunWindows(signal, fires, pre, post, 1));
  }

  lemma {:induction false} SpansInRange(signal: seq<int16>, fires: seq<bool>, pre: nat, post: nat, start: nat,
      left: int)
    requires |fires| == |signal| && start <= |fires|
    ensures forall k :: 0 <= k < |Spans(fires, pre, post, start, left)| ==>
      SpanInRange(signal, Spans(fires, pre, post, start, left)[k])
  {
    forall k: nat | k < |Spans(fires, pre, post, start, left)|
      ensures SpanInRange(signal, Spans(fires, pre, post, start, left)[k])
    {
      SpanShape(fires, pre, post, start, left, k);
    }
  }

  // The windows of a whole run over a signal.
  function RunWindows(signal: seq<int16>, fires: seq<bool>, pre: nat, post: nat, maxTriggers: int): seq<CapturedWindow>
    requires |fires| == |signal|
  {
    SpansInRange(signal, fires, pre, post, 0, maxTriggers);
    Windows(signal, Spans(fires, pre, post, 0, maxTriggers))
  }

  // --- The two channels ----------------------------------------------------------------

  // A channel's trigger alone, sample by sample.
  function ChannelFires(t: Trigger.TriggerConfig, s: seq<int>, n: nat): seq<bool>
    requires n <= |s|
  {
    seq(n, i requires 0 <= i < n => Trigger.FiresAt(t, s, i))
  }

  predicate Silent(t: Trigger.TriggerConfig, s: seq<int>, n: nat)
    requires n <= |s|
  {
    forall i: nat :: i < n ==> !Trigger.FiresAt(t, s, i)
  }

  lemma DisabledIsSilent(t: Trigger.TriggerConfig, s: seq<int>, n: nat)
    requires n <= |s| && !t.enable
    ensures Silent(t, s, n)
  {
  }

  // The windows of a run of the system, and from where on the scope was armed for window k.
  function RunSpans(cfg: SystemConfig, s1: seq<int>, s2: seq<int>, left: int): seq<Span>
    requires |s1| <= |s2|
  {
    Spans(Fires(cfg, s1, s2), cfg.scopePre, cfg.scopePost, 0, left)
  }

  function ArmedFrom(spans: seq<Span>, k: nat): nat
    requires k <= |spans|
  {
    if k == 0 then 0 else spans[k - 1].end
  }

  // Main result: in and-mode every window has both triggers firing at its own, and no sample at
  // which both fire was passed over while the scope was armed for it; nor is there one at the
  // end, with windows still allowed, for which there was room.
  lemma AndModeTakesBoth(cfg: SystemConfig, s1: seq<int>, s2: seq<int>, left: int, k: nat, j: nat)
    requires |s1| <= |s2| && !cfg.orMode && k <= |RunSpans(cfg, s1, s2, left)| && j < |s1|
    ensures var spans := RunSpans(cfg, s1, s2, left);
      var both := Trigger.FiresAt(cfg.trigger1, s1, j) && Trigger.FiresAt(cfg.trigger2, s2, j);
      && (k < |spans| && j == spans[k].trig ==> both)
      && (k < |spans| && ArmedFrom(spans, k) <= j < spans[k].trig ==> !both)
      && (k == |spans| < left && ArmedFrom(spans, k) <= j && j + 1 + PostCount(cfg.scopePost) <= |s1| ==> !both)
  {
    WindowTriggers(cfg, s1, s2, left, k, j);
    hide Spans, Trigger.FiresAt;
  }

  // Main result: in or-mode the same of at least one trigger.
  lemma OrModeTakesEither(cfg: SystemConfig, s1: seq<int>, s2: seq<int>, left: int, k: nat, j: nat)
    requires |s1| <= |s2| && cfg.orMode && k <= |RunSpans(cfg, s1, s2, left)| && j < |s1|
    ensures var spans := RunSpans(cfg, s1, s2, left);
      var either := Trigger.FiresAt(cfg.trigger1, s1, j) || Trigger.FiresAt(cfg.trigger2, s2, j);
      && (k < |spans| && j == spans[k].trig ==> either)
      && (k < |spans| && ArmedFrom(spans, k) <= j < spans[k].trig ==> !either)
      && (k == |spans| < left && ArmedFrom(spans, k) <= j && j + 1 + PostCount(cfg.scopePost) <= |s1| ==> !either)
  {
    WindowTriggers(cfg, s1, s2, left, k, j);
    hide Spans, Trigger.FiresAt;
  }

  lemma WindowTriggers(cfg: SystemConfig, s1: seq<int>, s2: seq<int>, left: int, k: nat, j: nat)
    requires |s1| <= |s2| && k <= |RunSpans(cfg, s1, s2, left)| && j < |s1|
    ensures var spans, fires := RunSpans(cfg, s1, s2, left), Fires(cfg, s1, s2);
      && (k < |spans| && j == spans[k].trig ==> fires[j])
      && (k < |spans| && ArmedFrom(spans, k) <= j < spans[k].trig ==> !fires[j])
      && (k == |spans| < left && ArmedFrom(spans, k) <= j && j + 1 + PostCount(cfg.scopePost) <= |s1| ==> !fires[j])
  {
    var spans, fires := RunSpans(cfg, s1, s2, left), Fires(cfg, s1, s2);
    hide Spans, Combine, Trigger.FiresAt;
    if k < |spans| {
      SpanShape(fires, cfg.scopePre, cfg.scopePost, 0, left, k);
    } else if |spans| < left {
      SpansComplete(fires, cfg.scopePre, cfg.scopePost, 0, left);
      hide NextFire;
    }
  }

  predicate AndModeIsSilent(cfg: SystemConfig, s1: seq<int>, s2: seq<int>)
    requires |s1| <= |s2|
  {
    !cfg.orMode && (Silent(cfg.trigger1, s1, |s1|) || Silent(cfg.trigger2, s2, |s1|))
  }

  // Main result: with one channel silent, and so with it disabled, there is no window in
  // and-mode, and in or-mode the windows are those of the other channel alone.
  lemma SilentChannel(cfg: SystemConfig, s1: seq<int>, s2: seq<int>, left: int)
    requires |s1| <= |s2|
    ensures AndModeIsSilent(cfg, s1, s2) ==> RunSpans(cfg, s1, s2, left) == []
    ensures cfg.orMode && Silent(cfg.trigger1, s1, |s1|) ==>
      Fires(cfg, s1, s2) == ChannelFires(cfg.trigger2, s2, |s1|)
    ensures cfg.orMode && Silent(cfg.trigger2, s2, |s1|) ==>
      Fires(cfg, s1, s2) == ChannelFires(cfg.trigger1, s1, |s1|)
  {
    hide Trigger.FiresAt;
    var fires := Fires(cfg, s1, s2);
    if AndModeIsSilent(cfg, s1, s2) {
      forall i | 0 <= i < |fires|
        ensures !fires[i]
      {
      }
      assert NextFire(fires, 0) == |fires|;
    }
  }

  // --- The event log ------------------------------------------------------------------

  // The sample before sample i; zero in front of the stream.
  function Previous(s: seq<int>, i: nat): int
    requires i < |s|
  {
    if i > 0 then s[i - 1] else 0
  }

  function EventAt(t: Trigger.TriggerConfig, s: seq<int>, i: nat): seq<Trigger.TriggerEvent>
    requires i < |s|
  {
    if Trigger.FiresAt(t, s, i) then [Trigger.TriggerEvent(i, s[i], Previous(s, i), t.mode)] else []
  }

  // What sample i adds to the log: at most one event of each channel.
  function EventsAt(cfg: SystemConfig, s1: seq<int>, s2: seq<int>, i: nat): seq<Trigger.TriggerEvent>
    requires i < |s1| <= |s2|
  {
    EventAt(cfg.trigger1, s1, i) + EventAt(cfg.trigger2, s2, i)
  }

  // Main result: a channel that fires at sample i has its event in the log, with that sample and
  // the one before it, and the log holds nothing else.
  lemma ChannelEvent(t: Trigger.TriggerConfig, s: seq<int>, i: nat)
    requires i < |s|
    ensures EventAt(t, s, i)
      == if Trigger.FiresAt(t, s, i) then [Trigger.TriggerEvent(i, s[i], Trigger.LastOrZero(s[..i]), t.mode)] else []
  {
  }

  lemma {:induction false} LogComplete(cfg: SystemConfig, s1: seq<int>, s2: seq<int>, n: nat, i: nat)
    requires i < n <= |s1| <= |s2|
    ensures Trigger.FiresAt(cfg.trigger1, s1, i) ==>
      Trigger.TriggerEvent(i, s1[i], Trigger.LastOrZero(s1[..i]), cfg.trigger1.mode) in EventLog(cfg, s1, s2, n)
    ensures Trigger.FiresAt(cfg.trigger2, s2, i) ==>
      Trigger.TriggerEvent(i, s2[i], Trigger.LastOrZero(s2[..i]), cfg.trigger2.mode) in EventLog(cfg, s1, s2, n)
    decreases n
  {
    hide Trigger.FiresAt, Trigger.LastOrZero, EventAt;
    ChannelEvent(cfg.trigger1, s1, i);
    ChannelEvent(cfg.trigger2, s2, i);
    if i == n - 1 {
    } else {
      LogComplete(cfg, s1, s2, n - 1, i);
    }
  }

  lemma {:induction false} LogSound(cfg: SystemConfig, s1: seq<int>, s2: seq<int>, n: nat, e: Trigger.TriggerEvent)
    requires n <= |s1| <= |s2| && e in EventLog(cfg, s1, s2, n)
    ensures e.sampleIndex < n
    ensures var i := e.sampleIndex;
      || (Trigger.FiresAt(cfg.trigger1, s1, i)
        && e == Trigger.TriggerEvent(i, s1[i], Trigger.LastOrZero(s1[..i]), cfg.trigger1.mode))
      || (Trigger.FiresAt(cfg.trigger2, s2, i)
        && e == Trigger.TriggerEvent(i, s2[i], Trigger.LastOrZero(s2[..i]), cfg.trigger2.mode))
    decreases n
  {
    hide Trigger.FiresAt;
    if n == 0 {
    } else if e in EventLog(cfg, s1, s2, n - 1) {
      LogSound(cfg, s1, s2, n - 1, e);
    } else {
      assert e in EventsAt(cfg, s1, s2, n - 1);
    }
  }

  function EventLog(cfg: SystemConfig, s1: seq<int>, s2: seq<int>, n: nat): seq<Trigger.TriggerEvent>
    requires n <= |s1| <= |s2|
  {
    if n == 0 then [] else EventLog(cfg, s1, s2, n - 1) + EventsAt(cfg, s1, s2, n - 1)
  }
}

/** The acquisition system: two triggers, the scope and the RAM writer, run together
    over whole signals. */
module Acquisition {
  import opened Samples
  import opened AcquisitionSpec
  import opened Scope
  import BurstPlan
  import Fifo
  import T = Trigger
  import W = RamWriter

  datatype Result = Result(
    windows: seq<CapturedWindow>, triggerEvents: seq<T.TriggerEvent>, totalSamples: nat,
    bytesWritten: nat, transactions: seq<BurstPlan.Txn>)

  // The writer after some windows: what it has stored and what is stuck are as specified.
  ghost predicate WriterHolds(w: W.RamWriterModel, windows: seq<CapturedWindow>)
    reads w, w.fifo
  {
    var stored := StoreAll(w.config, windows);
    && w.Valid() && w.fifo.depth == FIFO_DEPTH
    && w.config.enable && w.config.maxBurstLen == 256
    && Fifo.Words(w.fifo.queue) == stored.pending
    && w.currentAddress == stored.address
    && BurstPlan.Flatten(w.transactions) == stored.data
    && w.bytesWritten == 4 * |stored.data|
    && (forall i :: 0 <= i < |w.transactions| ==> w.transactions[i].WellShaped(256))
    && (w.config.EndsOnPage() ==> w.OnRing())
  }

  // Sends a window word by word, without looking whether the FIFO takes it.
  method SendWindow(w: W.RamWriterModel, samples: seq<int16>)
    requires w.Valid() && w.config.enable
    modifies w`packetComplete, w.fifo
    ensures w.Valid() && (old(w.OnRing()) ==> w.OnRing())
    ensures var room := w.fifo.depth - old(|w.fifo.queue|);
      Fifo.Words(w.fifo.queue) == Fifo.Words(old(w.fifo.queue)) + samples[..Min(|samples|, room)]
  {
    ghost var room := w.fifo.depth - |w.fifo.queue|;
    for j := 0 to |samples|
      invariant w.Valid() && (old(w.OnRing()) ==> w.OnRing())
      invariant Fifo.Words(w.fifo.queue) == Fifo.Words(old(w.fifo.queue)) + samples[..Min(j, room)]
    {
      var isLast := j == |samples| - 1;
      ghost var before := w.fifo.queue;
      var ok := w.AxisWrite(samples[j], isLast);
      if ok {
        assert Fifo.Words(w.fifo.queue) == Fifo.Words(before) + [samples[j]];
        assert |before| == |Fifo.Words(before)|;
        assert samples[..j + 1] == samples[..j] + [samples[j]];
      }
    }
  }

  lemma StoreSnoc(cfg: BurstPlan.Config, windows: seq<CapturedWindow>, w: CapturedWindow)
    ensures StoreAll(cfg, windows + [w]) == StoreOne(cfg, StoreAll(cfg, windows), w)
  {
    hide StoreOne;
    assert (windows + [w])[..|windows|] == windows;
  }

  method StoreWindow(w: W.RamWriterModel, ghost windows: seq<CapturedWindow>, window: CapturedWindow)
    requires WriterHolds(w, windows)
    modifies w, w.fifo
    ensures w.config == old(w.config)
    ensures WriterHolds(w, windows + [window])
  {
    hide BurstPlan.Drain, BurstPlan.DrainAddress, BurstPlan.Flatten, BurstPlan.Store, BurstPlan.Ring, W.Left, StoreAll;
    ghost var addr, before := w.currentAddress, StoreAll(w.config, windows);
    assert |w.fifo.queue| == |before.pending|;
    SendWindow(w, window.samples);
    ghost var data := Fifo.Words(w.fifo.queue);
    assert data == before.pending + Accepted(before, window);
    BurstPlan.DrainWellShaped(w.config, addr, data);
    ghost var txns0 := w.transactions;
    var txns := w.ProcessPending();
    BurstPlan.FlattenAppend(txns0, txns);
    StoreSnoc(w.config, windows, window);
  }

  // --- The triggers and the scope, at sample i of a run ------------------------------

  ghost predicate TriggerAt(t: T.TriggerModel, cfg: T.TriggerConfig, s: seq<int>, i: nat)
    requires i <= |s|
    reads t
  {
    t.Steady() && t.config == cfg && t.samples == (if cfg.enable then s[..i] else [])
  }

  method TriggerStep(t: T.TriggerModel, ghost cfg: T.TriggerConfig, s: seq<int>, i: nat) returns (fired: bool)
    requires i < |s| && TriggerAt(t, cfg, s, i)
    modifies t
    ensures TriggerAt(t, cfg, s, i + 1)
    ensures fired <==> T.FiresAt(cfg, s, i)
  {
    hide T.Crossing, T.Event;
    var out := t.ProcessSample(s[i], true);
    assert s[..i] + [s[i]] == s[..i + 1];
    T.FiresOnPrefix(cfg, s, i);
    fired := out.Trigger? && out.fired;
  }

  // Between samples: `done` are the spans captured so far, `start` is where the scope
  // was last armed, and what is still to come completes the spans of the whole run.
  ghost predicate ScopeAt(scope: ScopeModel, cfg: SystemConfig, signal: seq<int16>, fires: seq<bool>,
                          maxTriggers: int, i: nat, done: seq<Span>, start: nat)
    reads scope
  {
    && scope.Valid() && scope.bufferDepth == cfg.scopeBuffer
    && scope.config == ScopeConfig(true, true, cfg.scopePre, cfg.scopePost)
    && start <= i <= |fires| == |signal|
    && done + Spans(fires, cfg.scopePre, cfg.scopePost, start, maxTriggers - |done|)
       == Spans(fires, cfg.scopePre, cfg.scopePost, 0, maxTriggers)
    && match scope.state
       case ARMED =>
         && scope.armedSamples == signal[start..i]
         && (|done| < maxTriggers ==> NextFire(fires, start) >= i)
       case TRIGGERED =>
         var t := NextFire(fires, start);
         && |done| < maxTriggers && t < i
         && scope.armedSamples == signal[start..t + 1]
         && scope.postBuffer == signal[t + 1..i]
         && i - (t + 1) < PostCount(cfg.scopePost)
       case DONE => |done| >= maxTriggers
       case _ => false
  }

  method ArmedStep(scope: ScopeModel, cfg: SystemConfig, signal: seq<int16>, ghost fires: seq<bool>,
                   maxTriggers: int, i: nat, ghost done: seq<Span>, ghost start: nat, fired: bool, processed: nat)
    requires ScopeAt(scope, cfg, signal, fires, maxTriggers, i, done, start)
    requires scope.state == ARMED && i < |signal| && fired == fires[i] && processed == |done|
    modifies scope
    ensures ScopeAt(scope, cfg, signal, fires, maxTriggers, i + 1, done, start)
  {
    hide Spans, NextFire;
    assert signal[start..i] + [signal[i]] == signal[start..i + 1];
    assert signal[i + 1..i + 1] == [];
    var _ := scope.ProcessSample(signal[i]);
    if fired && processed < maxTriggers {
      var _ := scope.Trigger();
    }
  }

  // A window is complete exactly when its span ends here.
  method TriggeredStep(scope: ScopeModel, cfg: SystemConfig, signal: seq<int16>, ghost fires: seq<bool>,
                       maxTriggers: int, i: nat, ghost done: seq<Span>, ghost start: nat)
    returns (window: Option<CapturedWindow>, ghost span: Span)
    requires ScopeAt(scope, cfg, signal, fires, maxTriggers, i, done, start)
    requires cfg.scopePre <= cfg.scopeBuffer
    requires scope.state == TRIGGERED && i < |signal|
    modifies scope
    ensures window == None ==> ScopeAt(scope, cfg, signal, fires, maxTriggers, i + 1, done, start)
    ensures window.Some? ==>
      && scope.state == DONE && scope.Valid() && scope.config == old(scope.config)
      && span == NextSpan(fires, cfg, start) && span.end == i + 1
      && SpanInRange(signal, span) && window.value == WindowOf(signal, span)
  {
    hide Spans, NextFire, MakeWindow, WindowOf, SpanFrom, LastN;
    ghost var t := NextFire(fires, start);
    span := NextSpan(fires, cfg, start);
    assert signal[t + 1..i] + [signal[i]] == signal[t + 1..i + 1];
    var _ := scope.ProcessSample(signal[i]);
    window := None;
    if scope.state == TRANSFER {
      window := scope.GetCapturedData();
      assert i + 1 == t + 1 + PostCount(cfg.scopePost);
      WindowOfSpan(signal, cfg.scopePre, start, t, i + 1);
    }
  }

  ghost function NextSpan(fires: seq<bool>, cfg: SystemConfig, start: nat): Span
    requires start <= |fires|
  {
    var t := NextFire(fires, start);
    Span(SpanFrom(start, t, cfg.scopePre), t, t + 1 + PostCount(cfg.scopePost))
  }

  lemma WindowOfSpan(signal: seq<int16>, pre: nat, start: nat, t: nat, end: nat)
    requires start <= t < end <= |signal|
    ensures var span := Span(SpanFrom(start, t, pre), t, end);
      && SpanInRange(signal, span)
      && MakeWindow(signal[start..t + 1], signal[t + 1..end], pre) == WindowOf(signal, span)
  {
    hide LastN;
    var from := SpanFrom(start, t, pre);
    var armed, post := signal[start..t + 1], signal[t + 1..end];
    LastOfStretch(signal, start, t + 1, pre);
    TwoStretches(signal, from, t + 1, end);
    assert |armed| == t + 1 - start && |post| == end - t - 1;
    assert LastN(armed, pre) + post == signal[from..end];
  }

  lemma LastOfStretch(signal: seq<int16>, start: nat, end: nat, n: nat)
    requires start < end <= |signal|
    ensures LastN(signal[start..end], n) == signal[SpanFrom(start, end - 1, n)..end]
  {
  }

  lemma TwoStretches(signal: seq<int16>, a: nat, b: nat, c: nat)
    requires a <= b <= c <= |signal|
    ensures signal[a..b] + signal[b..c] == signal[a..c]
  {
  }

  // Taking the next span off the front of what is still to come.
  lemma SpanTaken(fires: seq<bool>, cfg: SystemConfig, start: nat, done: seq<Span>, maxTriggers: int)
    requires start <= |fires| && |done| < maxTriggers
    requires done + Spans(fires, cfg.scopePre, cfg.scopePost, start, maxTriggers - |done|)
          == Spans(fires, cfg.scopePre, cfg.scopePost, 0, maxTriggers)
    requires NextSpan(fires, cfg, start).end <= |fires|
    ensures var span := NextSpan(fires, cfg, start);
      done + [span] + Spans(fires, cfg.scopePre, cfg.scopePost, span.end, maxTriggers - |done + [span]|)
          == Spans(fires, cfg.scopePre, cfg.scopePost, 0, maxTriggers)
  {
    hide NextFire;
    var span := NextSpan(fires, cfg, start);
    var rest := Spans(fires, cfg.scopePre, cfg.scopePost, span.end, maxTriggers - |done| - 1);
    assert done + ([span] + rest) == done + [span] + rest;
  }

  // At the end of the signal nothing is still to come.
  lemma NothingToCome(scope: ScopeModel, cfg: SystemConfig, signal: seq<int16>, fires: seq<bool>,
                      maxTriggers: int, done: seq<Span>, start: nat)
    requires ScopeAt(scope, cfg, signal, fires, maxTriggers, |signal|, done, start)
    ensures done == Spans(fires, cfg.scopePre, cfg.scopePost, 0, maxTriggers)
  {
    hide NextFire;
    assert Spans(fires, cfg.scopePre, cfg.scopePost, start, maxTriggers - |done|) == [];
  }

  lemma WindowsSnoc(signal: seq<int16>, spans: seq<Span>, span: Span)
    requires forall k :: 0 <= k < |spans| ==> SpanInRange(signal, spans[k])
    requires SpanInRange(signal, span)
    ensures Windows(signal, spans + [span]) == Windows(signal, spans) + [WindowOf(signal, span)]
  {
  }

  class AcquisitionSystem {
    const config: SystemConfig
    const trigger1: T.TriggerModel
    const trigger2: T.TriggerModel
    const scope: ScopeModel
    const ramWriter: W.RamWriterModel

    // Built and configured, nothing processed yet.
    ghost predicate Fresh()
      reads this, trigger1, trigger2, scope, ramWriter, ramWriter.fifo
    {
      && trigger1 != trigger2
      && trigger1.Steady() && trigger1.config == config.trigger1 && trigger1.samples == []
      && trigger2.Steady() && trigger2.config == config.trigger2 && trigger2.samples == []
      && config.scopePre <= config.scopeBuffer
      && scope.Valid() && scope.bufferDepth == config.scopeBuffer
      && scope.config == ScopeConfig(true, true, config.scopePre, config.scopePost)
      && scope.state == ARMED && scope.armedSamples == []
      && ramWriter.config == BurstPlan.Config(true, config.ramBase, config.ramSize, 256)
      && ramWriter.Valid() && ramWriter.fifo.queue == [] && ramWriter.fifo.depth == FIFO_DEPTH
      && ramWriter.currentAddress == config.ramBase
      && ramWriter.transactions == [] && ramWriter.bytesWritten == 0
      && (ramWriter.config.EndsOnPage() ==> ramWriter.OnRing())
    }

    constructor (cfg: SystemConfig)
      ensures config == cfg
      ensures fresh(trigger1) && fresh(trigger2) && fresh(scope) && fresh(ramWriter) && fresh(ramWriter.fifo)
      ensures cfg.scopePre <= cfg.scopeBuffer ==> Fresh()
    {
      config := cfg;
      trigger1 := new T.TriggerModel(T.TriggerConfig(true, T.RISING, 0));
      trigger2 := new T.TriggerModel(T.TriggerConfig(true, T.RISING, 0));
      scope := new ScopeModel(cfg.scopeBuffer);
      ramWriter := new W.RamWriterModel(FIFO_DEPTH);
      new;
      trigger1.Configure(cfg.trigger1);
      trigger2.Configure(cfg.trigger2);
      var ok := scope.Configure(ScopeConfig(true, true, cfg.scopePre, cfg.scopePost));
      ramWriter.Configure(BurstPlan.Config(true, cfg.ramBase, cfg.ramSize, 256));
    }

    // A pre-trigger length beyond the scope buffer makes construction fail.
    static method Create(cfg: SystemConfig) returns (system: AcquisitionSystem?)
      ensures system == null <==> cfg.scopePre > cfg.scopeBuffer
      ensures system != null ==> fresh(system) && system.config == cfg && system.Fresh()
      ensures system != null ==> fresh(system.trigger1) && fresh(system.trigger2) && fresh(system.scope)
      ensures system != null ==> fresh(system.ramWriter) && fresh(system.ramWriter.fifo)
    {
      if cfg.scopePre > cfg.scopeBuffer {
        return null;
      }
      system := new AcquisitionSystem(cfg);
    }

    // A missing second channel reads as zeros.
    static function SecondSignal(signal1: seq<int16>, signal2: Option<seq<int16>>): seq<int16>
    {
      match signal2
      case None => seq(|signal1|, _ => 0)
      case Some(s) => s
    }

    // Main result: from signals to windows to bursts to memory. The windows are the
    // spans of the combined trigger; the burst data is what the FIFO keeps of them,
    // in order; every burst is legal; a buffer that ends on a page ends up as the ring of
    // that data.
    method RunAcquisition(signal1: seq<int16>, signal2: Option<seq<int16>>, maxTriggers: int) returns (result: Result)
      requires Fresh()
      requires signal2.Some? ==> |signal1| <= |signal2.value|
      modifies trigger1, trigger2, scope, ramWriter, ramWriter.fifo
      ensures result.windows == RunWindows(signal1, Fires(config, signal1, SecondSignal(signal1, signal2)),
        config.scopePre, config.scopePost, maxTriggers)
      ensures AndModeIsSilent(config, signal1, SecondSignal(signal1, signal2)) ==> result.windows == []
      ensures config.orMode && Silent(config.trigger2, SecondSignal(signal1, signal2), |signal1|) ==>
        result.windows == RunWindows(signal1, ChannelFires(config.trigger1, signal1, |signal1|),
          config.scopePre, config.scopePost, maxTriggers)
      ensures result.triggerEvents == EventLog(config, signal1, SecondSignal(signal1, signal2), |signal1|)
      ensures result.totalSamples == |signal1|
      ensures BurstPlan.Flatten(result.transactions) == StoreAll(ramWriter.config, result.windows).data
      ensures result.bytesWritten == 4 * |BurstPlan.Flatten(result.transactions)|
      ensures BurstPlan.Aligned(config.ramBase) ==> BurstPlan.Flatten(result.transactions) == Written(result.windows)
      ensures BurstPlan.Aligned(config.ramBase) && config.scopePre + PostCount(config.scopePost) <= FIFO_DEPTH ==>
        BurstPlan.Flatten(result.transactions) == AllSamples(result.windows)
      ensures forall i :: 0 <= i < |result.transactions| ==> result.transactions[i].WellShaped(256)
      ensures ramWriter.config.EndsOnPage() ==>
        ramWriter.memory == BurstPlan.Ring(config.ramBase, ramWriter.config.Capacity(), Written(result.windows))
    {
      hide Spans, NextFire, EventLog, Silent, AndModeIsSilent, ChannelFires, T.FiresAt, BurstPlan.Ring,
        BurstPlan.Flatten, BurstPlan.Aligned, Written, ScopeAt, StoreAll;
      var s2 := SecondSignal(signal1, signal2);
      ghost var fires := Fires(config, signal1, s2);
      ghost var done, start := [], 0;
      var windows, events := [], [];
      NothingStored(config, signal1, s2);
      StartOfRun(scope, config, signal1, fires, maxTriggers);
      for i := 0 to |signal1|
        invariant TriggerAt(trigger1, config.trigger1, signal1, i) && TriggerAt(trigger2, config.trigger2, s2, i)
        invariant StagesAt(signal1, fires, maxTriggers, i, windows, done, start)
        invariant events == EventLog(config, signal1, s2, i)
      {
        var trig1 := TriggerStep(trigger1, config.trigger1, signal1, i);
        var trig2 := TriggerStep(trigger2, config.trigger2, s2, i);
        var fired := if config.orMode then trig1 || trig2 else trig1 && trig2;
        LogStep(config, signal1, s2, i, trig1, trig2);
        if trig1 {
          events := events + [T.TriggerEvent(i, signal1[i], if i > 0 then signal1[i - 1] else 0, config.trigger1.mode)];
        }
        if trig2 {
          events := events + [T.TriggerEvent(i, s2[i], if i > 0 then s2[i - 1] else 0, config.trigger2.mode)];
        }
        windows, done, start := FeedScope(signal1, fires, maxTriggers, i, fired, windows, done, start);
      }
      NothingToCome(scope, config, signal1, fires, maxTriggers, done, start);
      SilentChannel(config, signal1, s2, maxTriggers);
      StoredAsPromised(config, ramWriter.config, signal1, fires, maxTriggers);
      if ramWriter.config.EndsOnPage() {
        BurstPlan.WholeWords(ramWriter.config);
      }
      result := Result(windows, events, |signal1|, ramWriter.bytesWritten, ramWriter.transactions);
    }

    // The scope and the writer between samples; the number of triggers processed is
    // the number of windows.
    ghost predicate StagesAt(signal: seq<int16>, fires: seq<bool>, maxTriggers: int, i: nat,
                             windows: seq<CapturedWindow>, done: seq<Span>, start: nat)
      reads this, scope, ramWriter, ramWriter.fifo
    {
      && ScopeAt(scope, config, signal, fires, maxTriggers, i, done, start)
      && WriterHolds(ramWriter, windows)
      && ramWriter.config == BurstPlan.Config(true, config.ramBase, config.ramSize, 256)
      && |done| == |windows|
      && (forall k :: 0 <= k < |done| ==> SpanInRange(signal, done[k]))
      && windows == Windows(signal, done)
    }

    method FeedScope(signal: seq<int16>, ghost fires: seq<bool>, maxTriggers: int, i: nat, fired: bool,
                     windows: seq<CapturedWindow>, ghost done: seq<Span>, ghost start: nat)
      returns (windows': seq<CapturedWindow>, ghost done': seq<Span>, ghost start': nat)
      requires config.scopePre <= config.scopeBuffer
      requires StagesAt(signal, fires, maxTriggers, i, windows, done, start)
      requires i < |signal| && fired == fires[i]
      modifies scope, ramWriter, ramWriter.fifo
      ensures StagesAt(signal, fires, maxTriggers, i + 1, windows', done', start')
    {
      hide Spans, NextFire, BurstPlan.Flatten, Written;
      windows', done', start' := windows, done, start;
      if scope.state == ARMED {
        ArmedStep(scope, config, signal, fires, maxTriggers, i, done, start, fired, |windows|);
      } else if scope.state == TRIGGERED {
        var window, span := TriggeredStep(scope, config, signal, fires, maxTriggers, i, done, start);
        if window.Some? {
          SpanTaken(fires, config, start, done, maxTriggers);
          WindowsSnoc(signal, done, span);
          StoreWindow(ramWriter, windows, window.value);
          windows' := windows + [window.value];
          done', start' := done + [span], i + 1;
          if |windows'| < maxTriggers {
            scope.Arm();
            assert signal[i + 1..i + 1] == [];
          }
        }
      }
    }
  }

  // A channel that is not given fires only in LEVEL mode, so with any other mode it is silent.
  lemma MissingChannelIsSilent(t: T.TriggerConfig, signal: seq<int16>)
    requires t.mode != T.LEVEL
    ensures Silent(t, AcquisitionSystem.SecondSignal(signal, None), |signal|)
  {
    var zeros := AcquisitionSystem.SecondSignal(signal, None);
    forall i: nat | i < |signal|
      ensures !T.FiresAt(t, zeros, i)
    {
      T.FiresClosedForm(t, zeros, i);
    }
  }

  lemma StartOfRun(scope: ScopeModel, cfg: SystemConfig, signal: seq<int16>, fires: seq<bool>, maxTriggers: int)
    requires |fires| == |signal|
    requires scope.Valid() && scope.bufferDepth == cfg.scopeBuffer && scope.state == ARMED && scope.armedSamples == []
    requires scope.config == ScopeConfig(true, true, cfg.scopePre, cfg.scopePost)
    ensures ScopeAt(scope, cfg, signal, fires, maxTriggers, 0, [], 0)
  {
    hide Spans, NextFire;
  }

  // What the settings say about what is stored.
  lemma StoredAsPromised(cfg: SystemConfig, ram: BurstPlan.Config, signal: seq<int16>, fires: seq<bool>,
      maxTriggers: int)
    requires |fires| == |signal| && ram.baseAddr == cfg.ramBase && ram.maxBurstLen == 256
    ensures var windows := RunWindows(signal, fires, cfg.scopePre, cfg.scopePost, maxTriggers);
      && (BurstPlan.Aligned(cfg.ramBase) ==> StoreAll(ram, windows).data == Written(windows))
      && (cfg.scopePre + PostCount(cfg.scopePost) <= FIFO_DEPTH ==> Written(windows) == AllSamples(windows))
  {
    hide RunWindows, StoreAll, Written, AllSamples, BurstPlan.Aligned;
    var windows := RunWindows(signal, fires, cfg.scopePre, cfg.scopePost, maxTriggers);
    if BurstPlan.Aligned(cfg.ramBase) {
      AlignedStores(ram, windows);
    }
    if cfg.scopePre + PostCount(cfg.scopePost) <= FIFO_DEPTH {
      SmallSettingKeepsAll(signal, fires, cfg.scopePre, cfg.scopePost, maxTriggers);
    }
  }

  lemma NothingStored(cfg: SystemConfig, s1: seq<int>, s2: seq<int>)
    requires |s1| <= |s2|
    ensures BurstPlan.Flatten([]) == [] && EventLog(cfg, s1, s2, 0) == []
    ensures forall c: BurstPlan.Config :: StoreAll(c, []) == Stored(c.baseAddr, [], [])
  {
  }

  lemma LogStep(cfg: SystemConfig, s1: seq<int>, s2: seq<int>, i: nat, trig1: bool, trig2: bool)
    requires i < |s1| <= |s2|
    requires trig1 == T.FiresAt(cfg.trigger1, s1, i) && trig2 == T.FiresAt(cfg.trigger2, s2, i)
    ensures EventLog(cfg, s1, s2, i + 1) == EventLog(cfg, s1, s2, i)
      + (if trig1 then [T.TriggerEvent(i, s1[i], Previous(s1, i), cfg.trigger1.mode)] else [])
      + (if trig2 then [T.TriggerEvent(i, s2[i], Previous(s2, i), cfg.trigger2.mode)] else [])
  {
  }

  // --- A run that loses samples ----------------------------------------------------------------

  // Zeros with one step up and down again.
  function Step(n: nat, at: nat): seq<int16> { seq(n, i => if i == at then 1000 else 0) }

  lemma StepFires(cfg: SystemConfig, n: nat, at: nat)
    requires cfg.trigger1 == T.TriggerConfig(true, T.RISING, 500) && !cfg.trigger2.enable && cfg.orMode
    requires 1 <= at
    ensures var fires := Fires(cfg, Step(n, at), seq(n, _ => 0));
      |fires| == n && forall i :: 0 <= i < n ==> (fires[i] <==> i == at)
  {
    var s := Step(n, at);
    forall i | 0 <= i < n
      ensures T.FiresAt(cfg.trigger1, s, i) <==> i == at
    {
      StepFiresOnce(cfg.trigger1, s, at, i);
    }
    hide Step;
  }

  lemma StepFiresOnce(t: T.TriggerConfig, s: seq<int>, at: nat, i: nat)
    requires t == T.TriggerConfig(true, T.RISING, 500) && i < |s| && 1 <= at
    requires forall j :: 0 <= j < |s| ==> s[j] == if j == at then 1000 else 0
    ensures T.FiresAt(t, s, i) <==> i == at
  {
    T.OneSidedFiresOnEveryEdge(t, s, i);
    if i > 0 {
      T.PreviousSample(s, i);
    }
  }

  // With 100 samples before and 500 after the trigger, 88 of the 600 captured are lost.
  method LongWindowLosesSamples() returns (result: Result)
    ensures |result.windows| == 1 && |AllSamples(result.windows)| == 600
    ensures |BurstPlan.Flatten(result.transactions)| == 512 && result.bytesWritten == 2048
  {
    var cfg := SystemConfig(T.TriggerConfig(true, T.RISING, 500), T.TriggerConfig(false, T.RISING, 0), true,
      100, 500, 4096, 0x1000_0000, 0x0010_0000);
    hide Fires, Step, AcquisitionSystem.Fresh, Written, AllSamples, BurstPlan.Flatten, StoreAll, RunWindows, EventLog;
    var system := AcquisitionSystem.Create(cfg);
    var signal := Step(601, 100);
    StepFires(cfg, 601, 100);
    StepLength(601, 100);
    OneFullWindow(signal, Fires(cfg, signal, seq(601, _ => 0)), 100, 500);
    result := system.RunAcquisition(signal, None, 1);
    OneWindow(result.windows);
  }

  lemma StepLength(n: nat, at: nat)
    ensures |Step(n, at)| == n
  {
  }

  lemma OneWindow(windows: seq<CapturedWindow>)
    requires |windows| == 1
    ensures AllSamples(windows) == windows[0].samples && Written(windows) == Kept(windows[0])
  {
    assert windows[..0] == [];
    assert [] + windows[0].samples == windows[0].samples && [] + Kept(windows[0]) == Kept(windows[0]);
  }
}

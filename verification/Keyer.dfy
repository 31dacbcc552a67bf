/** Element timing of the CW keyer, in ticks of one millisecond. */
module KeyerTiming {
  import opened Arith

  // Settings as they arrive in control frames; a speed of zero is not usable.
  datatype Settings = Settings(
    enabled: bool, reversed: bool, mode: nat, speed: nat, weight: nat, spacing: bool, delay: nat, hang: nat,
      sidetone: bool)
  {
    predicate Valid() {
      1 <= speed <= 63 && mode <= 3 && weight <= 127 && delay <= 255
    }

    // The dot unit, the nominal dash and the extra space between letters.
    function Unit(): (u: nat)
      requires Valid()
      ensures u >= 1
    {
      QuotientAtLeastOne(1200, speed);
      Quotient(1200, speed)
    }

    function Dash(): nat requires Valid() { Quotient(3600 * weight, 50 * speed) }

    function LetterSpace(): nat requires Valid() { Quotient(2400, speed) }

    // The RF line trails the key by this much, and a delay is cut to it.
    function Trail(): nat requires Valid() { if delay < Unit() then delay else Unit() }

    function Rest(n: nat): nat { if n < delay then 0 else n - delay }

    // How long RF is on for an element: 1 is a dot, 0 a dash.
    function OnTime(code: nat): nat
      requires Valid()
    {
      Rest(if code == 0 then Dash() else Unit()) + Trail()
    }
  }

  lemma QuotientAtLeastOne(a: nat, b: nat)
    requires 0 < b <= a
    ensures Quotient(a, b) >= 1
  {
    DivBounds(a, b);
  }

  // Main result: a dot keys RF for exactly one unit, whatever the delay ...
  lemma DotIsOneUnit(s: Settings)
    requires s.Valid()
    ensures s.OnTime(1) == s.Unit()
  {
  }

  // ... and so is the pause between elements.
  lemma PauseIsOneUnit(s: Settings)
    requires s.Valid()
    ensures s.Rest(s.Unit()) + s.Trail() == s.Unit()
  {
  }

  // The extra space between letters is two units, or one tick more.
  lemma LetterSpaceIsTwoUnits(s: Settings)
    requires s.Valid()
    ensures 2 * s.Unit() <= s.LetterSpace() <= 2 * s.Unit() + 1
  {
    var q, d := Quotient(1200, s.speed), Quotient(2400, s.speed);
    DivBounds(1200, s.speed);
    DivBounds(2400, s.speed);
    assert 2 * (q * s.speed) == (2 * q) * s.speed && (2 * q + 2) * s.speed == (2 * q) * s.speed + 2 * s.speed;
    QuotientOrder(2 * q, d, s.speed);
    QuotientOrder(d, 2 * q + 1, s.speed);
  }

  // A dot unit is 1200 / speed ticks, the letter space 2400 / speed, and a dash 3600 * weight /
  // (50 * speed), all without their fractions.
  lemma WholeTicks(s: Settings)
    requires s.Valid()
    ensures s.Unit() * s.speed <= 1200 < s.Unit() * s.speed + s.speed
    ensures s.LetterSpace() * s.speed <= 2400 < s.LetterSpace() * s.speed + s.speed
    ensures s.Dash() * (50 * s.speed) <= 3600 * s.weight < s.Dash() * (50 * s.speed) + 50 * s.speed
  {
    DivBounds(1200, s.speed);
    DivBounds(2400, s.speed);
    DivBounds(3600 * s.weight, 50 * s.speed);
  }

  // So a dash of weight 50 is three units, up to two ticks more.
  lemma UsualDash(s: Settings)
    requires s.Valid() && s.weight == 50
    ensures 3 * s.Unit() <= s.Dash() <= 3 * s.Unit() + 2
  {
    WholeTicks(s);
    hide Settings.Unit, Settings.Dash, Settings.LetterSpace;
    ThreeUnits(s.Unit(), s.Dash(), s.speed);
  }

  lemma ThreeUnits(q: nat, d: nat, v: nat)
    requires v > 0 && q * v <= 1200 < q * v + v && d * (50 * v) <= 180000 < d * (50 * v) + 50 * v
    ensures 3 * q <= d <= 3 * q + 2
  {
    var c := 50 * v;
    assert (3 * q) * c == 150 * (q * v) && (3 * q + 2) * c == 150 * (q * v) + 2 * c;
    QuotientOrder(3 * q, d, c);
    QuotientOrder(d, 3 * q + 2, c);
  }

  // A dash is true to its weight exactly when the delay exceeds neither it nor the
  // unit, or dash and unit are equal.
  lemma DashIsExact(s: Settings)
    requires s.Valid()
    ensures s.OnTime(0) == s.Dash() <==>
      (s.delay <= s.Unit() && s.delay <= s.Dash()) || s.Dash() == s.Unit()
  {
  }

  // At 25 words a minute a delay of 255 leaves 48 ticks of a dash of 144.
  lemma LongDelayCutsDash()
    ensures var s := Settings(true, false, 1, 25, 50, false, 255, 0, false);
      s.Valid() && s.Dash() == 144 && s.OnTime(0) == 48
  {
  }

  function Level(n: nat, on: bool): seq<bool> { seq(n, _ => on) }

  function Off(n: nat): seq<bool> { Level(n, false) }

  function On(n: nat): seq<bool> { Level(n, true) }

  // One stretch of an iambic burst: an element, or the space after a letter.
  datatype Item = Element(code: nat) | Space

  function ItemTrace(s: Settings, item: Item): seq<bool>
    requires s.Valid()
  {
    match item
    case Element(code) => Off(s.Trail()) + On(s.OnTime(code)) + Off(s.Rest(s.Unit()))
    case Space => Off(s.LetterSpace())
  }

  // The RF line, tick by tick, over a burst.
  function Trace(s: Settings, items: seq<Item>): seq<bool>
    requires s.Valid()
  {
    if items == [] then [] else Trace(s, items[..|items|-1]) + ItemTrace(s, items[|items|-1])
  }

  lemma TraceSnoc(s: Settings, items: seq<Item>, item: Item)
    requires s.Valid()
    ensures Trace(s, items + [item]) == Trace(s, items) + ItemTrace(s, item)
  {
    assert (items + [item])[..|items|] == items;
  }

  // Elements one unit apart, and a letter space more where there is a space.
  function Keyed(s: Settings, items: seq<Item>): seq<bool>
    requires s.Valid()
  {
    if items == [] then [] else
    var n := |items| - 1;
    match items[n]
    case Space => Keyed(s, items[..n]) + Off(s.LetterSpace())
    case Element(code) =>
      if n == 0 then On(s.OnTime(code)) else Keyed(s, items[..n]) + Off(s.Unit()) + On(s.OnTime(code))
  }

  lemma OffJoin(a: nat, b: nat)
    ensures Off(a) + Off(b) == Off(a + b)
  {
  }

  // Main result: in a run of elements and spaces the RF line is on for each element's time
  // and off for exactly one unit in between, plus the letter space where there is one, for
  // any delay.
  lemma {:induction false} BackToBack(s: Settings, items: seq<Item>)
    requires s.Valid() && items != [] && items[0].Element?
    ensures Trace(s, items) == Off(s.Trail()) + Keyed(s, items) + Off(s.Rest(s.Unit()))
    decreases |items|
  {
    hide Settings.Trail, Settings.Rest, Settings.Unit, Settings.OnTime, Settings.Dash, Settings.Valid,
      Settings.LetterSpace;
    hide Level, Trace, Keyed;
    var n := |items| - 1;
    var front, last := items[..n], items[n];
    var a, c := Off(s.Trail()), Off(s.Rest(s.Unit()));
    assert items == front + [last];
    TraceSnoc(s, front, last);
    KeyedStep(s, items);
    if n == 0 {
      NoTrace(s);
      assert [] + (a + On(s.OnTime(last.code)) + c) == a + On(s.OnTime(last.code)) + c;
    } else {
      BackToBack(s, front);
      match last {
        case Element(code) =>
          PauseIsOneUnit(s);
          OffJoin(s.Rest(s.Unit()), s.Trail());
          Regroup(a, Keyed(s, front), c, On(s.OnTime(code)));
        case Space =>
          OffJoin(s.Rest(s.Unit()), s.LetterSpace());
          OffJoin(s.LetterSpace(), s.Rest(s.Unit()));
          SwapTail(a, Keyed(s, front), c, Off(s.LetterSpace()));
      }
    }
  }

  lemma NoTrace(s: Settings)
    requires s.Valid()
    ensures Trace(s, []) == []
  {
  }

  lemma KeyedStep(s: Settings, items: seq<Item>)
    requires s.Valid() && items != []
    ensures var n := |items| - 1;
      Keyed(s, items) == match items[n]
        case Space => Keyed(s, items[..n]) + Off(s.LetterSpace())
        case Element(code) =>
          if n == 0 then On(s.OnTime(code)) else Keyed(s, items[..n]) + Off(s.Unit()) + On(s.OnTime(code))
  {
    hide Settings.Trail, Settings.Rest, Settings.Unit, Settings.OnTime, Settings.Dash, Settings.LetterSpace, Level;
  }

  lemma Regroup(a: seq<bool>, b: seq<bool>, c: seq<bool>, e: seq<bool>)
    ensures (a + b + c) + (a + e + c) == a + (b + (c + a) + e) + c
  {
  }

  lemma SwapTail(a: seq<bool>, b: seq<bool>, c: seq<bool>, d: seq<bool>)
    requires c + d == d + c
    ensures (a + b + c) + d == a + (b + d) + c
  {
    assert (a + b + c) + d == a + b + (c + d);
    assert a + (b + d) + c == a + b + (d + c);
  }
}

/** What the paddle history alone decides: the memory after an element, the elements of a
    burst, and the RF line of whole passes. */
module KeyerPaddles {
  import opened KeyerTiming
  import opened Samples

  // The two paddle bits: bit 1 asks for a dot, bit 0 for a dash.
  datatype Paddles = Paddles(bit1: bool, bit0: bool)
  {
    predicate Any() { bit1 || bit0 }

    predicate Has(state: nat) { if state == 0 then bit0 else bit1 }

    function Or(p: Paddles): Paddles { Paddles(bit1 || p.bit1, bit0 || p.bit0) }

    function Without(state: nat): Paddles { if state == 0 then this.(bit0 := false) else this.(bit1 := false) }

    function Swapped(): Paddles { Paddles(bit0, bit1) }
  }

  const NONE := Paddles(false, false)

  // What the thread reads at tick t; released after the end of the history.
  function InputAt(s: Settings, paddle: seq<Paddles>, t: nat): (x: Paddles)
    ensures t >= |paddle| ==> x == NONE
  {
    if !s.enabled || t >= |paddle| then NONE
    else if s.reversed then paddle[t].Swapped()
    else paddle[t]
  }

  // The last sample, and what is remembered.
  datatype Memory = Memory(last: Paddles, kept: Paddles)

  function Sample(m: Memory, x: Paddles, forget: bool): Memory
  {
    Memory(x, if forget && !x.Any() then NONE else m.kept.Or(x))
  }

  // After the samples of ticks t + 1 .. t + n.
  function Hold(s: Settings, paddle: seq<Paddles>, m: Memory, t: nat, n: nat, forget: bool): Memory
  {
    if n == 0 then m else Sample(Hold(s, paddle, m, t, n - 1, forget), InputAt(s, paddle, t + n), forget)
  }

  // The contact that asks for element `state` is closed at tick i.
  predicate Pressed(s: Settings, paddle: seq<Paddles>, i: nat, state: nat) { InputAt(s, paddle, i).Has(state) }

  // Some contact is closed in every tick from a to b.
  predicate NeverReleased(s: Settings, paddle: seq<Paddles>, a: nat, b: nat)
  {
    forall j: nat :: a <= j <= b ==> InputAt(s, paddle, j).Any()
  }

  // A press that is still remembered at tick `end`: with forgetting, only one since the last
  // tick with both contacts open.
  predicate StillRemembered(s: Settings, paddle: seq<Paddles>, i: nat, end: nat, state: nat, forget: bool)
  {
    Pressed(s, paddle, i, state) && (forget ==> NeverReleased(s, paddle, i, end))
  }

  predicate SomePress(s: Settings, paddle: seq<Paddles>, t: nat, end: nat, state: nat, forget: bool)
  {
    exists i: nat :: t < i <= end && StillRemembered(s, paddle, i, end, state, forget)
  }

  lemma SomePressStep(s: Settings, paddle: seq<Paddles>, t: nat, end: nat, state: nat, forget: bool)
    requires t < end
    ensures SomePress(s, paddle, t, end, state, forget) <==> (
      || Pressed(s, paddle, end, state)
      || (SomePress(s, paddle, t, end - 1, state, forget) && (forget ==> InputAt(s, paddle, end).Any())))
  {
    hide InputAt, NeverReleased;
    var last := end - 1;
    forall i: nat | t < i <= last
      ensures StillRemembered(s, paddle, i, end, state, forget)
        == (StillRemembered(s, paddle, i, last, state, forget) && (forget ==> InputAt(s, paddle, end).Any()))
    {
      ReleasedStep(s, paddle, i, end);
    }
    if Pressed(s, paddle, end, state) {
      ReleasedStep(s, paddle, end, end);
      ReleasedNowhere(s, paddle, end, last);
      assert StillRemembered(s, paddle, end, end, state, forget);
    }
    if SomePress(s, paddle, t, last, state, forget) && (forget ==> InputAt(s, paddle, end).Any()) {
      var i: nat :| t < i <= last && StillRemembered(s, paddle, i, last, state, forget);
      assert StillRemembered(s, paddle, i, end, state, forget);
    }
  }

  lemma ReleasedNowhere(s: Settings, paddle: seq<Paddles>, a: nat, b: nat)
    requires b < a
    ensures NeverReleased(s, paddle, a, b)
  {
  }

  // Main result: what is remembered after a hold is exactly what was pressed in some tick of
  // it, or remembered before, and not forgotten since.
  lemma {:induction false} HoldRemembers(s: Settings, paddle: seq<Paddles>, m: Memory, t: nat, n: nat, forget: bool,
      state: nat)
    requires state <= 1
    ensures Hold(s, paddle, m, t, n, forget).last == if n == 0 then m.last else InputAt(s, paddle, t + n)
    ensures Hold(s, paddle, m, t, n, forget).kept.Has(state) <==> (
      || (m.kept.Has(state) && (forget ==> NeverReleased(s, paddle, t + 1, t + n)))
      || SomePress(s, paddle, t, t + n, state, forget))
    decreases n
  {
    hide InputAt;
    if n == 0 {
    } else {
      HoldRemembers(s, paddle, m, t, n - 1, forget, state);
      SomePressStep(s, paddle, t, t + n, state, forget);
      ReleasedStep(s, paddle, t + 1, t + n);
    }
  }

  lemma ReleasedStep(s: Settings, paddle: seq<Paddles>, a: nat, b: nat)
    requires a <= b && b > 0
    ensures NeverReleased(s, paddle, a, b) == (NeverReleased(s, paddle, a, b - 1) && InputAt(s, paddle, b).Any())
  {
    hide InputAt;
  }

  // --- Elements ---------------------------------------------------------------------------

  function Signal(s: Settings, code: nat): nat
    requires s.Valid()
  {
    s.Rest(if code == 0 then s.Dash() else s.Unit())
  }

  // Trail, signal, trail and pause of an element. In mode 1 what was pressed in the first two
  // is forgotten on release; the element's own contact counts only if it is closed at the end.
  function AfterElement(s: Settings, paddle: seq<Paddles>, m: Memory, t: nat, code: nat): Memory
    requires s.Valid()
  {
    var trail, signal, forget := s.Trail(), Signal(s, code), s.mode == 1;
    var on := Hold(s, paddle, Memory(m.last, NONE), t, trail, forget);
    var keyed := Hold(s, paddle, on, t + trail, signal, forget);
    var off := Hold(s, paddle, keyed, t + trail + signal, trail, false);
    var end := Hold(s, paddle, off, t + trail + signal + trail, s.Rest(s.Unit()), false);
    Memory(end.last, end.kept.Without(code).Or(end.last))
  }

  function AfterItem(s: Settings, paddle: seq<Paddles>, m: Memory, t: nat, item: Item): Memory
    requires s.Valid()
  {
    match item
    case Element(code) => AfterElement(s, paddle, m, t, code)
    case Space => Hold(s, paddle, m, t, s.LetterSpace(), false)
  }

  function Ticks(s: Settings, item: Item): nat
    requires s.Valid()
  {
    match item
    case Element(code) => s.Trail() + Signal(s, code) + s.Trail() + s.Rest(s.Unit())
    case Space => s.LetterSpace()
  }

  lemma TicksPositive(s: Settings, item: Item)
    requires s.Valid()
    ensures Ticks(s, item) >= 1
  {
    match item {
      case Element(code) => PauseIsOneUnit(s);
      case Space => QuotientAtLeastOne(2400, s.speed);
    }
  }

  lemma {:induction false} HoldJoin(s: Settings, paddle: seq<Paddles>, m: Memory, t: nat, a: nat, b: nat, forget: bool)
    ensures Hold(s, paddle, Hold(s, paddle, m, t, a, forget), t + a, b, forget) == Hold(s, paddle, m, t, a + b, forget)
    decreases b
  {
    hide InputAt;
    if b == 0 {
    } else {
      HoldJoin(s, paddle, m, t, a, b - 1, forget);
    }
  }

  // Main result: after an element its own contact is remembered exactly if it is closed at the
  // end; the other one exactly if it was closed in some tick, or, in mode 1, in some tick since
  // the last release while the element was keyed, or in some tick after that.
  lemma ElementRemembers(s: Settings, paddle: seq<Paddles>, m: Memory, t: nat, code: nat, state: nat)
    requires s.Valid() && code <= 1 && state <= 1
    ensures var after, end := AfterElement(s, paddle, m, t, code), t + Ticks(s, Element(code));
      && after.last == InputAt(s, paddle, end)
      && (after.kept.Has(state) <==>
        if state == code then Pressed(s, paddle, end, state)
        else (
          || SomePress(s, paddle, t, t + s.Trail() + Signal(s, code), state, s.mode == 1)
          || SomePress(s, paddle, t + s.Trail() + Signal(s, code), end, state, false)))
  {
    TicksPositive(s, Element(code));
    PauseIsOneUnit(s);
    hide InputAt, Hold, SomePress, Settings.Dash, Signal, Settings.Trail, Settings.Rest, Settings.Unit;
    var trail, signal, pause, forget := s.Trail(), Signal(s, code), s.Rest(s.Unit()), s.mode == 1;
    var keying, mid := trail + signal, t + trail + signal;
    HoldJoin(s, paddle, Memory(m.last, NONE), t, trail, signal, forget);
    var keyed := Hold(s, paddle, Memory(m.last, NONE), t, keying, forget);
    HoldJoin(s, paddle, keyed, mid, trail, pause, false);
    HoldRemembers(s, paddle, Memory(m.last, NONE), t, keying, forget, state);
    HoldRemembers(s, paddle, keyed, mid, trail + pause, false, state);
  }

  // --- Bursts -----------------------------------------------------------------------------

  // The tick at which the items of a burst that began at t0 are over, and the memory then.
  function Tick(s: Settings, t0: nat, items: seq<Item>): nat
    requires s.Valid()
  {
    if items == [] then t0 else Tick(s, t0, items[..|items|-1]) + Ticks(s, items[|items|-1])
  }

  function MemoryAfter(s: Settings, paddle: seq<Paddles>, t0: nat, items: seq<Item>): Memory
    requires s.Valid()
  {
    if items == [] then Memory(InputAt(s, paddle, t0), InputAt(s, paddle, t0)) else
    var n := |items| - 1;
    AfterItem(s, paddle, MemoryAfter(s, paddle, t0, items[..n]), Tick(s, t0, items[..n]), items[n])
  }

  function Latest(items: seq<Item>): Item
  {
    if items == [] then Space else items[|items| - 1]
  }

  // What follows: the other element if its paddle is remembered, else the same again, and a
  // dot before a dash after a space; a letter space if nothing is remembered and spacing is
  // on, once; else the burst is over.
  function NextItem(s: Settings, latest: Item, m: Paddles): Option<Item>
  {
    if m.Any() then
      match latest
      case Space => Some(Element(if m.Has(1) then 1 else 0))
      case Element(code) =>
        var other := if code == 0 then 1 else 0;
        Some(Element(if m.Has(other) then other else 1 - other))
    else if s.spacing && latest.Element? then Some(Space)
    else None
  }

  function After(s: Settings, paddle: seq<Paddles>, t0: nat, items: seq<Item>): Option<Item>
    requires s.Valid()
  {
    NextItem(s, Latest(items), MemoryAfter(s, paddle, t0, items).kept)
  }

  function Left(paddle: seq<Paddles>, t: nat): nat { if t < |paddle| then |paddle| - t else 0 }

  function Pending(s: Settings, paddle: seq<Paddles>, t0: nat, items: seq<Item>): nat
    requires s.Valid()
  {
    if MemoryAfter(s, paddle, t0, items).kept.Any() then 2 else if Latest(items).Element? then 1 else 0
  }

  // The whole burst that begins at tick t0 with the items so far. It ends: the history does,
  // and then nothing is remembered after one more element.
  function Burst(s: Settings, paddle: seq<Paddles>, t0: nat, items: seq<Item>): seq<Item>
    requires s.Valid()
    decreases Left(paddle, Tick(s, t0, items)), Pending(s, paddle, t0, items)
  {
    match After(s, paddle, t0, items)
    case None => items
    case Some(item) =>
      BurstProgress(s, paddle, t0, items, item);
      Burst(s, paddle, t0, items + [item])
  }

  lemma ItemSnoc(s: Settings, paddle: seq<Paddles>, t0: nat, items: seq<Item>, item: Item)
    requires s.Valid()
    ensures Tick(s, t0, items + [item]) == Tick(s, t0, items) + Ticks(s, item)
    ensures MemoryAfter(s, paddle, t0, items + [item])
         == AfterItem(s, paddle, MemoryAfter(s, paddle, t0, items), Tick(s, t0, items), item)
    ensures Latest(items + [item]) == item
  {
    hide AfterItem, Ticks;
    assert (items + [item])[..|items|] == items;
  }

  lemma {:induction false} HoldReleased(s: Settings, paddle: seq<Paddles>, m: Memory, t: nat, n: nat, forget: bool)
    requires t >= |paddle|
    ensures !m.kept.Any() ==> !Hold(s, paddle, m, t, n, forget).kept.Any()
    ensures Hold(s, paddle, m, t, n, forget).last == if n == 0 then m.last else NONE
    decreases n
  {
    if n == 0 {
    } else {
      HoldReleased(s, paddle, m, t, n - 1, forget);
    }
  }

  lemma ElementReleased(s: Settings, paddle: seq<Paddles>, m: Memory, t: nat, code: nat)
    requires s.Valid() && t >= |paddle|
    ensures AfterElement(s, paddle, m, t, code) == Memory(NONE, NONE)
  {
    PauseIsOneUnit(s);
    hide Hold, Settings.Dash;
    var trail, signal, forget := s.Trail(), Signal(s, code), s.mode == 1;
    HoldReleased(s, paddle, Memory(m.last, NONE), t, trail, forget);
    var on := Hold(s, paddle, Memory(m.last, NONE), t, trail, forget);
    HoldReleased(s, paddle, on, t + trail, signal, forget);
    var keyed := Hold(s, paddle, on, t + trail, signal, forget);
    HoldReleased(s, paddle, keyed, t + trail + signal, trail, false);
    var off := Hold(s, paddle, keyed, t + trail + signal, trail, false);
    HoldReleased(s, paddle, off, t + trail + signal + trail, s.Rest(s.Unit()), false);
  }

  lemma BurstProgress(s: Settings, paddle: seq<Paddles>, t0: nat, items: seq<Item>, item: Item)
    requires s.Valid() && After(s, paddle, t0, items) == Some(item)
    ensures Left(paddle, Tick(s, t0, items + [item])) < Left(paddle, Tick(s, t0, items))
      || (Left(paddle, Tick(s, t0, items + [item])) == 0 == Left(paddle, Tick(s, t0, items))
        && Pending(s, paddle, t0, items + [item]) < Pending(s, paddle, t0, items))
  {
    ItemSnoc(s, paddle, t0, items, item);
    TicksPositive(s, item);
    hide MemoryAfter, Tick, Ticks, Hold, AfterElement;
    var t, m := Tick(s, t0, items), MemoryAfter(s, paddle, t0, items);
    if t >= |paddle| {
      match item {
        case Element(code) => ElementReleased(s, paddle, m, t, code);
        case Space => HoldReleased(s, paddle, m, t, s.LetterSpace(), false);
      }
    }
  }

  // Every item is what the memory before it asks for.
  ghost predicate Follows(s: Settings, paddle: seq<Paddles>, t0: nat, items: seq<Item>)
    requires s.Valid()
  {
    forall i :: 0 <= i < |items| ==> After(s, paddle, t0, items[..i]) == Some(items[i])
  }

  lemma FollowsSnoc(s: Settings, paddle: seq<Paddles>, t0: nat, items: seq<Item>, item: Item)
    requires s.Valid() && Follows(s, paddle, t0, items) && After(s, paddle, t0, items) == Some(item)
    ensures Follows(s, paddle, t0, items + [item])
  {
    hide After;
    forall i | 0 <= i < |items| + 1
      ensures After(s, paddle, t0, (items + [item])[..i]) == Some((items + [item])[i])
    {
      if i < |items| {
        assert (items + [item])[..i] == items[..i];
      } else {
        assert (items + [item])[..i] == items;
      }
    }
  }

  // Main result: a burst is made of the items that the paddles ask for, to the end ...
  lemma {:induction false} BurstFollows(s: Settings, paddle: seq<Paddles>, t0: nat, items: seq<Item>)
    requires s.Valid() && Follows(s, paddle, t0, items)
    ensures items <= Burst(s, paddle, t0, items)
    ensures Follows(s, paddle, t0, Burst(s, paddle, t0, items))
    ensures After(s, paddle, t0, Burst(s, paddle, t0, items)) == None
    decreases Left(paddle, Tick(s, t0, items)), Pending(s, paddle, t0, items)
  {
    hide After, Follows, Pending, Tick;
    match After(s, paddle, t0, items) {
      case None =>
      case Some(item) =>
        BurstProgress(s, paddle, t0, items, item);
        FollowsSnoc(s, paddle, t0, items, item);
        BurstFollows(s, paddle, t0, items + [item]);
    }
  }

  // ... and no other list of items is.
  lemma {:induction false} BurstIsUnique(s: Settings, paddle: seq<Paddles>, t0: nat, a: seq<Item>, b: seq<Item>, n: nat)
    requires s.Valid() && Follows(s, paddle, t0, a) && Follows(s, paddle, t0, b)
    requires After(s, paddle, t0, a) == None && After(s, paddle, t0, b) == None
    requires n <= |a| && n <= |b| && a[..n] == b[..n]
    ensures a == b
    decreases |a| - n
  {
    hide After;
    assert a[..|a|] == a && b[..|b|] == b;
    if n == |a| || n == |b| {
    } else {
      assert a[..n + 1] == a[..n] + [a[n]] && b[..n + 1] == b[..n] + [b[n]];
      BurstIsUnique(s, paddle, t0, a, b, n + 1);
    }
  }

  // A burst begins with an element; a space needs spacing and follows an element; with
  // spacing, and only then, the burst ends with one.
  lemma BurstShape(s: Settings, paddle: seq<Paddles>, t0: nat)
    requires s.Valid() && InputAt(s, paddle, t0).Any()
    ensures var items := Burst(s, paddle, t0, []);
      && items != [] && items[0].Element?
      && (forall i :: 0 <= i < |items| && items[i].Space? ==> s.spacing && i > 0 && items[i - 1].Element?)
      && (s.spacing <==> Latest(items).Space?)
      && !MemoryAfter(s, paddle, t0, items).kept.Any()
  {
    var items := Burst(s, paddle, t0, []);
    BurstFollows(s, paddle, t0, []);
    assert MemoryAfter(s, paddle, t0, []).kept == InputAt(s, paddle, t0);
    assert After(s, paddle, t0, []).Some?;
    hide Burst, MemoryAfter, InputAt, Follows;
    ItemsFollow(s, paddle, t0, items);
    assert items[..0] == [];
    forall i | 0 <= i < |items| && items[i].Space?
      ensures s.spacing && i > 0 && items[i - 1].Element?
    {
      assert items[i] == NextItem(s, Latest(items[..i]), MemoryAfter(s, paddle, t0, items[..i]).kept).value;
    }
    if Latest(items).Space? {
      assert items[|items| - 1].Space?;
    }
  }

  // The first element of a burst, and one after a space, is a dot exactly if the dot contact was
  // closed: at the start, or in some tick of the space.
  lemma DotFirst(s: Settings, paddle: seq<Paddles>, t0: nat)
    requires s.Valid() && InputAt(s, paddle, t0).Any()
    ensures var items := Burst(s, paddle, t0, []);
      items != [] && items[0] == Element(if Pressed(s, paddle, t0, 1) then 1 else 0)
  {
    InBurst(s, paddle, t0, 0);
    var items := Burst(s, paddle, t0, []);
    hide Burst, InputAt;
    assert items[..0] == [];
  }

  lemma DotAfterSpace(s: Settings, paddle: seq<Paddles>, t0: nat, k: nat)
    requires s.Valid()
    requires k + 1 < |Burst(s, paddle, t0, [])| && Burst(s, paddle, t0, [])[k].Space? && k > 0
    ensures var items := Burst(s, paddle, t0, []);
      var t := Tick(s, t0, items[..k]);
      items[k + 1] == Element(if SomePress(s, paddle, t, t + s.LetterSpace(), 1, false) then 1 else 0)
  {
    hide Burst, InputAt, SomePress, Tick, Hold, MemoryAfter, After, Settings.LetterSpace;
    var items := Burst(s, paddle, t0, []);
    var before := items[..k];
    InBurst(s, paddle, t0, k);
    InBurst(s, paddle, t0, k + 1);
    assert items[..k + 1] == before + [Space];
    AfterMore(s, paddle, t0, before, Space);
    NothingKept(s, paddle, t0, before);
    ItemSnoc(s, paddle, t0, before, Space);
    var m, t := MemoryAfter(s, paddle, t0, before), Tick(s, t0, before);
    HoldRemembers(s, paddle, m, t, s.LetterSpace(), false, 1);
  }

  lemma NothingKept(s: Settings, paddle: seq<Paddles>, t0: nat, items: seq<Item>)
    requires s.Valid() && After(s, paddle, t0, items) == Some(Space)
    ensures !MemoryAfter(s, paddle, t0, items).kept.Any()
  {
    hide MemoryAfter;
  }

  // The other contact was closed during the element that was begun at tick t, and not forgotten.
  predicate OtherPressed(s: Settings, paddle: seq<Paddles>, t: nat, code: nat)
    requires s.Valid() && code <= 1
  {
    var keyed, end := t + s.Trail() + Signal(s, code), t + Ticks(s, Element(code));
    || SomePress(s, paddle, t, keyed, 1 - code, s.mode == 1)
    || SomePress(s, paddle, keyed, end, 1 - code, false)
  }

  // Main result: after an element comes the other one exactly if its contact was closed meanwhile;
  // else the same again exactly if its own contact is still closed at the end; else a space, or
  // nothing.
  lemma ElementFollows(s: Settings, paddle: seq<Paddles>, t0: nat, k: nat)
    requires s.Valid() && InputAt(s, paddle, t0).Any()
    requires k < |Burst(s, paddle, t0, [])| && Burst(s, paddle, t0, [])[k].Element?
    ensures var items := Burst(s, paddle, t0, []);
      var code, t := items[k].code, Tick(s, t0, items[..k]);
      && code <= 1
      && (k + 1 < |items| && items[k + 1] == Element(1 - code) <==> OtherPressed(s, paddle, t, code))
      && (k + 1 < |items| && items[k + 1] == Element(code) <==>
        !OtherPressed(s, paddle, t, code) && Pressed(s, paddle, t + Ticks(s, items[k]), code))
  {
    hide Burst, InputAt, Tick, MemoryAfter, Ticks, OtherPressed, Pressed, NextItem;
    var items := Burst(s, paddle, t0, []);
    var before, code := items[..k], items[k].code;
    NextInBurst(s, paddle, t0, k);
    MemoryAfterOne(s, paddle, t0, before, code);
    NextAfterElement(s, code, MemoryAfter(s, paddle, t0, before + [Element(code)]).kept);
  }

  // What a burst has behind its item k, if anything, is what the memory then asks for.
  lemma NextInBurst(s: Settings, paddle: seq<Paddles>, t0: nat, k: nat)
    requires s.Valid() && k < |Burst(s, paddle, t0, [])| && Burst(s, paddle, t0, [])[k].Element?
    ensures var items := Burst(s, paddle, t0, []);
      && items[k].code <= 1
      && (if k + 1 < |items| then Some(items[k + 1]) else None)
        == NextItem(s, items[k], MemoryAfter(s, paddle, t0, items[..k] + [Element(items[k].code)]).kept)
  {
    hide Burst, MemoryAfter, NextItem, After;
    var items := Burst(s, paddle, t0, []);
    InBurst(s, paddle, t0, k);
    InBurst(s, paddle, t0, k + 1);
    var before, item := items[..k], items[k];
    ItemCode(s, paddle, t0, before, item);
    assert items[..k + 1] == before + [item];
    AfterMore(s, paddle, t0, before, item);
  }

  lemma AfterMore(s: Settings, paddle: seq<Paddles>, t0: nat, items: seq<Item>, item: Item)
    requires s.Valid()
    ensures After(s, paddle, t0, items + [item]) == NextItem(s, item, MemoryAfter(s, paddle, t0, items + [item]).kept)
  {
    hide MemoryAfter, NextItem;
  }

  lemma InBurst(s: Settings, paddle: seq<Paddles>, t0: nat, i: nat)
    requires s.Valid() && i <= |Burst(s, paddle, t0, [])|
    ensures var items := Burst(s, paddle, t0, []);
      After(s, paddle, t0, items[..i]) == if i < |items| then Some(items[i]) else None
  {
    BurstFollows(s, paddle, t0, []);
    hide Burst, After;
    var items := Burst(s, paddle, t0, []);
    assert items[..|items|] == items;
  }

  lemma MemoryAfterOne(s: Settings, paddle: seq<Paddles>, t0: nat, items: seq<Item>, code: nat)
    requires s.Valid() && code <= 1
    ensures var m, t := MemoryAfter(s, paddle, t0, items + [Element(code)]), Tick(s, t0, items);
      && (m.kept.Has(1 - code) <==> OtherPressed(s, paddle, t, code))
      && (m.kept.Has(code) <==> Pressed(s, paddle, t + Ticks(s, Element(code)), code))
    ensures Latest(items + [Element(code)]) == Element(code)
  {
    ItemSnoc(s, paddle, t0, items, Element(code));
    hide Burst, InputAt, SomePress, Tick, Hold, AfterElement, MemoryAfter, Ticks, Signal, Settings.Trail;
    var m, t := MemoryAfter(s, paddle, t0, items), Tick(s, t0, items);
    ElementRemembers(s, paddle, m, t, code, code);
    ElementRemembers(s, paddle, m, t, code, 1 - code);
  }

  lemma NextAfterElement(s: Settings, code: nat, m: Paddles)
    requires code <= 1
    ensures NextItem(s, Element(code), m) == Some(Element(1 - code)) <==> m.Has(1 - code)
    ensures NextItem(s, Element(code), m) == Some(Element(code)) <==> !m.Has(1 - code) && m.Has(code)
  {
  }

  lemma ItemCode(s: Settings, paddle: seq<Paddles>, t0: nat, items: seq<Item>, item: Item)
    requires s.Valid() && After(s, paddle, t0, items) == Some(item) && item.Element?
    ensures item.code <= 1
  {
    hide MemoryAfter;
  }

  // Main result: a contact closed in one tick only sends its one element; which one, the
  // reversal decides.
  lemma TapSendsOne(s: Settings, paddle: seq<Paddles>, t0: nat, dot: bool)
    requires s.Valid() && s.enabled && t0 < |paddle|
    requires paddle[t0] == Paddles(dot != s.reversed, dot == s.reversed)
    requires forall i :: 0 <= i < |paddle| && i != t0 ==> paddle[i] == NONE
    ensures Burst(s, paddle, t0, []) ==
      [Element(if dot then 1 else 0)] + (if s.spacing then [Space] else [])
  {
    var first := Element(if dot then 1 else 0);
    assert MemoryAfter(s, paddle, t0, []).kept == InputAt(s, paddle, t0);
    assert After(s, paddle, t0, []) == Some(first);
    NothingLater(s, paddle, t0);
    TapForgotten(s, paddle, t0, first.code);
    hide After, InputAt;
    BurstOf(s, paddle, t0, [], first);
    assert [] + [first] == [first];
    if s.spacing {
      BurstOf(s, paddle, t0, [first], Space);
      assert [first] + [Space] == [first, Space];
    }
  }

  lemma NothingLater(s: Settings, paddle: seq<Paddles>, t0: nat)
    requires forall i :: 0 <= i < |paddle| && i != t0 ==> paddle[i] == NONE
    ensures forall i: nat :: i != t0 ==> InputAt(s, paddle, i) == NONE
  {
  }

  lemma BurstOf(s: Settings, paddle: seq<Paddles>, t0: nat, items: seq<Item>, item: Item)
    requires s.Valid()
    ensures After(s, paddle, t0, items) == Some(item) ==>
      Burst(s, paddle, t0, items) == Burst(s, paddle, t0, items + [item])
    ensures After(s, paddle, t0, items + [item]) == None ==>
      Burst(s, paddle, t0, items + [item]) == items + [item]
  {
    hide After, Tick, Pending;
  }

  // After the element nothing is remembered, nor after a space behind it.
  lemma TapForgotten(s: Settings, paddle: seq<Paddles>, t0: nat, code: nat)
    requires s.Valid() && code <= 1 && forall i: nat :: i > t0 ==> InputAt(s, paddle, i) == NONE
    ensures After(s, paddle, t0, [Element(code)]) == if s.spacing then Some(Space) else None
    ensures After(s, paddle, t0, [Element(code), Space]) == None
  {
    var element := Element(code);
    assert [] + [element] == [element] && [element] + [Space] == [element, Space];
    assert Tick(s, t0, []) == t0;
    hide InputAt, Tick, Ticks, Hold, MemoryAfter, Pressed, OtherPressed, After, Settings.LetterSpace;
    MemoryAfterOne(s, paddle, t0, [], code);
    NoPress(s, paddle, t0, code);
    AfterMore(s, paddle, t0, [], element);
    ItemSnoc(s, paddle, t0, [element], Space);
    AfterMore(s, paddle, t0, [element], Space);
    TickGrows(s, t0, [element]);
    NoneKept(s, paddle, MemoryAfter(s, paddle, t0, [element]), Tick(s, t0, [element]), s.LetterSpace());
  }

  lemma NoPress(s: Settings, paddle: seq<Paddles>, t0: nat, code: nat)
    requires s.Valid() && code <= 1 && forall i: nat :: i > t0 ==> InputAt(s, paddle, i) == NONE
    ensures !OtherPressed(s, paddle, t0, code) && !Pressed(s, paddle, t0 + Ticks(s, Element(code)), code)
  {
    TicksPositive(s, Element(code));
    hide InputAt, Ticks, Signal, Settings.Trail;
  }

  lemma {:induction false} NoneKept(s: Settings, paddle: seq<Paddles>, m: Memory, t: nat, n: nat)
    requires !m.kept.Any() && forall i: nat :: i > t ==> InputAt(s, paddle, i) == NONE
    ensures !Hold(s, paddle, m, t, n, false).kept.Any()
  {
    hide InputAt;
    if n == 0 {
    } else {
      NoneKept(s, paddle, m, t, n - 1);
    }
  }

  // Both contacts are closed in every tick from a to b.
  predicate Squeezed(s: Settings, paddle: seq<Paddles>, a: nat, b: nat)
  {
    forall i: nat :: a <= i <= b ==> Pressed(s, paddle, i, 0) && Pressed(s, paddle, i, 1)
  }

  lemma SqueezedPress(s: Settings, paddle: seq<Paddles>, a: nat, b: nat, i: nat, state: nat)
    requires state <= 1 && Squeezed(s, paddle, a, b) && a <= i <= b
    ensures StillRemembered(s, paddle, i, i, state, false) && Pressed(s, paddle, i, state)
  {
  }

  // Main result: while both contacts stay closed, dots and dashes alternate, a dot first, and
  // there is no end and no space.
  lemma {:induction false} SqueezeAlternates(s: Settings, paddle: seq<Paddles>, t0: nat, t: nat, k: nat)
    requires s.Valid() && t0 <= t && Squeezed(s, paddle, t0, t)
    requires k == 0 || (k <= |Burst(s, paddle, t0, [])| && Tick(s, t0, Burst(s, paddle, t0, [])[..k]) <= t)
    ensures k < |Burst(s, paddle, t0, [])|
    ensures Burst(s, paddle, t0, [])[k] == Element(if k % 2 == 0 then 1 else 0)
    decreases k
  {
    hide Burst, Tick, Ticks, InputAt;
    SqueezedPress(s, paddle, t0, t, t0, 1);
    assert InputAt(s, paddle, t0).Any();
    var items := Burst(s, paddle, t0, []);
    if k == 0 {
      DotFirst(s, paddle, t0);
    } else {
      var before := items[..k - 1];
      assert items[..k] == before + [items[k - 1]];
      ItemSnoc(s, paddle, t0, before, items[k - 1]);
      TickGrows(s, t0, before);
      SqueezeAlternates(s, paddle, t0, t, k - 1);
      hide OtherPressed, Squeezed, Pressed;
      ElementFollows(s, paddle, t0, k - 1);
      SqueezeAsks(s, paddle, t0, Tick(s, t0, before), t, items[k - 1].code);
    }
  }

  lemma {:induction false} TickGrows(s: Settings, t0: nat, items: seq<Item>)
    requires s.Valid()
    ensures t0 <= Tick(s, t0, items)
  {
    if items == [] {
    } else {
      TickGrows(s, t0, items[..|items| - 1]);
    }
  }

  lemma SqueezeAsks(s: Settings, paddle: seq<Paddles>, t0: nat, start: nat, t: nat, code: nat)
    requires s.Valid() && code <= 1 && t0 <= start && start + Ticks(s, Element(code)) <= t
    requires Squeezed(s, paddle, t0, t)
    ensures OtherPressed(s, paddle, start, code)
  {
    hide InputAt, Squeezed, StillRemembered;
    TicksAre(s, code);
    var keyed, end := start + s.Trail() + Signal(s, code), start + Ticks(s, Element(code));
    SqueezedPress(s, paddle, t0, t, end, 1 - code);
  }

  // The pause after an element has a tick.
  lemma TicksAre(s: Settings, code: nat)
    requires s.Valid()
    ensures Ticks(s, Element(code)) == s.Trail() + Signal(s, code) + s.Unit() && s.Unit() >= 1
  {
    PauseIsOneUnit(s);
  }

  lemma ItemsFollow(s: Settings, paddle: seq<Paddles>, t0: nat, items: seq<Item>)
    requires s.Valid() && Follows(s, paddle, t0, items)
    ensures forall i :: 0 <= i < |items| ==> After(s, paddle, t0, items[..i]) == Some(items[i])
  {
    hide After;
  }

  // --- The straight key ---------------------------------------------------------------------

  // How many ticks from t on the key contact stays closed.
  function KeyHeld(s: Settings, paddle: seq<Paddles>, t: nat): (h: nat)
    ensures !InputAt(s, paddle, t + h).bit0
    ensures forall i: nat :: t <= i < t + h ==> InputAt(s, paddle, i).bit0
    decreases Left(paddle, t)
  {
    if InputAt(s, paddle, t).bit0 then 1 + KeyHeld(s, paddle, t + 1) else 0
  }

  lemma {:induction false} KeyHeldIs(s: Settings, paddle: seq<Paddles>, t: nat, h: nat)
    requires !InputAt(s, paddle, t + h).bit0
    requires forall i: nat :: t <= i < t + h ==> InputAt(s, paddle, i).bit0
    ensures KeyHeld(s, paddle, t) == h
  {
    var k := KeyHeld(s, paddle, t);
    hide InputAt, KeyHeld;
  }

  // Main result: a key closed for k ticks and not again before the trail is over keys RF for
  // max(k, trail) ticks.
  lemma StraightOnTime(s: Settings, paddle: seq<Paddles>, t: nat)
    requires s.Valid()
    requires KeyHeld(s, paddle, t) < s.Trail() ==> !InputAt(s, paddle, t + s.Trail()).bit0
    ensures KeyHeld(s, paddle, t + s.Trail()) + s.Trail() == Max(KeyHeld(s, paddle, t), s.Trail())
  {
    hide InputAt, Settings.Trail;
    var k, trail := KeyHeld(s, paddle, t), s.Trail();
    KeyHeldIs(s, paddle, t + trail, if k < trail then 0 else k - trail);
  }

  // --- Passes and runs ----------------------------------------------------------------------

  // The RF line of one pass of the thread that begins after t ticks.
  function PassRf(s: Settings, paddle: seq<Paddles>, t: nat): seq<bool>
    requires s.Valid()
  {
    var x := InputAt(s, paddle, t + 1);
    [false] + (
      if !x.Any() then []
      else if s.mode != 0 then Trace(s, Burst(s, paddle, t + 1, []))
      else if x.bit0 then Off(s.Trail()) + On(KeyHeld(s, paddle, t + 1 + s.Trail()) + s.Trail())
      else ItemTrace(s, Element(1)))
  }

  function RunRf(s: Settings, paddle: seq<Paddles>, passes: nat): seq<bool>
    requires s.Valid()
  {
    if passes == 0 then [] else
    var before := RunRf(s, paddle, passes - 1);
    before + PassRf(s, paddle, |before|)
  }

  // Main result: in the iambic modes a pass that finds a paddle keys the elements of its burst
  // one unit, or a unit and a letter space, apart.
  lemma IambicPass(s: Settings, paddle: seq<Paddles>, t: nat)
    requires s.Valid() && s.mode != 0 && InputAt(s, paddle, t + 1).Any()
    ensures PassRf(s, paddle, t)
      == [false] + (Off(s.Trail()) + Keyed(s, Burst(s, paddle, t + 1, [])) + Off(s.Rest(s.Unit())))
  {
    BurstShape(s, paddle, t + 1);
    BackToBack(s, Burst(s, paddle, t + 1, []));
  }

  // Main result: a straight pass keys for as long as the key is closed, from a trail later, or one
  // unit for the dot contact alone.
  lemma StraightPass(s: Settings, paddle: seq<Paddles>, t: nat)
    requires s.Valid() && s.mode == 0
    ensures var k := KeyHeld(s, paddle, t + 1);
      && (Pressed(s, paddle, t + 1, 0) && (k < s.Trail() ==> !Pressed(s, paddle, t + 1 + s.Trail(), 0)) ==>
        PassRf(s, paddle, t) == [false] + (Off(s.Trail()) + On(Max(k, s.Trail()))))
      && (Pressed(s, paddle, t + 1, 1) && !Pressed(s, paddle, t + 1, 0) ==>
        PassRf(s, paddle, t) == [false] + (Off(s.Trail()) + On(s.Unit()) + Off(s.Rest(s.Unit()))))
  {
    var k := KeyHeld(s, paddle, t + 1);
    DotIsOneUnit(s);
    if Pressed(s, paddle, t + 1, 0) && (k < s.Trail() ==> !Pressed(s, paddle, t + 1 + s.Trail(), 0)) {
      StraightOnTime(s, paddle, t + 1);
    }
    hide InputAt, KeyHeld, Level, Settings.Trail, Settings.Unit, Settings.Rest, Settings.OnTime;
  }

  // In any mode a pass that finds no contact closed is one tick.
  lemma IdlePass(s: Settings, paddle: seq<Paddles>, t: nat)
    requires s.Valid() && !InputAt(s, paddle, t + 1).Any()
    ensures PassRf(s, paddle, t) == [false]
  {
  }
}

/** The PTT line of a run: on ahead of RF for the trail, and after it for the hang time. */
module KeyerPtt {
  import opened Arith
  import opened KeyerTiming
  import opened KeyerPaddles
  import opened Samples

  // What a run is made of: waits without RF, and keyings, that is the trail and then RF.
  datatype Stretch = Wait(ticks: nat) | Key(ticks: nat)

  function Hang(s: Settings): (h: nat)
    ensures h >= 1
  {
    if s.hang > 0 then s.hang else 10
  }

  // For how many ticks PTT stays on after one stretch, if nothing is keyed; `left` before it.
  function LeftAfter(s: Settings, left: nat, last: Stretch): nat
  {
    match last
    case Key(_) => Hang(s)
    case Wait(n) => left - Min(left, n)
  }

  function HangLeft(s: Settings, run: seq<Stretch>): nat
  {
    if run == [] then 0 else LeftAfter(s, HangLeft(s, run[..|run| - 1]), run[|run| - 1])
  }

  function PttDuring(s: Settings, left: nat, last: Stretch): seq<bool>
    requires s.Valid()
  {
    match last
    case Key(n) => On(s.Trail() + n)
    case Wait(n) => On(Min(left, n)) + Off(n - Min(left, n))
  }

  function RfDuring(s: Settings, last: Stretch): seq<bool>
    requires s.Valid()
  {
    match last
    case Key(n) => Off(s.Trail()) + On(n)
    case Wait(n) => Off(n)
  }

  function PttLine(s: Settings, run: seq<Stretch>): seq<bool>
    requires s.Valid()
  {
    if run == [] then [] else
    var before := run[..|run| - 1];
    PttLine(s, before) + PttDuring(s, HangLeft(s, before), run[|run| - 1])
  }

  function RfLine(s: Settings, run: seq<Stretch>): seq<bool>
    requires s.Valid()
  {
    if run == [] then [] else RfLine(s, run[..|run| - 1]) + RfDuring(s, run[|run| - 1])
  }

  lemma LinesSnoc(s: Settings, run: seq<Stretch>, last: Stretch)
    requires s.Valid()
    ensures RfLine(s, run + [last]) == RfLine(s, run) + RfDuring(s, last)
    ensures PttLine(s, run + [last]) == PttLine(s, run) + PttDuring(s, HangLeft(s, run), last)
    ensures HangLeft(s, run + [last]) == LeftAfter(s, HangLeft(s, run), last)
  {
    hide PttDuring, RfDuring, LeftAfter, Settings.Valid;
    assert (run + [last])[..|run|] == run;
  }

  // --- PTT from RF ----------------------------------------------------------------------------

  // RF is on in some tick from `hang` ticks before i to `lead` ticks after it.
  predicate Near(rf: seq<bool>, i: nat, lead: nat, hang: nat)
  {
    exists j :: 0 <= j < |rf| && i - hang <= j <= i + lead && rf[j]
  }

  ghost predicate PttFollowsRf(s: Settings, run: seq<Stretch>)
    requires s.Valid()
  {
    var rf, ptt := RfLine(s, run), PttLine(s, run);
    |ptt| == |rf| && forall i: nat :: i < |ptt| ==> (ptt[i] <==> Near(rf, i, s.Trail(), Hang(s)))
  }

  // PTT stays on after a run exactly for the ticks that are near its RF.
  ghost predicate LeftIsNear(s: Settings, run: seq<Stretch>)
    requires s.Valid()
  {
    var rf := RfLine(s, run);
    forall i: nat :: i >= |rf| ==> (i - |rf| < HangLeft(s, run) <==> Near(rf, i, s.Trail(), Hang(s)))
  }

  predicate EveryKeySounds(run: seq<Stretch>) { forall k :: 0 <= k < |run| && run[k].Key? ==> run[k].ticks >= 1 }

  // PTT is on exactly near RF, and how long it stays on tells how long ago that was.
  lemma {:induction false} PttIsNearRf(s: Settings, run: seq<Stretch>)
    requires s.Valid() && EveryKeySounds(run)
    ensures PttFollowsRf(s, run) && LeftIsNear(s, run)
    decreases |run|
  {
    hide HangLeft, PttLine, RfLine, Settings.Trail, Settings.Valid, Hang, Near;
    if run == [] {
      NothingNear(s);
    } else {
      var before, last := run[..|run| - 1], run[|run| - 1];
      assert run == before + [last];
      PttIsNearRf(s, before);
      hide PttFollowsRf, LeftIsNear;
      match last {
        case Key(n) => KeyFollows(s, before, n);
        case Wait(n) => WaitFollows(s, before, n);
      }
    }
  }

  lemma NothingNear(s: Settings)
    requires s.Valid()
    ensures RfLine(s, []) == PttLine(s, []) == [] && HangLeft(s, []) == 0
    ensures forall i: nat, lead: nat, hang: nat :: !Near([], i, lead, hang)
  {
  }

  lemma NearKey(rf: seq<bool>, lead: nat, n: nat, hang: nat)
    requires n >= 1 && hang >= 1
    ensures var all := rf + (Off(lead) + On(n));
      && (forall i: nat :: i < |all| ==> (Near(all, i, lead, hang) <==> i >= |rf| || Near(rf, i, lead, hang)))
      && (forall i: nat :: i >= |all| ==> (Near(all, i, lead, hang) <==> i - |all| < hang))
  {
    var all := rf + (Off(lead) + On(n));
    forall i: nat | i < |all|
      ensures Near(all, i, lead, hang) <==> i >= |rf| || Near(rf, i, lead, hang)
    {
      if i >= |rf| {
        assert all[Max(i, |rf| + lead)];
      } else if Near(rf, i, lead, hang) {
        var j :| 0 <= j < |rf| && i - hang <= j <= i + lead && rf[j];
        assert all[j];
      }
    }
    assert all[|all| - 1];
  }

  lemma NearWait(rf: seq<bool>, n: nat, lead: nat, hang: nat)
    ensures forall i: nat :: Near(rf + Off(n), i, lead, hang) <==> Near(rf, i, lead, hang)
  {
    var all := rf + Off(n);
    forall i: nat
      ensures Near(all, i, lead, hang) <==> Near(rf, i, lead, hang)
    {
      if Near(rf, i, lead, hang) {
        var j :| 0 <= j < |rf| && i - hang <= j <= i + lead && rf[j];
        assert all[j];
      }
    }
  }

  lemma KeyFollows(s: Settings, run: seq<Stretch>, n: nat)
    requires s.Valid() && PttFollowsRf(s, run) && n >= 1
    ensures PttFollowsRf(s, run + [Key(n)]) && LeftIsNear(s, run + [Key(n)])
  {
    LinesSnoc(s, run, Key(n));
    NearKey(RfLine(s, run), s.Trail(), n, Hang(s));
    hide HangLeft, PttLine, RfLine, Settings.Trail, Settings.Valid, Hang, Near;
  }

  lemma WaitFollows(s: Settings, run: seq<Stretch>, n: nat)
    requires s.Valid() && PttFollowsRf(s, run) && LeftIsNear(s, run)
    ensures PttFollowsRf(s, run + [Wait(n)]) && LeftIsNear(s, run + [Wait(n)])
  {
    LinesSnoc(s, run, Wait(n));
    hide HangLeft, PttLine, RfLine, Settings.Trail, Settings.Valid, Hang, Near, Level;
    WaitLine(RfLine(s, run), PttLine(s, run), HangLeft(s, run), n, s.Trail(), Hang(s));
  }

  // The same of the lines themselves.
  lemma WaitLine(rf: seq<bool>, ptt: seq<bool>, left: nat, n: nat, lead: nat, hang: nat)
    requires |ptt| == |rf| && forall i: nat :: i < |ptt| ==> (ptt[i] <==> Near(rf, i, lead, hang))
    requires forall i: nat :: i >= |rf| ==> (i - |rf| < left <==> Near(rf, i, lead, hang))
    ensures var rf', ptt', left' := rf + Off(n), ptt + (On(Min(left, n)) + Off(n - Min(left, n))), left - Min(left, n);
      && |ptt'| == |rf'|
      && (forall i: nat :: i < |ptt'| ==> (ptt'[i] <==> Near(rf', i, lead, hang)))
      && (forall i: nat :: i >= |rf'| ==> (i - |rf'| < left' <==> Near(rf', i, lead, hang)))
  {
    NearWait(rf, n, lead, hang);
    hide Near;
  }

  // --- The stretches of a run -------------------------------------------------------------------

  function ItemRun(s: Settings, item: Item): seq<Stretch>
    requires s.Valid()
  {
    match item
    case Element(code) => [Key(s.OnTime(code)), Wait(s.Rest(s.Unit()))]
    case Space => [Wait(s.LetterSpace())]
  }

  function ItemsRun(s: Settings, items: seq<Item>): seq<Stretch>
    requires s.Valid()
  {
    if items == [] then [] else ItemsRun(s, items[..|items| - 1]) + ItemRun(s, items[|items| - 1])
  }

  // One pass of the thread that begins after t ticks.
  function PassRun(s: Settings, paddle: seq<Paddles>, t: nat): seq<Stretch>
    requires s.Valid()
  {
    var x := InputAt(s, paddle, t + 1);
    [Wait(1)] + (
      if !x.Any() then []
      else if s.mode != 0 then ItemsRun(s, Burst(s, paddle, t + 1, []))
      else if x.bit0 then [Key(KeyHeld(s, paddle, t + 1 + s.Trail()) + s.Trail())]
      else ItemRun(s, Element(1)))
  }

  function RunOf(s: Settings, paddle: seq<Paddles>, passes: nat): seq<Stretch>
    requires s.Valid()
  {
    if passes == 0 then [] else
    RunOf(s, paddle, passes - 1) + PassRun(s, paddle, |RunRf(s, paddle, passes - 1)|)
  }

  lemma {:induction false} RfAppend(s: Settings, a: seq<Stretch>, b: seq<Stretch>)
    requires s.Valid()
    ensures RfLine(s, a + b) == RfLine(s, a) + RfLine(s, b)
    decreases |b|
  {
    hide RfLine, PttLine, HangLeft, Level, Settings.Trail, Settings.Valid;
    if b == [] {
      NothingNear(s);
      assert a + b == a;
    } else {
      var front, last := b[..|b| - 1], b[|b| - 1];
      RfAppend(s, a, front);
      assert b == front + [last] && a + b == (a + front) + [last];
      LinesSnoc(s, a + front, last);
      LinesSnoc(s, front, last);
    }
  }

  lemma ItemRf(s: Settings, item: Item)
    requires s.Valid()
    ensures RfLine(s, ItemRun(s, item)) == ItemTrace(s, item)
  {
    hide RfLine, PttLine, HangLeft, Level, Settings.Trail, Settings.Valid, Settings.OnTime, Settings.Rest,
      Settings.Unit, Settings.LetterSpace;
    NothingNear(s);
    match item {
      case Element(code) =>
        var key, wait := Key(s.OnTime(code)), Wait(s.Rest(s.Unit()));
        LinesSnoc(s, [], key);
        LinesSnoc(s, [key], wait);
        assert [] + [key] == [key] && [key] + [wait] == ItemRun(s, item);
      case Space =>
        LinesSnoc(s, [], Wait(s.LetterSpace()));
        assert [] + [Wait(s.LetterSpace())] == ItemRun(s, item);
    }
  }

  lemma {:induction false} ItemsRf(s: Settings, items: seq<Item>)
    requires s.Valid()
    ensures RfLine(s, ItemsRun(s, items)) == Trace(s, items)
    decreases |items|
  {
    hide RfLine, ItemRun, ItemTrace;
    if items == [] {
      NothingNear(s);
    } else {
      var n := |items| - 1;
      ItemsRf(s, items[..n]);
      ItemRf(s, items[n]);
      RfAppend(s, ItemsRun(s, items[..n]), ItemRun(s, items[n]));
    }
  }

  // The stretches of a run make up its RF line.
  lemma PassRunRf(s: Settings, paddle: seq<Paddles>, t: nat)
    requires s.Valid()
    ensures RfLine(s, PassRun(s, paddle, t)) == PassRf(s, paddle, t)
  {
    hide RfLine, PttLine, HangLeft, ItemRun, ItemsRun, ItemTrace, Trace, Burst, KeyHeld, InputAt, Settings.Trail,
      Settings.Valid;
    NothingNear(s);
    LinesSnoc(s, [], Wait(1));
    assert [] + [Wait(1)] == [Wait(1)] && Off(1) == [false];
    var rest := PassRun(s, paddle, t)[1..];
    assert PassRun(s, paddle, t) == [Wait(1)] + rest;
    RfAppend(s, [Wait(1)], rest);
    var x := InputAt(s, paddle, t + 1);
    if x.Any() {
      if s.mode != 0 {
        ItemsRf(s, Burst(s, paddle, t + 1, []));
      } else if x.bit0 {
        LinesSnoc(s, [], rest[0]);
        assert [] + [rest[0]] == rest;
      } else {
        ItemRf(s, Element(1));
      }
    }
  }

  lemma {:induction false} RunOfRf(s: Settings, paddle: seq<Paddles>, passes: nat)
    requires s.Valid()
    ensures RfLine(s, RunOf(s, paddle, passes)) == RunRf(s, paddle, passes)
    decreases passes
  {
    hide RfLine, PassRun, PassRf;
    if passes == 0 {
      NothingNear(s);
    } else {
      RunOfRf(s, paddle, passes - 1);
      var t := |RunRf(s, paddle, passes - 1)|;
      PassRunRf(s, paddle, t);
      RfAppend(s, RunOf(s, paddle, passes - 1), PassRun(s, paddle, t));
    }
  }

  // --- For which settings ------------------------------------------------------------------------

  // A dash of no length is the only keying without RF.
  predicate NoSilentDash(s: Settings) { !s.enabled || s.mode == 0 || s.delay > 0 || s.weight > 0 }

  lemma DashLength(s: Settings)
    requires s.Valid()
    ensures s.OnTime(1) >= 1
    ensures s.OnTime(0) >= 1 <==> s.delay > 0 || s.weight > 0
  {
    DotIsOneUnit(s);
    if s.weight > 0 {
      QuotientAtLeastOne(3600 * s.weight, 50 * s.speed);
    }
  }

  lemma {:induction false} ItemsSound(s: Settings, items: seq<Item>)
    requires s.Valid() && (s.delay > 0 || s.weight > 0)
    ensures EveryKeySounds(ItemsRun(s, items))
    decreases |items|
  {
    if items == [] {
    } else {
      DashLength(s);
      DotIsOneUnit(s);
      ItemsSound(s, items[..|items| - 1]);
    }
  }

  lemma PassSounds(s: Settings, paddle: seq<Paddles>, t: nat)
    requires s.Valid() && NoSilentDash(s)
    ensures EveryKeySounds(PassRun(s, paddle, t))
  {
    var x := InputAt(s, paddle, t + 1);
    if x.Any() {
      if s.mode != 0 {
        ItemsSound(s, Burst(s, paddle, t + 1, []));
      }
      DashLength(s);
    }
    hide Burst, Settings.OnTime, Settings.Rest, ItemsRun, Settings.LetterSpace;
  }

  lemma {:induction false} RunSounds(s: Settings, paddle: seq<Paddles>, passes: nat)
    requires s.Valid() && NoSilentDash(s)
    ensures EveryKeySounds(RunOf(s, paddle, passes))
    decreases passes
  {
    hide PassRun, RunRf, EveryKeySounds;
    if passes == 0 {
      AppendSounds([], []);
    } else {
      var t := |RunRf(s, paddle, passes - 1)|;
      RunSounds(s, paddle, passes - 1);
      PassSounds(s, paddle, t);
      AppendSounds(RunOf(s, paddle, passes - 1), PassRun(s, paddle, t));
    }
  }

  lemma AppendSounds(a: seq<Stretch>, b: seq<Stretch>)
    ensures EveryKeySounds([])
    ensures EveryKeySounds(a) && EveryKeySounds(b) ==> EveryKeySounds(a + b)
  {
  }

  lemma {:induction false} LinesGrow(s: Settings, a: seq<Stretch>, b: seq<Stretch>)
    requires s.Valid()
    ensures RfLine(s, a) <= RfLine(s, a + b) && PttLine(s, a) <= PttLine(s, a + b)
    decreases |b|
  {
    hide RfLine, PttLine, Settings.Valid;
    if b == [] {
      assert a + b == a;
    } else {
      var front, last := b[..|b| - 1], b[|b| - 1];
      LinesGrow(s, a, front);
      assert a + b == (a + front) + [last];
      LinesSnoc(s, a + front, last);
    }
  }

  // Main result: for every setting, PTT is on in exactly the ticks from the trail before RF to
  // the hang time after it, in every run, if and only if no dash is without length.
  lemma PttFollowsRfIff(s: Settings)
    requires s.Valid()
    ensures (forall paddle: seq<Paddles>, passes: nat :: PttFollowsRf(s, RunOf(s, paddle, passes)))
      <==> NoSilentDash(s)
  {
    hide PttFollowsRf, RunOf, EveryKeySounds;
    if NoSilentDash(s) {
      forall paddle: seq<Paddles>, passes: nat
        ensures PttFollowsRf(s, RunOf(s, paddle, passes))
      {
        RunSounds(s, paddle, passes);
        PttIsNearRf(s, RunOf(s, paddle, passes));
      }
    } else {
      var paddle := DashAtTickOne(s);
      SilentDash(s, paddle);
      assert !PttFollowsRf(s, RunOf(s, paddle, 1));
    }
  }

  function DashAtTickOne(s: Settings): seq<Paddles> { [NONE, Paddles(s.reversed, !s.reversed)] }

  // The run in which such a dash is asked for: PTT comes without RF.
  lemma SilentDash(s: Settings, paddle: seq<Paddles>)
    requires s.Valid() && !NoSilentDash(s) && paddle == DashAtTickOne(s)
    ensures !PttFollowsRf(s, RunOf(s, paddle, 1))
  {
    hide RfLine, PttLine, RunOf, Settings.Unit;
    var dash := [Wait(1), Key(0), Wait(s.Unit())];
    SilentRun(s, paddle);
    var rest := RunOf(s, paddle, 1)[3..];
    assert RunOf(s, paddle, 1) == dash + rest;
    LinesGrow(s, dash, rest);
    SilentLines(s);
    assert !Near(RfLine(s, RunOf(s, paddle, 1)), 1, 0, Hang(s));
  }

  lemma SilentRun(s: Settings, paddle: seq<Paddles>)
    requires s.Valid() && !NoSilentDash(s) && paddle == DashAtTickOne(s)
    ensures [Wait(1), Key(0), Wait(s.Unit())] <= RunOf(s, paddle, 1)
  {
    DashLength(s);
    FirstIsDash(s, paddle);
    OnePass(s, paddle);
    hide RunOf, Burst, ItemsRun, InputAt, KeyHeld, ItemRun, Settings.OnTime, Settings.Unit, Settings.Trail;
    DashFirst(s, Burst(s, paddle, 1, []));
  }

  lemma OnePass(s: Settings, paddle: seq<Paddles>)
    requires s.Valid()
    ensures RunOf(s, paddle, 1) == PassRun(s, paddle, 0)
  {
    hide PassRun;
    assert RunOf(s, paddle, 0) == [] && RunRf(s, paddle, 0) == [];
    assert [] + PassRun(s, paddle, 0) == PassRun(s, paddle, 0);
  }

  lemma FirstIsDash(s: Settings, paddle: seq<Paddles>)
    requires s.Valid() && s.enabled && paddle == DashAtTickOne(s)
    ensures InputAt(s, paddle, 1) == Paddles(false, true)
    ensures [Element(0)] <= Burst(s, paddle, 1, [])
  {
    assert After(s, paddle, 1, []) == Some(Element(0));
    BurstFollows(s, paddle, 1, []);
    hide Burst, After;
    var items := Burst(s, paddle, 1, []);
    ItemsFollow(s, paddle, 1, items);
    if items == [] {
      assert false;
    }
    assert items[..0] == [];
  }

  lemma {:induction false} DashFirst(s: Settings, items: seq<Item>)
    requires s.Valid() && [Element(0)] <= items
    ensures [Key(s.OnTime(0)), Wait(s.Rest(s.Unit()))] <= ItemsRun(s, items)
    decreases |items|
  {
    hide ItemRun, Settings.OnTime, Settings.Rest, Settings.Unit;
    if |items| == 1 {
      assert ItemsRun(s, items[..0]) == [];
      ItemRunOf(s);
    } else {
      DashFirst(s, items[..|items| - 1]);
    }
  }

  lemma ItemRunOf(s: Settings)
    requires s.Valid()
    ensures ItemRun(s, Element(0)) == [Key(s.OnTime(0)), Wait(s.Rest(s.Unit()))]
  {
  }

  lemma SilentLines(s: Settings)
    requires s.Valid() && s.delay == 0
    ensures var dash := [Wait(1), Key(0), Wait(s.Unit())];
      && |PttLine(s, dash)| >= 2 && PttLine(s, dash)[1]
      && |RfLine(s, dash)| >= 2 && !RfLine(s, dash)[0] && !RfLine(s, dash)[1]
  {
    var a, b, c := Wait(1), Key(0), Wait(s.Unit());
    assert s.Trail() == 0;
    hide RfLine, PttLine, HangLeft, Settings.Unit, Settings.Trail, Settings.Valid;
    LinesSnoc(s, [], a);
    LinesSnoc(s, [a], b);
    LinesSnoc(s, [a, b], c);
    NothingNear(s);
    assert [] + [a] == [a] && [a] + [b] == [a, b] && [a, b] + [c] == [a, b, c];
  }
}

/** The keyer thread: paddles in, RF, PTT and mux lines out, one tick at a time. */
module Keyer {
  import opened Arith
  import opened KeyerTiming
  import opened KeyerPaddles
  import opened KeyerPtt
  import opened Samples

  // The output lines during one tick.
  datatype Lines = Lines(rf: bool, ptt: bool, mux: bool, txMux: bool, cwPtt: bool)
  {
    // All but RF switch together, and RF is on only with them.
    predicate Safe() { ptt == mux == txMux == cwPtt && (rf ==> ptt) }
  }

  const ALL_OFF := Lines(false, false, false, false, false)
  const PTT_ON := Lines(false, true, true, true, true)
  const RF_ON := Lines(true, true, true, true, true)

  function Rf(log: seq<Lines>): seq<bool>
  {
    seq(|log|, i requires 0 <= i < |log| => log[i].rf)
  }

  function Ptt(log: seq<Lines>): seq<bool>
  {
    seq(|log|, i requires 0 <= i < |log| => log[i].ptt)
  }

  // Lines, log and countdown between two stretches are those of the stretches so far.
  ghost predicate InStep(s: Settings, run: seq<Stretch>, log: seq<Lines>, lines: Lines, delay: int)
    requires s.Valid()
  {
    var left := HangLeft(s, run);
    && Ptt(log) == PttLine(s, run)
    && lines == (if left > 0 then PTT_ON else ALL_OFF)
    && (left > 0 ==> delay == left)
  }

  function Constant(n: nat, l: Lines): seq<Lines> { seq(n, _ => l) }

  // n ticks without RF, at the end of each of which a PTT that is on counts down from d.
  function Quiet(n: nat, on: bool, d: int): seq<Lines>
  {
    seq(n, j requires 0 <= j < n => if on && (j == 0 || j < d) then PTT_ON else ALL_OFF)
  }

  lemma RfConstant(log: seq<Lines>, n: nat, l: Lines)
    ensures Rf(log + Constant(n, l)) == Rf(log) + Level(n, l.rf)
  {
  }

  lemma RfQuiet(log: seq<Lines>, n: nat, on: bool, d: int)
    ensures Rf(log + Quiet(n, on, d)) == Rf(log) + Off(n)
  {
  }

  class KeyerThread {
    const settings: Settings
    // The paddle contacts at every tick; released after the end of the history.
    const paddle: seq<Paddles>
    var lines: Lines
    var sidetone: bool
    var memory0: Paddles
    var memory1: Paddles
    var pttDelay: int
    var now: nat

    // The lines at every tick so far, and the stretches that they are made of.
    var log: seq<Lines>
    ghost var run: seq<Stretch>

    ghost predicate Valid()
      reads this
    {
      && settings.Valid()
      && lines.Safe()
      && |log| == now
      && forall i :: 0 <= i < |log| ==> log[i].Safe()
    }

    ghost predicate Timed()
      reads this
    {
      Valid() && InStep(settings, run, log, lines, pttDelay)
    }

    function Mem(): Memory
      reads this
    {
      Memory(memory0, memory1)
    }

    constructor (settings: Settings, paddle: seq<Paddles>)
      requires settings.Valid()
      ensures Valid() && this.settings == settings && this.paddle == paddle
      ensures lines == ALL_OFF && log == [] && run == [] && Timed()
    {
      this.settings, this.paddle := settings, paddle;
      lines, run := ALL_OFF, [];
      sidetone, memory0, memory1, pttDelay, now, log := false, NONE, NONE, 0, 0, [];
    }

    function Input(): Paddles
      reads this
    {
      InputAt(settings, paddle, now)
    }

    // One millisecond with the lines as they are.
    method Tick()
      requires Valid()
      modifies this`now, this`log
      ensures Valid() && now == old(now) + 1 && log == old(log) + [lines]
    {
      now := now + 1;
      log := log + [lines];
    }

    method SetLines(l: Lines)
      requires Valid() && l.Safe()
      modifies this`lines
      ensures Valid() && lines == l
    {
      lines := l;
    }

    // What a tick that samples the paddles remembers.
    method Remember(forget: bool)
      requires Valid()
      modifies this`memory0, this`memory1
      ensures Valid() && Mem() == Sample(old(Mem()), Input(), forget)
    {
      memory0 := Input();
      if forget && !memory0.Any() {
        memory1 := NONE;
      } else {
        memory1 := memory1.Or(memory0);
      }
    }

    // n ticks with the lines held, sampling after each.
    method HoldSampling(n: nat, forget: bool)
      requires Valid()
      modifies this`now, this`log, this`memory0, this`memory1
      ensures Valid() && now == old(now) + n && log == old(log) + Constant(n, lines)
      ensures Mem() == Hold(settings, paddle, old(Mem()), old(now), n, forget)
    {
      hide InputAt;
      var i := n;
      while i > 0
        invariant 0 <= i <= n && Valid() && now == old(now) + (n - i)
        invariant log == old(log) + Constant(n - i, lines)
        invariant Mem() == Hold(settings, paddle, old(Mem()), old(now), n - i, forget)
      {
        Tick();
        Remember(forget);
        i := i - 1;
      }
    }

    // PTT and the muxes are on for the whole trail, and only then RF.
    method CwOn()
      requires Valid() && !lines.rf
      modifies this
      ensures Valid() && lines == RF_ON && now == old(now) + settings.Trail()
      ensures log == old(log) + Constant(settings.Trail(), PTT_ON) && run == old(run)
      ensures Mem() == Hold(settings, paddle, old(Mem()), old(now), settings.Trail(), settings.mode == 1)
    {
      var delay := Quotient(1200, settings.speed);
      if settings.delay < delay {
        delay := settings.delay;
      }
      SetLines(PTT_ON);
      if settings.sidetone {
        sidetone := true;
      }
      HoldSampling(delay, settings.mode == 1);
      SetLines(lines.(rf := true));
    }

    // RF stays on for the trail; the hang time starts when it goes off.
    method CwOff()
      requires Valid() && lines == RF_ON
      modifies this
      ensures Valid() && lines == PTT_ON && now == old(now) + settings.Trail()
      ensures log == old(log) + Constant(settings.Trail(), RF_ON) && run == old(run)
      ensures Mem() == Hold(settings, paddle, old(Mem()), old(now), settings.Trail(), false)
      ensures pttDelay == Hang(settings) == if settings.hang > 0 then settings.hang else 10
    {
      var delay := Quotient(1200, settings.speed);
      if settings.delay < delay {
        delay := settings.delay;
      }
      sidetone := false;
      HoldSampling(delay, false);
      SetLines(lines.(rf := false));
      pttDelay := if settings.hang > 0 then settings.hang else 10;
    }

    // The hang time falls by one; PTT goes when it is over, and only while RF is off.
    method CwPttOff()
      requires Valid() && !lines.rf
      modifies this`pttDelay, this`lines
      ensures Valid() && !lines.rf && pttDelay == old(pttDelay) - 1
      ensures lines == if pttDelay > 0 then old(lines) else ALL_OFF
    {
      pttDelay := pttDelay - 1;
      if pttDelay > 0 {
        return;
      }
      SetLines(ALL_OFF);
    }

    method CwSignalDelay(code: nat)
      requires Valid() && lines == RF_ON && code <= 1
      modifies this`now, this`log, this`memory0, this`memory1
      ensures Valid() && now == old(now) + Signal(settings, code)
      ensures log == old(log) + Constant(Signal(settings, code), RF_ON)
      ensures Mem() == Hold(settings, paddle, old(Mem()), old(now), Signal(settings, code), settings.mode == 1)
    {
      var delay: int :=
        if code != 0 then Quotient(1200, settings.speed) else Quotient(3600 * settings.weight, 50 * settings.speed);
      delay := delay - settings.delay;
      if delay < 0 {
        delay := 0;
      }
      HoldSampling(delay, settings.mode == 1);
    }

    // The length of a pause.
    function Pause(code: nat): nat
      requires settings.Valid()
    {
      if code != 0 then settings.Rest(settings.Unit()) else settings.LetterSpace()
    }

    // A pause, during which the hang time runs and PTT may go.
    method CwSpaceDelay(code: nat)
      requires Valid() && !lines.rf
      modifies this
      ensures Valid() && now == old(now) + Pause(code)
      ensures log == old(log) + Quiet(Pause(code), old(lines.cwPtt), old(pttDelay)) && run == old(run)
      ensures Mem() == Hold(settings, paddle, old(Mem()), old(now), Pause(code), false)
      ensures lines == if old(lines.cwPtt) && (Pause(code) == 0 || Pause(code) < old(pttDelay)) then PTT_ON else ALL_OFF
      ensures lines.cwPtt ==> pttDelay == old(pttDelay) - Pause(code)
    {
      hide InputAt;
      var delay: int :=
        if code != 0 then Quotient(1200, settings.speed) - settings.delay else Quotient(2400, settings.speed);
      if delay < 0 {
        delay := 0;
      }
      assert delay == Pause(code);
      hide Pause, Settings.Valid;
      var i := delay;
      while i > 0
        invariant 0 <= i <= delay && Valid() && now == old(now) + (delay - i)
        invariant log == old(log) + Quiet(delay - i, old(lines.cwPtt), old(pttDelay)) && run == old(run)
        invariant Mem() == Hold(settings, paddle, old(Mem()), old(now), delay - i, false)
        invariant lines == if old(lines.cwPtt) && (delay == i || delay - i < old(pttDelay)) then PTT_ON else ALL_OFF
        invariant lines.cwPtt ==> pttDelay == old(pttDelay) - (delay - i)
      {
        QuietSnoc(delay - i, old(lines.cwPtt), old(pttDelay));
        Tick();
        if lines.cwPtt {
          CwPttOff();
        }
        Remember(false);
        i := i - 1;
      }
    }

    // One element of an iambic burst: its RF line, its ticks, and the memory after it.
    method PlayElement(state: nat)
      requires Timed() && state <= 1
      modifies this
      ensures Timed() && run == old(run) + ItemRun(settings, Element(state))
      ensures Rf(log) == Rf(old(log)) + ItemTrace(settings, Element(state))
      ensures now == old(now) + Ticks(settings, Element(state))
      ensures Mem() == AfterElement(settings, paddle, old(Mem()), old(now), state)
    {
      hide Settings.Trail, Settings.Rest, Settings.Unit, Settings.Dash, Settings.Valid, Level, Hold, Quiet, Constant,
        Rf, Ptt, PttLine, HangLeft, Hang;
      memory1 := NONE;
      ghost var start := log;
      CwOn();
      ghost var on := log;
      CwSignalDelay(state);
      ghost var keyed := log;
      CwOff();
      ghost var off, delay := log, pttDelay;
      CwSpaceDelay(1);
      ElementLog(settings, start, on, keyed, off, log, state, delay);
      ElementInStep(settings, run, start, old(lines), old(pttDelay), off, state, log, lines, pttDelay);
      run := run + ItemRun(settings, Element(state));
      memory1 := memory1.Without(state);
      memory1 := memory1.Or(memory0);
    }

    // The space after a letter.
    method PlaySpace()
      requires Timed()
      modifies this
      ensures Timed() && run == old(run) + ItemRun(settings, Space)
      ensures Rf(log) == Rf(old(log)) + ItemTrace(settings, Space)
      ensures now == old(now) + Ticks(settings, Space)
      ensures Mem() == Hold(settings, paddle, old(Mem()), old(now), settings.LetterSpace(), false)
    {
      hide Quiet, Rf, Hold, InStep, Settings.LetterSpace;
      TimedIsQuiet();
      ghost var before, was, delay := log, lines, pttDelay;
      CwSpaceDelay(0);
      SpaceLog(settings, before, was.cwPtt, delay);
      WaitInStep(settings, run, before, was, delay, settings.LetterSpace(), log, lines, pttDelay);
      run := run + ItemRun(settings, Space);
    }

    // Iambic keying: exactly the burst that the paddle history asks for.
    method Iambic()
      requires Timed() && memory0 == Input() && memory0.Any()
      modifies this
      ensures Timed() && now > old(now)
      ensures run == old(run) + ItemsRun(settings, Burst(settings, paddle, old(now), []))
      ensures Rf(log) == Rf(old(log)) + Trace(settings, Burst(settings, paddle, old(now), []))
    {
      hide Trace, ItemTrace, Rf, Burst, MemoryAfter, AfterElement, Hold, KeyerPaddles.Tick, Ticks, InputAt,
        Settings.LetterSpace;
      hide Left, Pending, Quiet, InStep, ItemsRun, ItemRun, Settings.Unit, Settings.Trail, Settings.Rest, Hang;
      TimedIsQuiet();
      ghost var start, t0 := log, now;
      ghost var items: seq<Item> := [];
      StartOfBurst(settings, paddle, t0, Rf(start));
      assert run + [] == run;
      var state: nat := 1;
      memory1 := memory0;
      while true
        invariant Timed() && state <= 1 && memory1.Any()
        invariant run == old(run) + ItemsRun(settings, items)
        invariant now == KeyerPaddles.Tick(settings, t0, items) && Mem() == MemoryAfter(settings, paddle, t0, items)
        invariant Rf(log) == Rf(start) + Trace(settings, items)
        invariant Burst(settings, paddle, t0, items) == Burst(settings, paddle, t0, [])
        invariant After(settings, paddle, t0, items) == Some(Element(if memory1.Has(state) then state else 1 - state))
        invariant now > t0 || items == []
        decreases Left(paddle, now), Pending(settings, paddle, t0, items), if memory1.Has(state) then 0 else 1
      {
        if memory1.Has(state) {
          NextOfBurst(settings, paddle, t0, items, Element(state), Rf(start));
          PlayElement(state);
          items := items + [Element(state)];
        }
        if memory1.Any() {
          state := 1 - state;
        } else {
          if settings.spacing {
            state := 1;
            NextOfBurst(settings, paddle, t0, items, Space, Rf(start));
            PlaySpace();
            items := items + [Space];
            if memory1.Any() {
              continue;
            }
          }
          EndOfBurst(settings, paddle, t0, items);
          break;
        }
      }
    }

    // Straight key: RF follows the key from the end of the trail on, and trails it.
    method StraightKey()
      requires Timed() && memory0 == Input()
      modifies this
      ensures Timed()
      ensures var trail := settings.Trail();
        run == old(run) + [Key(KeyHeld(settings, paddle, old(now) + trail) + trail)]
      ensures var trail := settings.Trail();
        Rf(log) == Rf(old(log)) + (Off(trail) + On(KeyHeld(settings, paddle, old(now) + trail) + trail))
    {
      hide Level, Settings.Trail, KeyHeld, Rf, Constant, Ptt, PttLine, HangLeft, Hang;
      ghost var start := log;
      CwOn();
      LastOfHold(settings, paddle, old(Mem()), old(now), settings.Trail(), settings.mode == 1);
      ghost var on := log;
      var held := HoldKey();
      ghost var keyed := log;
      CwOff();
      StraightLog(start, on, keyed, log, settings.Trail(), held);
      KeyInStep(settings, run, start, old(lines), old(pttDelay), held, log);
      run := run + [Key(held + settings.Trail())];
    }

    // The other contact in straight mode: one dot.
    method StraightDot()
      requires Timed()
      modifies this
      ensures Timed() && run == old(run) + ItemRun(settings, Element(1))
      ensures Rf(log) == Rf(old(log)) + ItemTrace(settings, Element(1))
    {
      hide Level, Settings.Trail, Settings.Dash, Hold, Quiet, Constant, Rf, Ptt, PttLine, HangLeft, Hang;
      ghost var start := log;
      CwOn();
      ghost var on := log;
      var delay: int := Quotient(1200, settings.speed) - settings.delay;
      Sleep(if delay > 0 then delay else 0);
      ghost var keyed := log;
      CwOff();
      ghost var off, hang := log, pttDelay;
      CwSpaceDelay(1);
      ElementLog(settings, start, on, keyed, off, log, 1, hang);
      ElementInStep(settings, run, start, old(lines), old(pttDelay), off, 1, log, lines, pttDelay);
      run := run + ItemRun(settings, Element(1));
    }

    // The key is down until it is released, at the latest when the history ends.
    method HoldKey() returns (held: nat)
      requires Valid() && lines == RF_ON && memory0 == Input()
      modifies this`now, this`log, this`memory0
      ensures Valid() && held == KeyHeld(settings, paddle, old(now))
      ensures log == old(log) + Constant(held, RF_ON)
    {
      hide InputAt;
      held := 0;
      while memory0.bit0
        invariant Valid() && memory0 == Input()
        invariant held + KeyHeld(settings, paddle, now) == KeyHeld(settings, paddle, old(now))
        invariant log == old(log) + Constant(held, RF_ON)
        decreases Left(paddle, now)
      {
        HeldNext(settings, paddle, now);
        Tick();
        memory0 := Input();
        held := held + 1;
      }
    }

    // n ticks without sampling.
    method Sleep(n: nat)
      requires Valid()
      modifies this`now, this`log
      ensures Valid() && now == old(now) + n && log == old(log) + Constant(n, lines)
    {
      for i := 0 to n
        invariant Valid() && now == old(now) + i && log == old(log) + Constant(i, lines)
      {
        Tick();
      }
    }

    lemma TimedIsQuiet()
      requires Timed()
      ensures !lines.rf
    {
    }

    // One pass of the thread's endless loop: what it keys is decided by the paddles.
    method Pass()
      requires Timed()
      modifies this
      ensures Timed() && now > old(now)
      ensures run == old(run) + PassRun(settings, paddle, old(now))
      ensures Rf(log) == Rf(old(log)) + PassRf(settings, paddle, old(now))
    {
      hide Trace, ItemTrace, ItemRun, ItemsRun, Burst, KeyHeld, Level, InputAt, Settings.Trail, InStep;
      TimedIsQuiet();
      ghost var before := log;
      Tick();
      assert Rf(log) == Rf(before) + [false];
      hide Rf;
      if lines.cwPtt {
        CwPttOff();
      }
      WaitOne(settings, run, before, old(lines), old(pttDelay), log, lines, pttDelay);
      run := run + [Wait(1)];
      memory0 := Input();
      if !memory0.Any() {
        return;
      }
      if settings.mode == 0 {
        if memory0.bit0 {
          StraightKey();
        } else {
          StraightDot();
        }
      } else {
        Iambic();
      }
    }
  }

  // Main result: over any number of passes and any paddle history, the RF and PTT lines are
  // exactly the ones that the history asks for, and RF is never on in a tick without PTT and
  // both muxes.
  method Run(settings: Settings, paddle: seq<Paddles>, passes: nat) returns (log: seq<Lines>)
    requires settings.Valid()
    ensures Rf(log) == RunRf(settings, paddle, passes)
    ensures Ptt(log) == PttLine(settings, RunOf(settings, paddle, passes))
    ensures NoSilentDash(settings) ==>
      forall i: nat :: i < |log| ==> (log[i].ptt <==> Near(Rf(log), i, settings.Trail(), Hang(settings)))
    ensures forall i :: 0 <= i < |log| ==> (log[i].rf ==> log[i].ptt && log[i].mux && log[i].txMux && log[i].cwPtt)
    ensures forall i :: 0 <= i < |log| ==> log[i].ptt == log[i].mux == log[i].txMux == log[i].cwPtt
    ensures |log| >= passes
  {
    hide PassRf, PassRun, PttLine;
    var thread := new KeyerThread(settings, paddle);
    for p := 0 to passes
      invariant fresh(thread) && thread.Timed() && thread.now >= p
      invariant thread.run == RunOf(settings, paddle, p)
      invariant thread.settings == settings && thread.paddle == paddle
      invariant Rf(thread.log) == RunRf(settings, paddle, p)
    {
      assert |Rf(thread.log)| == thread.now;
      thread.Pass();
    }
    log := thread.log;
    if NoSilentDash(settings) {
      PttOfRun(settings, paddle, passes, log);
    }
    assert forall i :: 0 <= i < |log| ==> log[i].Safe();
  }

  lemma PttOfRun(s: Settings, paddle: seq<Paddles>, passes: nat, log: seq<Lines>)
    requires s.Valid() && NoSilentDash(s) && Rf(log) == RunRf(s, paddle, passes)
    requires Ptt(log) == PttLine(s, RunOf(s, paddle, passes))
    ensures forall i: nat :: i < |log| ==> (log[i].ptt <==> Near(Rf(log), i, s.Trail(), Hang(s)))
  {
    var run := RunOf(s, paddle, passes);
    RunSounds(s, paddle, passes);
    PttIsNearRf(s, run);
    RunOfRf(s, paddle, passes);
    hide RunOf, RunRf, RfLine, PttLine, Near, Hang, Settings.Trail, EveryKeySounds, NoSilentDash;
    forall i: nat | i < |log|
      ensures log[i].ptt <==> Near(Rf(log), i, s.Trail(), Hang(s))
    {
      assert Ptt(log)[i] == log[i].ptt;
    }
  }

  lemma QuietSnoc(n: nat, on: bool, d: int)
    ensures Quiet(n + 1, on, d) == Quiet(n, on, d) + [if on && (n == 0 || n < d) then PTT_ON else ALL_OFF]
  {
  }

  // A wait with the lines and the countdown that it leaves.
  lemma WaitInStep(s: Settings, run: seq<Stretch>, before: seq<Lines>, was: Lines, d: int, n: nat,
                   log: seq<Lines>, lines: Lines, delay: int)
    requires s.Valid() && InStep(s, run, before, was, d) && log == before + Quiet(n, was.cwPtt, d)
    requires lines == if was.cwPtt && (n == 0 || n < d) then PTT_ON else ALL_OFF
    requires lines.cwPtt ==> delay == d - n
    ensures InStep(s, run + [Wait(n)], log, lines, delay)
  {
    hide PttLine, HangLeft, Hang;
    LinesSnoc(s, run, Wait(n));
  }

  lemma WaitOne(s: Settings, run: seq<Stretch>, before: seq<Lines>, was: Lines, d: int, log: seq<Lines>,
                lines: Lines, delay: int)
    requires s.Valid() && InStep(s, run, before, was, d) && log == before + [was]
    requires lines == if was.cwPtt && d - 1 > 0 then PTT_ON else ALL_OFF
    requires lines.cwPtt ==> delay == d - 1
    ensures InStep(s, run + [Wait(1)], log, lines, delay)
  {
    assert Quiet(1, was.cwPtt, d) == [was];
    WaitInStep(s, run, before, was, d, 1, log, lines, delay);
  }

  // A keying leaves PTT on and the whole hang time.
  lemma KeyInStep(s: Settings, run: seq<Stretch>, before: seq<Lines>, was: Lines, d: int, n: nat, log: seq<Lines>)
    requires s.Valid() && InStep(s, run, before, was, d)
    requires log == before + Constant(s.Trail(), PTT_ON) + Constant(n, RF_ON) + Constant(s.Trail(), RF_ON)
    ensures InStep(s, run + [Key(n + s.Trail())], log, PTT_ON, Hang(s))
  {
    hide PttLine, HangLeft, Settings.Trail, Settings.Valid;
    LinesSnoc(s, run, Key(n + s.Trail()));
  }

  lemma ElementInStep(s: Settings, run: seq<Stretch>, before: seq<Lines>, was: Lines, d: int, off: seq<Lines>,
                      code: nat, log: seq<Lines>, lines: Lines, delay: int)
    requires s.Valid() && InStep(s, run, before, was, d)
    requires off == before + Constant(s.Trail(), PTT_ON) + Constant(Signal(s, code), RF_ON)
      + Constant(s.Trail(), RF_ON)
    requires log == off + Quiet(s.Rest(s.Unit()), true, Hang(s))
    requires lines == if s.Rest(s.Unit()) == 0 || s.Rest(s.Unit()) < Hang(s) then PTT_ON else ALL_OFF
    requires lines.cwPtt ==> delay == Hang(s) - s.Rest(s.Unit())
    ensures InStep(s, run + ItemRun(s, Element(code)), log, lines, delay)
  {
    OnTimeIs(s, code);
    hide InStep, Quiet, Constant, Signal, Settings.Trail, Settings.Valid, Settings.OnTime, Settings.Rest, Settings.Unit;
    var key, wait := Key(s.OnTime(code)), Wait(s.Rest(s.Unit()));
    KeyInStep(s, run, before, was, d, Signal(s, code), off);
    WaitInStep(s, run + [key], off, PTT_ON, Hang(s), wait.ticks, log, lines, delay);
    assert run + [key] + [wait] == run + ItemRun(s, Element(code));
  }

  // The four stretches of an element make up its RF line.
  lemma ElementLog(s: Settings, start: seq<Lines>, on: seq<Lines>, keyed: seq<Lines>, off: seq<Lines>, end: seq<Lines>,
                   code: nat, d: int)
    requires s.Valid() && on == start + Constant(s.Trail(), PTT_ON) && keyed == on + Constant(Signal(s, code), RF_ON)
    requires off == keyed + Constant(s.Trail(), RF_ON) && end == off + Quiet(s.Rest(s.Unit()), true, d)
    ensures Rf(end) == Rf(start) + ItemTrace(s, Element(code))
  {
    RfConstant(start, s.Trail(), PTT_ON);
    RfConstant(on, Signal(s, code), RF_ON);
    RfConstant(keyed, s.Trail(), RF_ON);
    RfQuiet(off, s.Rest(s.Unit()), true, d);
    OnTimeIs(s, code);
    hide Level, Constant, Quiet, Rf, Signal, Settings.Trail, Settings.Rest, Settings.Unit, Settings.OnTime,
      Settings.Valid;
    OnJoin(Signal(s, code), s.Trail());
    JoinParts(Rf(start), Off(s.Trail()), On(Signal(s, code)), On(s.Trail()), Off(s.Rest(s.Unit())));
  }

  lemma StraightLog(start: seq<Lines>, on: seq<Lines>, keyed: seq<Lines>, end: seq<Lines>, trail: nat, held: nat)
    requires on == start + Constant(trail, PTT_ON) && keyed == on + Constant(held, RF_ON)
    requires end == keyed + Constant(trail, RF_ON)
    ensures Rf(end) == Rf(start) + (Off(trail) + On(held + trail))
  {
    RfConstant(start, trail, PTT_ON);
    RfConstant(on, held, RF_ON);
    RfConstant(keyed, trail, RF_ON);
    hide Level, Constant, Rf;
    OnJoin(held, trail);
    JoinParts(Rf(start), Off(trail), On(held), On(trail), []);
  }

  lemma SpaceLog(s: Settings, before: seq<Lines>, on: bool, d: int)
    requires s.Valid()
    ensures Rf(before + Quiet(s.LetterSpace(), on, d)) == Rf(before) + ItemTrace(s, Space)
    ensures Ticks(s, Space) == s.LetterSpace()
  {
    RfQuiet(before, s.LetterSpace(), on, d);
  }

  lemma OnJoin(a: nat, b: nat)
    ensures On(a) + On(b) == On(a + b)
  {
  }

  lemma JoinParts(l: seq<bool>, a: seq<bool>, b: seq<bool>, c: seq<bool>, d: seq<bool>)
    ensures l + a + b + c + d == l + (a + (b + c) + d)
    ensures d == [] ==> l + a + b + c == l + (a + (b + c))
  {
  }

  lemma OnTimeIs(s: Settings, code: nat)
    requires s.Valid()
    ensures s.OnTime(code) == Signal(s, code) + s.Trail()
  {
  }

  lemma LastOfHold(s: Settings, paddle: seq<Paddles>, m: Memory, t: nat, n: nat, forget: bool)
    requires m.last == InputAt(s, paddle, t)
    ensures Hold(s, paddle, m, t, n, forget).last == InputAt(s, paddle, t + n)
  {
    hide InputAt;
  }

  lemma HeldNext(s: Settings, paddle: seq<Paddles>, t: nat)
    requires InputAt(s, paddle, t).bit0
    ensures KeyHeld(s, paddle, t) == 1 + KeyHeld(s, paddle, t + 1) && Left(paddle, t + 1) < Left(paddle, t)
  {
  }

  lemma StartOfBurst(s: Settings, paddle: seq<Paddles>, t0: nat, before: seq<bool>)
    requires s.Valid() && InputAt(s, paddle, t0).Any()
    ensures KeyerPaddles.Tick(s, t0, []) == t0
    ensures MemoryAfter(s, paddle, t0, []) == Memory(InputAt(s, paddle, t0), InputAt(s, paddle, t0))
    ensures before == before + Trace(s, []) && ItemsRun(s, []) == []
  {
    hide InputAt;
  }

  lemma NextOfBurst(s: Settings, paddle: seq<Paddles>, t0: nat, items: seq<Item>, item: Item, before: seq<bool>)
    requires s.Valid() && After(s, paddle, t0, items) == Some(item)
    ensures var t, m := KeyerPaddles.Tick(s, t0, items), MemoryAfter(s, paddle, t0, items);
      && KeyerPaddles.Tick(s, t0, items + [item]) == t + Ticks(s, item) > t
      && MemoryAfter(s, paddle, t0, items + [item]) == AfterItem(s, paddle, m, t, item)
    ensures Latest(items + [item]) == item
    ensures Left(paddle, KeyerPaddles.Tick(s, t0, items + [item])) < Left(paddle, KeyerPaddles.Tick(s, t0, items))
      || (Left(paddle, KeyerPaddles.Tick(s, t0, items + [item])) == Left(paddle, KeyerPaddles.Tick(s, t0, items))
        && Pending(s, paddle, t0, items + [item]) < Pending(s, paddle, t0, items))
    ensures before + Trace(s, items) + ItemTrace(s, item) == before + Trace(s, items + [item])
    ensures ItemsRun(s, items + [item]) == ItemsRun(s, items) + ItemRun(s, item)
    ensures Burst(s, paddle, t0, items) == Burst(s, paddle, t0, items + [item])
  {
    BurstStep(s, paddle, t0, items, item);
    assert (items + [item])[..|items|] == items;
    hide ItemRun, ItemsRun, Trace, ItemTrace, Burst, MemoryAfter, AfterItem, After, KeyerPaddles.Tick, Ticks, Left,
      Pending;
    BurstProgress(s, paddle, t0, items, item);
    ItemSnoc(s, paddle, t0, items, item);
    TicksPositive(s, item);
    TraceSnoc(s, items, item);
  }

  lemma BurstStep(s: Settings, paddle: seq<Paddles>, t0: nat, items: seq<Item>, item: Item)
    requires s.Valid() && After(s, paddle, t0, items) == Some(item)
    ensures Burst(s, paddle, t0, items) == Burst(s, paddle, t0, items + [item])
  {
    hide After, KeyerPaddles.Tick, Pending;
  }

  lemma EndOfBurst(s: Settings, paddle: seq<Paddles>, t0: nat, items: seq<Item>)
    requires s.Valid() && After(s, paddle, t0, items) == None
    ensures Burst(s, paddle, t0, items) == items
  {
    hide After, KeyerPaddles.Tick, Pending;
  }
}

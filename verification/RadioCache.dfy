/** The filter and accessory words of the transceiver, computed from its settings. */
module RadioWords {
  import opened Widths
  import opened Arith
  import opened Samples
  import opened LowerBound

  type Frame = f: seq<byte> | |f| == 5 witness [0, 0, 0, 0, 0]

  const FREQ_MAX := 61440000

  type Hertz = x: int | 0 <= x <= FREQ_MAX

  // What the control frames have set: one transmit and two receive frequencies and registers.
  datatype Settings = Settings(
    tx: Hertz, rx1: Hertz, rx2: Hertz, alex0: uint16, alex1: uint16, misc0: uint16, misc1: uint16, misc2: uint16,
      sync: bool)

  const RESET := Settings(0, 0, 0, 0, 0, 0, 0, 0, false)

  function Bit(b: bool): (n: nat)
    ensures n <= 1
  {
    if b then 1 else 0
  }

  // Reading the field `mid`, of size c, that stands above `low` and below `high`.
  lemma Field(w: nat, high: nat, c: nat, mid: nat, b: nat, low: nat)
    requires mid < c && low < b && w == (high * c + mid) * b + low
    ensures w / b == high * c + mid && w / b % c == mid
  {
    UniqueDivMod(w, b, high * c + mid, low);
    UniqueDivMod(high * c + mid, c, high, mid);
  }

  // --- Band codes --------------------------------------------------------------------------

  const FREQS: seq<int> := [
    1700000, 2100000, 3400000, 3900000, 6900000, 7350000, 9900000, 10250000, 13900000, 14450000,
    17950000, 18250000, 20900000, 21550000, 24800000, 25100000, 26900000, 30000000, 49000000, 55000000]

  function BandCode(f: int): nat
  {
    var i := FirstAtLeast(FREQS, f);
    if i % 2 == 1 then i / 2 + 1 else 0
  }

  predicate InBand(f: int, k: nat)
    requires k < 10
  {
    FREQS[2 * k] < f <= FREQS[2 * k + 1]
  }

  lemma FreqsStep(i: nat)
    requires i < 19
    ensures FREQS[i] < FREQS[i + 1]
  {
  }

  lemma FreqsLength()
    ensures |FREQS| == 20
  {
  }

  lemma {:induction false} FreqsOrder(i: nat, j: nat)
    requires i <= j < 20
    ensures |FREQS| == 20 && FREQS[i] <= FREQS[j]
    decreases j
  {
    FreqsLength();
    hide FREQS;
    if i >= j {
    } else {
      FreqsOrder(i, j - 1);
      FreqsStep(j - 1);
    }
  }

  lemma FreqsSorted()
    ensures |FREQS| == 20 && Sorted(FREQS)
  {
    FreqsLength();
    hide FREQS;
    forall i, j | 0 <= i <= j < |FREQS|
      ensures FREQS[i] <= FREQS[j]
    {
      FreqsOrder(i, j);
    }
  }

  // Main result: the code is k + 1 inside band k and 0 outside every band.
  lemma BandCodeIs(f: int, k: nat)
    requires k < 10
    ensures |FREQS| == 20
    ensures BandCode(f) == k + 1 <==> InBand(f, k)
    ensures BandCode(f) == 0 ==> !InBand(f, k)
    ensures BandCode(f) <= 10
  {
    FreqsSorted();
    hide FREQS, Sorted;
    var i := FirstAtLeast(FREQS, f);
    if InBand(f, k) {
      FirstAtLeastIs(FREQS, f, 2 * k + 1);
    }
    if i == 2 * k + 1 {
      assert InBand(f, k);
    }
  }

  // Outside every band means outside every band: the converse of the case of code 0.
  lemma NoBand(f: int)
    ensures BandCode(f) == 0 <==> forall k: nat :: k < 10 ==> !InBand(f, k)
  {
    FreqsLength();
    if BandCode(f) == 0 {
      forall k: nat | k < 10
        ensures !InBand(f, k)
      {
        BandCodeIs(f, k);
      }
    } else {
      BandCodeIs(f, 0);
      BandCodeIs(f, BandCode(f) - 1);
    }
  }

  lemma CodeFits(f: int)
    ensures BandCode(f) <= 10
  {
    BandCodeIs(f, 0);
  }

  // --- The accessory word --------------------------------------------------------------------

  function MiscWord(s: Settings): nat
  {
    MiscSum(BandCode(s.tx), BandCode(s.rx1), BandCode(s.rx2), s.misc0 / 8 % 4, s.misc1 / 8 % 4, s.misc2 % 4)
  }

  function MiscSum(tx: nat, rx1: nat, rx2: nat, m0: nat, m1: nat, m2: nat): nat
  {
    Bit(tx != rx1) * 256 + rx2 * 16 + rx1 + m1 * 2048 + m0 * 512 + m2 * 8192
  }

  // Main result: no two fields of the word overlap, so a reader gets each of them back.
  lemma MiscFields(s: Settings)
    ensures var w := MiscWord(s);
      && w < 0x8000
      && w % 16 == BandCode(s.rx1) && w / 16 % 16 == BandCode(s.rx2)
      && w / 256 % 2 == Bit(BandCode(s.tx) != BandCode(s.rx1))
      && w / 512 % 4 == s.misc0 / 8 % 4 && w / 2048 % 4 == s.misc1 / 8 % 4 && w / 8192 == s.misc2 % 4
  {
    CodeFits(s.tx);
    CodeFits(s.rx1);
    CodeFits(s.rx2);
    hide BandCode;
    SumFields(BandCode(s.tx), BandCode(s.rx1), BandCode(s.rx2), s.misc0 / 8 % 4, s.misc1 / 8 % 4, s.misc2 % 4);
  }

  lemma SumFields(tx: nat, rx1: nat, rx2: nat, m0: nat, m1: nat, m2: nat)
    requires rx1 < 16 && rx2 < 16 && m0 < 4 && m1 < 4 && m2 < 4
    ensures var w := MiscSum(tx, rx1, rx2, m0, m1, m2);
      && w < 0x8000 && w % 16 == rx1 && w / 16 % 16 == rx2 && w / 256 % 2 == Bit(tx != rx1)
      && w / 512 % 4 == m0 && w / 2048 % 4 == m1 && w / 8192 == m2
  {
    var x, w := Bit(tx != rx1), MiscSum(tx, rx1, rx2, m0, m1, m2);
    Field(w, m2 * 32 + m1 * 8 + m0 * 2 + x, 16, rx2, 16, rx1);
    Field(w, m2 * 16 + m1 * 4 + m0, 2, x, 256, rx2 * 16 + rx1);
    Field(w, m2 * 4 + m1, 4, m0, 512, x * 256 + rx2 * 16 + rx1);
    Field(w, m2, 4, m1, 2048, m0 * 512 + x * 256 + rx2 * 16 + rx1);
    Field(w, 0, 4, m2, 8192, m1 * 2048 + m0 * 512 + x * 256 + rx2 * 16 + rx1);
    UniqueDivMod(w, 16, m2 * 512 + m1 * 128 + m0 * 32 + x * 16 + rx2, rx1);
  }

  lemma ResetMisc(s: Settings)
    requires s == RESET
    ensures MiscWord(s) == 0
  {
    FreqsSorted();
    FirstAtLeastIs(FREQS, 0, 0);
  }

  // --- The filter words ------------------------------------------------------------------------

  predicate Manual(s: Settings) { s.alex1 / 0x8000 % 2 == 1 }

  predicate Preamp(s: Settings)
  {
    if Manual(s) then s.alex1 / 64 % 2 == 1 else Max(s.rx1, s.rx2) > 50000000
  }

  predicate Ptt(s: Settings) { s.alex0 % 2 == 1 }

  // High-pass filter for the lower receive frequency.
  function HighPass(s: Settings): (h: nat)
    ensures h < 64
  {
    var f := Min(s.rx1, s.rx2);
    if Preamp(s) then 0
    else if Manual(s) then s.alex1 % 64
    else if f < 1416000 then 0x20
    else if f < 6500000 then 0x10
    else if f < 9500000 then 0x08
    else if f < 13000000 then 0x04
    else if f < 20000000 then 0x01
    else 0x02
  }

  // Low-pass filter for the transmit or the higher receive frequency.
  function LowPass(s: Settings): (l: nat)
    ensures l < 128
  {
    var f := if Ptt(s) then s.tx else Max(s.rx1, s.rx2);
    if Manual(s) then s.alex1 / 256 % 128
    else if f > 32000000 then 0x10
    else if f > 22000000 then 0x20
    else if f > 15000000 then 0x40
    else if f > 8000000 then 0x01
    else if f > 4500000 then 0x02
    else if f > 2400000 then 0x04
    else 0x08
  }

  // The lowest frequency that a high-pass filter lets through, and the highest of a low-pass filter.
  function HighPassCorner(h: nat): int
  {
    match h
    case 0x10 => 1416000
    case 0x08 => 6500000
    case 0x04 => 9500000
    case 0x01 => 13000000
    case 0x02 => 20000000
    case _ => 0
  }

  function LowPassCorner(l: nat): int
  {
    match l
    case 0x08 => 2400000
    case 0x04 => 4500000
    case 0x02 => 8000000
    case 0x01 => 15000000
    case 0x40 => 22000000
    case 0x20 => 32000000
    case _ => FREQ_MAX
  }

  // The low-pass filter l lets through what is sent, or else what is received.
  predicate Passes(s: Settings, l: nat)
  {
    if Ptt(s) then s.tx <= LowPassCorner(l) else s.rx1 <= LowPassCorner(l) && s.rx2 <= LowPassCorner(l)
  }

  // Main result: left to itself, the choice is the tightest filters that still pass both
  // receive frequencies, or the transmit frequency while transmitting.
  lemma FiltersAreTightest(s: Settings, h: nat, l: nat)
    requires !Manual(s)
    ensures HighPassCorner(HighPass(s)) <= s.rx1 && HighPassCorner(HighPass(s)) <= s.rx2
    ensures !Preamp(s) && HighPassCorner(h) <= s.rx1 && HighPassCorner(h) <= s.rx2
      ==> HighPassCorner(h) <= HighPassCorner(HighPass(s))
    ensures Passes(s, LowPass(s))
    ensures Passes(s, l) ==> LowPassCorner(LowPass(s)) <= LowPassCorner(l)
    ensures LowPass(s) in {1, 2, 4, 8, 16, 32, 64}
    ensures if Preamp(s) then HighPass(s) == 0 else HighPass(s) in {1, 2, 4, 8, 16, 32}
  {
  }

  // Left to itself, the preamplifier is on exactly with a receiver above 50 MHz.
  lemma AutomaticPreamp(s: Settings)
    requires !Manual(s)
    ensures RxWord(s) / 8 % 2 == 1 <==> s.rx1 > 50000000 || s.rx2 > 50000000
  {
    RxFields(s);
    hide RxWord, HighPass;
  }

  function RxSum(p: nat, a: nat, b: nat, h: nat, c: nat, ant: nat, pre: nat): nat
  {
    p * 0x8000 + a * 0x4000 + b * 0x2000 + h / 32 % 2 * 0x1000 + c * 0x800
    + Bit(ant == 1) * 0x400 + Bit(ant == 2) * 0x200 + Bit(ant == 3) * 0x100 + h / 4 % 8 * 16 + pre * 8 + h % 4 * 2 + 1
  }

  function RxWord(s: Settings): nat
  {
    RxSum(Bit(Ptt(s)), s.alex0 / 2 % 2, s.alex0 / 4 % 2, HighPass(s), s.alex0 / 128 % 2, s.alex0 / 32 % 4,
      Bit(Preamp(s)))
  }

  function TxSum(l: nat, p: nat, t: nat, ant: nat): nat
  {
    l / 16 % 8 * 0x2000 + p * 0x1000 + t * 0x800
    + Bit(ant == 2) * 0x400 + Bit(ant == 1) * 0x200 + Bit(ant == 0) * 0x100 + l % 16 * 16 + 8
  }

  function TxWord(s: Settings): nat
  {
    TxSum(LowPass(s), Bit(Ptt(s)), Bit(Ptt(s) && s.alex1 / 128 % 2 == 0), s.alex0 / 256 % 4)
  }

  // The three antenna bits, of which at most one is set.
  function OneHot(ant: nat): nat { if ant == 1 then 4 else if ant == 2 then 2 else if ant == 3 then 1 else 0 }

  function TxOneHot(ant: nat): nat { if ant == 2 then 4 else if ant == 1 then 2 else if ant == 0 then 1 else 0 }

  lemma HighPassBits(h: nat)
    requires h < 64
    ensures h / 32 % 2 * 32 + h / 4 % 8 * 4 + h % 4 == h
  {
  }

  lemma LowPassBits(l: nat)
    requires l < 128
    ensures l / 16 % 8 * 16 + l % 16 == l
  {
  }

  // The filters that the boards find in their words.
  function HighPassOf(w: nat): nat { w / 0x1000 % 2 * 32 + w / 16 % 8 * 4 + w / 2 % 4 }

  function LowPassOf(w: nat): nat { w / 0x2000 * 16 + w / 16 % 16 }

  // Main result: the receive word is never zero and gives back what it was made of.
  lemma RxFields(s: Settings)
    ensures var w := RxWord(s);
      && 0 < w < 0x1_0000 && w / 0x8000 == Bit(Ptt(s))
      && w / 0x1000 % 2 * 32 + w / 16 % 8 * 4 + w / 2 % 4 == HighPass(s)
      && w / 8 % 2 == Bit(Preamp(s)) && w / 0x100 % 8 == OneHot(s.alex0 / 32 % 4)
      && w / 0x4000 % 2 == s.alex0 / 2 % 2 && w / 0x2000 % 2 == s.alex0 / 4 % 2 && w / 0x800 % 2 == s.alex0 / 128 % 2
  {
    hide HighPass, Preamp, Ptt, RxSum, OneHot;
    RxSumFields(Bit(Ptt(s)), s.alex0 / 2 % 2, s.alex0 / 4 % 2, HighPass(s), s.alex0 / 128 % 2, s.alex0 / 32 % 4,
      Bit(Preamp(s)));
    HighPassBits(HighPass(s));
  }

  lemma RxSumFields(p: nat, a: nat, b: nat, h: nat, c: nat, ant: nat, pre: nat)
    requires p < 2 && a < 2 && b < 2 && c < 2 && pre < 2
    ensures var w := RxSum(p, a, b, h, c, ant, pre);
      && 0 < w < 0x1_0000 && w / 0x8000 == p
      && w / 0x1000 % 2 == h / 32 % 2 && w / 16 % 8 == h / 4 % 8 && w / 2 % 4 == h % 4
      && w / 8 % 2 == pre && w / 0x100 % 8 == OneHot(ant)
      && w / 0x4000 % 2 == a && w / 0x2000 % 2 == b && w / 0x800 % 2 == c
  {
    RxPlaces(p, a, b, h / 32 % 2, c, OneHot(ant), h / 4 % 8, pre, h % 4);
  }

  lemma RxPlaces(p: nat, a: nat, b: nat, h5: nat, c: nat, x: nat, h2: nat, pre: nat, h0: nat)
    requires p < 2 && a < 2 && b < 2 && h5 < 2 && c < 2 && x < 8 && h2 < 8 && pre < 2 && h0 < 4
    ensures var w := p * 0x8000 + a * 0x4000 + b * 0x2000 + h5 * 0x1000 + c * 0x800 + x * 0x100 + h2 * 16 + pre * 8
      + h0 * 2 + 1;
      && 0 < w < 0x1_0000 && w / 0x8000 == p && w / 0x1000 % 2 == h5 && w / 16 % 8 == h2 && w / 2 % 4 == h0
      && w / 8 % 2 == pre && w / 0x100 % 8 == x
      && w / 0x4000 % 2 == a && w / 0x2000 % 2 == b && w / 0x800 % 2 == c
  {
    var low := h2 * 16 + pre * 8 + h0 * 2 + 1;
    var top := p * 8 + a * 4 + b * 2 + h5;
    var w := top * 0x1000 + c * 0x800 + x * 0x100 + low;
    assert w / 0x8000 == p by {
      Field(w, 0, 2, p, 0x8000, (a * 4 + b * 2 + h5) * 0x1000 + c * 0x800 + x * 0x100 + low);
    }
    assert w / 0x4000 % 2 == a by { Field(w, p, 2, a, 0x4000, (b * 2 + h5) * 0x1000 + c * 0x800 + x * 0x100 + low); }
    assert w / 0x2000 % 2 == b by { Field(w, p * 2 + a, 2, b, 0x2000, h5 * 0x1000 + c * 0x800 + x * 0x100 + low); }
    assert w / 0x800 % 2 == c by { Field(w, top, 2, c, 0x800, x * 0x100 + low); }
    assert w / 0x1000 % 2 == h5 by { Field(w, p * 4 + a * 2 + b, 2, h5, 0x1000, c * 0x800 + x * 0x100 + low); }
    assert w / 0x100 % 8 == x by { Field(w, top * 2 + c, 8, x, 0x100, low); }
    assert w / 16 % 8 == h2 by { Field(w, (top * 16 + c * 8 + x) * 2, 8, h2, 16, pre * 8 + h0 * 2 + 1); }
    assert w / 8 % 2 == pre by { Field(w, (top * 16 + c * 8 + x) * 16 + h2, 2, pre, 8, h0 * 2 + 1); }
    assert w / 2 % 4 == h0 by { Field(w, ((top * 16 + c * 8 + x) * 16 + h2) * 2 + pre, 4, h0, 2, 1); }
  }

  // Main result: the transmit word likewise; it keys the transmitter only with the transmit bit.
  lemma TxFields(s: Settings)
    ensures var w := TxWord(s);
      && 0 < w < 0x1_0000 && w / 0x1000 % 2 == Bit(Ptt(s))
      && w / 0x2000 * 16 + w / 16 % 16 == LowPass(s)
      && w / 0x800 % 2 == Bit(Ptt(s) && s.alex1 / 128 % 2 == 0)
      && w / 0x100 % 8 == TxOneHot(s.alex0 / 256 % 4)
  {
    hide LowPass, Ptt, TxSum, TxOneHot;
    TxSumFields(LowPass(s), Bit(Ptt(s)), Bit(Ptt(s) && s.alex1 / 128 % 2 == 0), s.alex0 / 256 % 4);
    LowPassBits(LowPass(s));
  }

  lemma TxSumFields(l: nat, p: nat, t: nat, ant: nat)
    requires p < 2 && t < 2
    ensures var w := TxSum(l, p, t, ant);
      && 0 < w < 0x1_0000 && w / 0x2000 == l / 16 % 8 && w / 0x1000 % 2 == p && w / 0x800 % 2 == t
      && w / 16 % 16 == l % 16
      && w / 0x100 % 8 == TxOneHot(ant)
  {
    TxPlaces(l / 16 % 8, p, t, TxOneHot(ant), l % 16);
  }

  lemma TxPlaces(l4: nat, p: nat, t: nat, x: nat, l0: nat)
    requires l4 < 8 && p < 2 && t < 2 && x < 8 && l0 < 16
    ensures var w := l4 * 0x2000 + p * 0x1000 + t * 0x800 + x * 0x100 + l0 * 16 + 8;
      && 0 < w < 0x1_0000 && w / 0x1000 % 2 == p && w / 0x2000 == l4 && w / 16 % 16 == l0 && w / 0x800 % 2 == t
      && w / 0x100 % 8 == x
  {
    var w := l4 * 0x2000 + p * 0x1000 + t * 0x800 + x * 0x100 + l0 * 16 + 8;
    assert w / 0x2000 == l4 by { Field(w, 0, 8, l4, 0x2000, p * 0x1000 + t * 0x800 + x * 0x100 + l0 * 16 + 8); }
    assert w / 0x1000 % 2 == p by { Field(w, l4, 2, p, 0x1000, t * 0x800 + x * 0x100 + l0 * 16 + 8); }
    assert w / 0x800 % 2 == t by { Field(w, l4 * 2 + p, 2, t, 0x800, x * 0x100 + l0 * 16 + 8); }
    assert w / 0x100 % 8 == x by { Field(w, l4 * 4 + p * 2 + t, 8, x, 0x100, l0 * 16 + 8); }
    assert w / 16 % 16 == l0 by { Field(w, l4 * 32 + p * 16 + t * 8 + x, 16, l0, 16, 8); }
  }
}

/** What control frames set, independently of any caching. */
module RadioFrames {
  import opened Widths
  import opened Arith
  import opened RadioWords

  function Frequency(f: Frame): nat { f[1] as int * 0x100_0000 + f[2] as int * 0x1_0000 + f[3] as int * 0x100 + f[4] }

  predicate Tunes(f: Frame) { Frequency(f) <= FREQ_MAX }

  // The frame holds the number hz in network order.
  predicate Carries(f: Frame, hz: nat)
  {
    f[4] == hz % 256 && f[3] == hz / 256 % 256 && f[2] == hz / 0x1_0000 % 256 && f[1] == hz / 0x100_0000
  }

  // The frequency of a frame, place by place.
  lemma FrequencyPlaces(f: Frame)
    ensures Frequency(f) % 256 == f[4] && Frequency(f) / 256 % 256 == f[3]
    ensures Frequency(f) / 0x1_0000 % 256 == f[2] && Frequency(f) / 0x100_0000 == f[1]
  {
    FourPlaces(f[1], f[2], f[3], f[4]);
  }

  // Every frame carries one number, which is its frequency.
  lemma FrequencyIs(f: Frame, hz: nat)
    ensures Carries(f, hz) <==> Frequency(f) == hz
  {
    FourPlaces(f[1], f[2], f[3], f[4]);
    NumberOfPlaces(hz);
  }

  lemma FourPlaces(a: nat, b: byte, c: byte, d: byte)
    ensures var v := a * 0x100_0000 + b * 0x1_0000 + c * 0x100 + d;
      v % 256 == d && v / 256 % 256 == c && v / 0x1_0000 % 256 == b && v / 0x100_0000 == a
  {
    var v := a * 0x100_0000 + b * 0x1_0000 + c * 0x100 + d;
    UniqueDivMod(v, 256, a * 0x1_0000 + b * 0x100 + c, d);
    Field(v, a * 256 + b, 256, c, 256, d);
    Field(v, a, 256, b, 0x1_0000, c * 256 + d);
    UniqueDivMod(v, 0x100_0000, a, b * 0x1_0000 + c * 256 + d);
  }

  lemma NumberOfPlaces(hz: nat)
    ensures hz == hz / 0x100_0000 * 0x100_0000 + hz / 0x1_0000 % 256 * 0x1_0000 + hz / 256 % 256 * 0x100 + hz % 256
  {
    var a := hz / 256;
    var b := a / 256;
    UniqueDivMod(hz, 0x1_0000, b, a % 256 * 256 + hz % 256);
    UniqueDivMod(hz, 0x100_0000, b / 256, b % 256 * 0x1_0000 + a % 256 * 256 + hz % 256);
  }

  // The second receiver is tuned by another frame type in the variant for Thetis.
  predicate TunesSecond(s: Settings, f: Frame, thetis: bool)
  {
    Tunes(f) && if thetis then 8 <= f[0] <= 9 else 6 <= f[0] <= 7 && !s.sync
  }

  function Alex0(f: Frame): (w: uint16)
    ensures w < 0x400
  {
    f[4] as int % 4 * 0x100 + f[3] / 32 * 32 + f[3] % 4 * 2 + f[0] % 2
  }

  // Bit 15 comes from frame byte 2 or from the top bit of frame byte 4.
  function Alex1(f: Frame): uint16
  {
    Bit(f[2] / 64 % 2 == 1 || f[4] / 128 == 1) * 0x8000 + f[4] as int % 128 * 0x100 + f[3]
  }

  function Accept(s: Settings, f: Frame, hasMisc: bool, thetis: bool): Settings
  {
    match f[0]
    case 0 | 1 => s.(sync := f[4] / 128 == 1, alex0 := Alex0(f))
    case 2 | 3 => if Tunes(f) then s.(tx := Frequency(f)) else s
    case 4 | 5 => if Tunes(f) then s.(rx1 := Frequency(f)) else s
    case 6 | 7 | 8 | 9 => if TunesSecond(s, f, thetis) then s.(rx2 := Frequency(f)) else s
    case 18 | 19 => s.(alex1 := Alex1(f), misc2 := if hasMisc then f[3] / 128 * 2 + f[3] / 32 % 2 else s.misc2)
    case 20 | 21 => if hasMisc then s.(misc0 := f[4] % 32) else s
    case 22 | 23 => if hasMisc then s.(misc1 := f[1] % 32) else s
    case _ => s
  }

  // What the main loop finds in a datagram: a control frame, or the command that starts
  // the stream and takes the receivers out of synchronous tuning.
  datatype Event = Control(f: Frame) | Start

  function Handle(s: Settings, e: Event, hasMisc: bool, thetis: bool): Settings
  {
    match e
    case Control(f) => Accept(s, f, hasMisc, thetis)
    case Start => s.(sync := false)
  }

  function After(s: Settings, events: seq<Event>, hasMisc: bool, thetis: bool): Settings
  {
    if events == [] then s
    else Handle(After(s, events[..|events| - 1], hasMisc, thetis), events[|events| - 1], hasMisc, thetis)
  }

  // Main result: a frame that carries a frequency in range sets exactly that one, and one that
  // carries any other number sets none.
  lemma TunesExactly(s: Settings, f: Frame, hz: nat, hasMisc: bool, thetis: bool)
    requires Carries(f, hz) && 2 <= f[0] <= 9
    ensures var t := Accept(s, f, hasMisc, thetis);
      if hz > FREQ_MAX then t == s
      else if f[0] <= 3 then t == s.(tx := hz)
      else if f[0] <= 5 then t == s.(rx1 := hz)
      else if (f[0] <= 7 && !thetis && !s.sync) || (f[0] >= 8 && thetis) then t == s.(rx2 := hz)
      else t == s
  {
    FrequencyIs(f, hz);
    hide Frequency, Carries, Alex0, Alex1;
  }

  // Main result: what a frame of type 0 or 1 says of the antennas, the attenuator and the
  // transmitter reaches both boards, bit by bit.
  lemma AntennaFrame(s: Settings, f: Frame, hasMisc: bool, thetis: bool)
    requires f[0] <= 1
    ensures var t := Accept(s, f, hasMisc, thetis);
      && (t.sync <==> f[4] >= 128) && t == s.(sync := t.sync, alex0 := t.alex0)
      && RxWord(t) / 0x8000 == f[0] && RxWord(t) / 0x4000 % 2 == f[3] % 2 && RxWord(t) / 0x2000 % 2 == f[3] / 2 % 2
      && RxWord(t) / 0x800 % 2 == f[3] / 128 && RxWord(t) / 0x100 % 8 == [0, 4, 2, 1][f[3] / 32 % 4]
      && TxWord(t) / 0x1000 % 2 == f[0] && TxWord(t) / 0x100 % 8 == [1, 2, 4, 0][f[4] % 4]
  {
    hide RxWord, TxWord, OneHot, TxOneHot, HighPass, LowPass, Preamp, Manual;
    var t := Accept(s, f, hasMisc, thetis);
    RxFields(t);
    TxFields(t);
    Antennas(f[3] / 32 % 4);
    Antennas(f[4] % 4);
    AntennaBits(s, f, hasMisc, thetis);
  }

  lemma AntennaBits(s: Settings, f: Frame, hasMisc: bool, thetis: bool)
    requires f[0] <= 1
    ensures var t := Accept(s, f, hasMisc, thetis);
      && (t.sync <==> f[4] >= 128) && t == s.(sync := t.sync, alex0 := t.alex0)
      && Bit(Ptt(t)) == f[0] && t.alex0 / 2 % 2 == f[3] % 2 && t.alex0 / 4 % 2 == f[3] / 2 % 2
      && t.alex0 / 32 % 4 == f[3] / 32 % 4 && t.alex0 / 128 % 2 == f[3] / 128 && t.alex0 / 256 % 4 == f[4] % 4
  {
    hide Frequency, Alex1;
    ByteParts(f[4]);
    Alex0Places(f[4] as int % 4, f[3] / 32, f[3] % 4, f[0] % 2, f[3]);
  }

  lemma Antennas(a: nat)
    requires a < 4
    ensures OneHot(a) == [0, 4, 2, 1][a] && TxOneHot(a) == [1, 2, 4, 0][a]
  {
  }

  lemma Alex0Places(tx: nat, upper: nat, lower: nat, ptt: nat, b: byte)
    requires tx < 4 && upper == b / 32 && lower == b % 4 && ptt < 2
    ensures var w := tx * 0x100 + upper * 32 + lower * 2 + ptt;
      && w % 2 == ptt && w / 2 % 2 == b % 2 && w / 4 % 2 == b / 2 % 2 && w / 32 % 4 == b / 32 % 4
      && w / 128 % 2 == b / 128 && w / 256 % 4 == tx
  {
    var top, ant, l1, l0 := b / 128, b / 32 % 4, b / 2 % 2, b % 2;
    var w := tx * 0x100 + upper * 32 + lower * 2 + ptt;
    ByteParts(b);
    assert w == tx * 0x100 + top * 128 + ant * 32 + l1 * 4 + l0 * 2 + ptt;
    UniqueDivMod(w, 2, tx * 128 + top * 64 + ant * 16 + l1 * 2 + l0, ptt);
    Field(w, tx * 64 + top * 32 + ant * 8 + l1, 2, l0, 2, ptt);
    Field(w, tx * 32 + top * 16 + ant * 4, 2, l1, 4, l0 * 2 + ptt);
    Field(w, tx * 2 + top, 4, ant, 32, l1 * 4 + l0 * 2 + ptt);
    Field(w, tx, 2, top, 128, ant * 32 + l1 * 4 + l0 * 2 + ptt);
    Field(w, 0, 4, tx, 256, top * 128 + ant * 32 + l1 * 4 + l0 * 2 + ptt);
  }

  lemma ByteParts(b: byte)
    ensures b / 32 == b / 128 * 4 + b / 32 % 4 && b % 4 == b / 2 % 2 * 2 + b % 2
    ensures b == (b / 128 * 2 + b / 64 % 2) * 64 + b % 64 && b % 32 / 8 % 4 == b / 8 % 4
    ensures b / 128 < 2 && (b / 128 == 1 <==> b >= 128)
  {
    var u, v, w := b / 32, b / 64, b % 32;
    UniqueDivMod(b, 128, u / 4, u % 4 * 32 + w);
    UniqueDivMod(b, 128, v / 2, v % 2 * 64 + b % 64);
    Field(b, u, 4, w / 8, 8, w % 8);
    UniqueDivMod(b, 2, b / 4 * 2 + b % 4 / 2, b % 4 % 2);
    Field(b, b / 4, 2, b % 4 / 2, 2, b % 4 % 2);
  }

  // Main result: so does what a frame of type 18 or 19 says of the filters, which it leaves to
  // the automatic choice exactly when two of its bits are clear.
  lemma FilterFrame(s: Settings, f: Frame, hasMisc: bool, thetis: bool)
    requires 18 <= f[0] <= 19
    ensures var t := Accept(s, f, hasMisc, thetis);
      && t == s.(alex1 := t.alex1, misc2 := t.misc2)
      && (Manual(t) <==> f[2] / 64 % 2 == 1 || f[4] >= 128)
      && (Manual(t) ==> RxWord(t) / 8 % 2 == f[3] / 64 % 2)
      && (Manual(t) ==> HighPassOf(RxWord(t)) == if f[3] / 64 % 2 == 1 then 0 else f[3] % 64)
      && (Manual(t) ==> LowPassOf(TxWord(t)) == f[4] % 128)
      && (TxWord(t) / 0x800 % 2 == 1 <==> Ptt(s) && f[3] < 128)
      && MiscWord(t) / 8192 == if hasMisc then f[3] / 128 * 2 + f[3] / 32 % 2 else s.misc2 % 4
  {
    hide RxWord, TxWord, MiscWord, OneHot, TxOneHot, BandCode, Preamp, HighPass, LowPass, Manual;
    var t := Accept(s, f, hasMisc, thetis);
    ManualAfter(s, f, hasMisc, thetis);
    RxFields(t);
    TxFields(t);
    MiscFields(t);
    FilterBits(s, f, hasMisc, thetis);
    if Manual(t) {
      ManualFilters(t);
    }
  }

  lemma FilterBits(s: Settings, f: Frame, hasMisc: bool, thetis: bool)
    requires 18 <= f[0] <= 19
    ensures var t := Accept(s, f, hasMisc, thetis);
      && t == s.(alex1 := t.alex1, misc2 := t.misc2)
      && t.alex1 / 256 % 128 == f[4] % 128 && t.alex1 % 64 == f[3] % 64
      && t.alex1 / 64 % 2 == f[3] / 64 % 2 && (t.alex1 / 128 % 2 == 0 <==> f[3] < 128)
      && t.misc2 % 4 == (if hasMisc then f[3] / 128 * 2 + f[3] / 32 % 2 else s.misc2 % 4)
  {
    hide Frequency, Alex0, Alex1;
    Alex1Bits(f);
    MiscBits(f[3]);
  }

  lemma Alex1Bits(f: Frame)
    ensures Alex1(f) / 256 % 128 == f[4] % 128 && Alex1(f) % 64 == f[3] % 64
    ensures Alex1(f) / 64 % 2 == f[3] / 64 % 2 && (Alex1(f) / 128 % 2 == 0 <==> f[3] < 128)
  {
    ByteParts(f[3]);
    Alex1Places(Bit(f[2] / 64 % 2 == 1 || f[4] / 128 == 1), f[4] as int % 128, f[3]);
  }

  lemma MiscBits(b: byte)
    ensures 0 <= b / 128 * 2 + b / 32 % 2 < 4
  {
  }

  lemma ManualFilters(s: Settings)
    requires Manual(s)
    ensures Preamp(s) <==> s.alex1 / 64 % 2 == 1
    ensures HighPass(s) == if Preamp(s) then 0 else s.alex1 % 64
    ensures LowPass(s) == s.alex1 / 256 % 128
  {
  }

  lemma Alex1Places(top: nat, l: nat, b: byte)
    requires top < 2 && l < 128
    ensures var w := top * 0x8000 + l * 0x100 + b;
      w / 256 % 128 == l && w % 64 == b % 64 && w / 64 % 2 == b / 64 % 2 && w / 128 % 2 == b / 128
  {
    var w, c, d, e := top * 0x8000 + l * 0x100 + b, b / 128, b / 64 % 2, b % 64;
    ByteParts(b);
    Field(w, top, 128, l, 256, b);
    UniqueDivMod(w, 64, top * 512 + l * 4 + c * 2 + d, e);
    Field(w, top * 256 + l * 2 + c, 2, d, 64, e);
    Field(w, top * 128 + l, 2, c, 128, d * 64 + e);
  }

  // Main result: the attenuators of the two receivers reach the accessory bus, where there is one.
  lemma AttenuatorFrame(s: Settings, f: Frame, thetis: bool)
    requires 20 <= f[0] <= 23
    ensures var t := Accept(s, f, true, thetis);
      && Accept(s, f, false, thetis) == s && t == s.(misc0 := t.misc0, misc1 := t.misc1)
      && MiscWord(t) / 512 % 4 == (if f[0] <= 21 then f[4] / 8 % 4 else s.misc0 / 8 % 4)
      && MiscWord(t) / 2048 % 4 == (if f[0] <= 21 then s.misc1 / 8 % 4 else f[1] / 8 % 4)
  {
    hide MiscWord, BandCode, Frequency, Alex0, Alex1;
    var t := Accept(s, f, true, thetis);
    MiscFields(t);
    ByteParts(f[4]);
    ByteParts(f[1]);
  }

  // Manual filters are on after a frame exactly when either of two bits is set.
  lemma ManualAfter(s: Settings, f: Frame, hasMisc: bool, thetis: bool)
    requires 18 <= f[0] <= 19
    ensures Manual(Accept(s, f, hasMisc, thetis)) <==> f[2] / 64 % 2 == 1 || f[4] / 128 == 1
  {
    UniqueDivMod(Alex1(f), 0x8000, Bit(f[2] / 64 % 2 == 1 || f[4] / 128 == 1), f[4] as int % 128 * 0x100 + f[3]);
  }

  // So the bit meant for it does not decide alone: here it is clear.
  lemma ManualWithoutItsBit(s: Settings)
    ensures var f: Frame := [18, 0, 0, 0, 0x80];
      f[2] / 64 % 2 == 0 && Manual(Accept(s, f, false, false))
  {
    ManualAfter(s, [18, 0, 0, 0, 0x80], false, false);
  }

  // The keyer can only add the transmit bit.
  function WithPtt(s: Settings, cwPtt: bool): Settings
  {
    if cwPtt && !Ptt(s) then s.(alex0 := s.alex0 + 1) else s
  }

  lemma PttAdded(s: Settings, cwPtt: bool)
    ensures Ptt(WithPtt(s, cwPtt)) <==> Ptt(s) || cwPtt
    ensures WithPtt(s, cwPtt).alex0 / 2 == s.alex0 / 2
  {
  }

  // Main result: with the key down both words carry the transmit bit, whatever the frames said.
  lemma KeyReachesBoards(s: Settings)
    ensures RxWord(WithPtt(s, true)) / 0x8000 == 1 && TxWord(WithPtt(s, true)) / 0x1000 % 2 == 1
  {
    hide RxWord, TxWord, HighPass, LowPass, Preamp, OneHot;
    var t := WithPtt(s, true);
    PttAdded(s, true);
    RxFields(t);
    TxFields(t);
  }

  // Events that carry a frequency in range for the transmitter, or for the first receiver.
  predicate TxFrame(e: Event, hz: nat) { e.Control? && 2 <= e.f[0] <= 3 && Carries(e.f, hz) && hz <= FREQ_MAX }

  predicate Rx1Frame(e: Event, hz: nat) { e.Control? && 4 <= e.f[0] <= 5 && Carries(e.f, hz) && hz <= FREQ_MAX }

  predicate SetsTx(e: Event) { e.Control? && 2 <= e.f[0] <= 3 && Tunes(e.f) }

  predicate SetsRx1(e: Event) { e.Control? && 4 <= e.f[0] <= 5 && Tunes(e.f) }

  predicate SetsRx2(s: Settings, e: Event, thetis: bool) { e.Control? && TunesSecond(s, e.f, thetis) }

  // Event j, coming after those before it, tunes the second receiver.
  predicate TunedSecond(s: Settings, events: seq<Event>, j: nat, hasMisc: bool, thetis: bool)
    requires j < |events|
  {
    SetsRx2(After(s, events[..j], hasMisc, thetis), events[j], thetis)
  }

  // Main result: the transmit and the first receive frequency are those of the last frame
  // in range that carried them.
  lemma LastFrameWins(s: Settings, events: seq<Event>, i: nat, hz: nat, hasMisc: bool, thetis: bool)
    requires i < |events|
    ensures TxFrame(events[i], hz) && (forall j, h: nat :: i < j < |events| ==> !TxFrame(events[j], h))
      ==> After(s, events, hasMisc, thetis).tx == hz
    ensures Rx1Frame(events[i], hz) && (forall j, h: nat :: i < j < |events| ==> !Rx1Frame(events[j], h))
      ==> After(s, events, hasMisc, thetis).rx1 == hz
  {
    hide Frequency, Carries, After;
    LastSetWins(s, events, i, hasMisc, thetis);
    FrequencyIs(if events[i].Control? then events[i].f else [0, 0, 0, 0, 0], hz);
    forall j | i < j < |events| && events[j].Control?
      ensures SetsTx(events[j]) ==> TxFrame(events[j], Frequency(events[j].f))
      ensures SetsRx1(events[j]) ==> Rx1Frame(events[j], Frequency(events[j].f))
    {
      FrequencyIs(events[j].f, Frequency(events[j].f));
    }
  }

  lemma {:induction false} LastSetWins(s: Settings, events: seq<Event>, i: nat, hasMisc: bool, thetis: bool)
    requires i < |events|
    ensures SetsTx(events[i]) && (forall j :: i < j < |events| ==> !SetsTx(events[j]))
      ==> After(s, events, hasMisc, thetis).tx == Frequency(events[i].f)
    ensures SetsRx1(events[i]) && (forall j :: i < j < |events| ==> !SetsRx1(events[j]))
      ==> After(s, events, hasMisc, thetis).rx1 == Frequency(events[i].f)
    decreases |events|
  {
    hide Frequency, Alex0, Alex1, TunesSecond;
    if i >= |events| - 1 {
    } else {
      LastSetWins(s, events[..|events| - 1], i, hasMisc, thetis);
    }
  }

  // Synchronous tuning, which keeps the second receiver from being tuned, is what the last start
  // or frame of type 0 or 1 makes it.
  predicate DecidesSync(e: Event) { e.Start? || e.f[0] <= 1 }

  lemma {:induction false} LastSyncWins(s: Settings, events: seq<Event>, i: nat, hasMisc: bool, thetis: bool)
    requires i < |events| && DecidesSync(events[i]) && forall j :: i < j < |events| ==> !DecidesSync(events[j])
    ensures After(s, events, hasMisc, thetis).sync <==> events[i].Control? && events[i].f[4] >= 128
    decreases |events|
  {
    hide Frequency, Alex0, Alex1;
    if i >= |events| - 1 {
    } else {
      LastSyncWins(s, events[..|events| - 1], i, hasMisc, thetis);
    }
  }

  lemma SecondStep(s: Settings, e: Event, hasMisc: bool, thetis: bool)
    ensures Handle(s, e, hasMisc, thetis).rx2 == if SetsRx2(s, e, thetis) then Frequency(e.f) else s.rx2
  {
    hide Frequency, Alex0, Alex1;
  }

  // Main result: the second receive frequency is that of the last frame that came while the
  // second receiver could be tuned.
  lemma {:induction false} LastSecondWins(s: Settings, events: seq<Event>, i: nat, hz: nat, hasMisc: bool,
      thetis: bool)
    requires i < |events| && TunedSecond(s, events, i, hasMisc, thetis) && Carries(events[i].f, hz)
    requires forall j: nat :: i < j < |events| ==> !TunedSecond(s, events, j, hasMisc, thetis)
    ensures After(s, events, hasMisc, thetis).rx2 == hz
    decreases |events|
  {
    FrequencyIs(events[i].f, hz);
    hide Frequency, Carries, Handle, SetsRx2;
    var n := |events| - 1;
    SecondStep(After(s, events[..n], hasMisc, thetis), events[n], hasMisc, thetis);
    if i >= n {
    } else {
      assert !TunedSecond(s, events, n, hasMisc, thetis);
      forall j: nat | j < n
        ensures TunedSecond(s, events[..n], j, hasMisc, thetis) == TunedSecond(s, events, j, hasMisc, thetis)
      {
        assert events[..n][..j] == events[..j];
      }
      LastSecondWins(s, events[..n], i, hz, hasMisc, thetis);
    }
  }
}

/** The transceiver's shadow registers: words are recomputed only when a flag says so
    and written only when they differ from the last ones written. */
module RadioCache {
  import opened Widths
  import opened LowerBound
  import opened RadioFrames
  import opened RadioWords
  import opened Samples

  // A write to the filter register: a receive or a transmit word.
  datatype AlexWrite = ToRx(data: nat) | ToTx(data: nat)

  // What the filter boards hold after the writes.
  function RxLatch(log: seq<AlexWrite>): Option<nat>
  {
    if log == [] then None
    else if log[|log| - 1].ToRx? then Some(log[|log| - 1].data)
    else RxLatch(log[..|log| - 1])
  }

  function TxLatch(log: seq<AlexWrite>): Option<nat>
  {
    if log == [] then None
    else if log[|log| - 1].ToTx? then Some(log[|log| - 1].data)
    else TxLatch(log[..|log| - 1])
  }

  // No write repeats what its board already holds.
  predicate NoRepeats(log: seq<AlexWrite>)
  {
    log != [] ==>
      var last, rest := log[|log| - 1], log[..|log| - 1];
      && NoRepeats(rest)
      && (if last.ToRx? then RxLatch(rest) else TxLatch(rest)) != Some(last.data)
  }

  lemma RxWritten(log: seq<AlexWrite>, w: nat)
    requires NoRepeats(log) && RxLatch(log) != Some(w)
    ensures RxLatch(log + [ToRx(w)]) == Some(w) && TxLatch(log + [ToRx(w)]) == TxLatch(log)
      && NoRepeats(log + [ToRx(w)])
  {
    assert (log + [ToRx(w)])[..|log|] == log;
  }

  lemma TxWritten(log: seq<AlexWrite>, w: nat)
    requires NoRepeats(log) && TxLatch(log) != Some(w)
    ensures TxLatch(log + [ToTx(w)]) == Some(w) && RxLatch(log + [ToTx(w)]) == RxLatch(log)
      && NoRepeats(log + [ToTx(w)])
  {
    assert (log + [ToTx(w)])[..|log|] == log;
  }

  lemma WordsAreNotZero(s: Settings)
    ensures RxWord(s) != 0 && TxWord(s) != 0
  {
    RxFields(s);
    TxFields(s);
  }

  // What is on the accessory bus after the writes, starting from zero.
  function OnBus(log: seq<nat>): nat { if log == [] then 0 else log[|log| - 1] }

  predicate Changing(log: seq<nat>)
  {
    forall i :: 0 <= i < |log| ==> log[i] != OnBus(log[..i])
  }

  lemma BusWritten(log: seq<nat>, w: nat)
    requires Changing(log) && OnBus(log) != w
    ensures Changing(log + [w]) && OnBus(log + [w]) == w
  {
    var all := log + [w];
    forall i | 0 <= i < |all|
      ensures all[i] != OnBus(all[..i])
    {
      assert all[..i] == log[..i];
      if i == |log| {
        assert log[..i] == log;
      }
    }
  }

  // The cached word 0 stands for a board that was never written.
  predicate Caches(latch: Option<nat>, cached: nat)
  {
    latch == if cached == 0 then None else Some(cached)
  }

  // Settings that the filter words depend on.
  predicate FiltersReset(s: Settings) { s.tx == s.rx1 == s.rx2 == s.alex0 == s.alex1 == 0 }

  // The accessory word depends on the frequencies and on its own registers only.
  lemma MiscIgnores(s: Settings, t: Settings)
    requires s.tx == t.tx && s.rx1 == t.rx1 && s.rx2 == t.rx2
    requires s.misc0 == t.misc0 && s.misc1 == t.misc1 && s.misc2 == t.misc2
    ensures MiscWord(s) == MiscWord(t)
  {
  }

  // The filter words depend on the frequencies and on their own registers only.
  lemma FiltersIgnore(s: Settings, t: Settings)
    requires s.tx == t.tx && s.rx1 == t.rx1 && s.rx2 == t.rx2 && s.alex0 == t.alex0 && s.alex1 == t.alex1
    ensures RxWord(s) == RxWord(t) && TxWord(s) == TxWord(t)
  {
    hide RxSum, TxSum;
  }

  lemma NothingLogged(r: Radio)
    requires r.alexDataRx == r.alexDataTx == r.i2cMiscData == 0 && r.alexLog == [] && r.miscLog == []
    ensures r.Logged()
  {
  }

  class Radio {
    const hasMisc: bool
    const hasCodec: bool
    const thetis: bool
    const freqData: array<Hertz>
    var alexData0: uint16
    var alexData1: uint16
    var alexUpdate: bool
    var alexDataRx: nat
    var alexDataTx: nat
    var miscData0: uint16
    var miscData1: uint16
    var miscData2: uint16
    var miscUpdate: bool
    var i2cMiscData: nat
    var rxSync: bool
    var alexLog: seq<AlexWrite>
    var miscLog: seq<nat>

    // What the fields say has been set.
    function Now(): Settings
      reads this, freqData
      requires freqData.Length == 3
    {
      Settings(freqData[0], freqData[1], freqData[2], alexData0, alexData1, miscData0, miscData1, miscData2, rxSync)
    }

    // The logs agree with the caches and never repeat a word.
    ghost predicate Logged()
      reads this`alexLog, this`alexDataRx, this`alexDataTx, this`miscLog, this`i2cMiscData
    {
      && NoRepeats(alexLog) && Caches(RxLatch(alexLog), alexDataRx) && Caches(TxLatch(alexLog), alexDataTx)
      && Changing(miscLog) && i2cMiscData == OnBus(miscLog)
    }

    // A clear flag means that the cached words are those of the settings.
    ghost predicate Valid()
      reads this, freqData
    {
      && freqData.Length == 3
      && Logged()
      && (if hasMisc then !miscUpdate ==> i2cMiscData == MiscWord(Now()) else !miscUpdate && miscLog == [])
      && (hasCodec ==> alexLog == [])
      && (!hasCodec && !alexUpdate ==> FiltersAgree())
    }

    ghost predicate FiltersAgree()
      reads this, freqData
      requires freqData.Length == 3
    {
      if alexDataRx == 0 then alexDataTx == 0 && FiltersReset(Now())
      else alexDataRx == RxWord(Now()) && alexDataTx == TxWord(Now())
    }

    constructor (hasMisc: bool, hasCodec: bool, thetis: bool)
      ensures Valid() && fresh(freqData) && Now() == RESET && alexLog == [] && miscLog == []
      ensures this.hasMisc == hasMisc && this.hasCodec == hasCodec && this.thetis == thetis
    {
      this.hasMisc, this.hasCodec, this.thetis := hasMisc, hasCodec, thetis;
      freqData := new Hertz[3];
      alexData0, alexData1, alexUpdate, alexDataRx, alexDataTx := 0, 0, false, 0, 0;
      miscData0, miscData1, miscData2, miscUpdate, i2cMiscData := 0, 0, 0, false, 0;
      rxSync, alexLog, miscLog := false, [], [];
      new;
      freqData[0], freqData[1], freqData[2] := 0, 0, 0;
      hide MiscWord, RxWord, TxWord, NoRepeats, Changing, RxLatch, TxLatch, OnBus, Logged, FiltersAgree;
      AllClear();
    }

    lemma AllClear()
      requires freqData.Length == 3 && freqData[0] == freqData[1] == freqData[2] == 0
      requires alexData0 == alexData1 == miscData0 == miscData1 == miscData2 == 0 && !rxSync
      requires alexDataRx == alexDataTx == i2cMiscData == 0 && alexLog == [] && miscLog == []
      requires !miscUpdate
      ensures Valid() && Now() == RESET
    {
      hide MiscWord, RxWord, TxWord, Logged;
      ResetMisc(Now());
      assert Logged() by { NothingLogged(this); }
    }

    // The filter words, unless a codec takes the place of the filters.
    method AlexWrite()
      requires freqData.Length == 3 && Logged()
      modifies this`alexDataRx, this`alexDataTx, this`alexLog
      ensures Logged()
      ensures |alexLog| <= |old(alexLog)| + 2
      ensures hasCodec ==> alexLog == old(alexLog) && alexDataRx == old(alexDataRx) && alexDataTx == old(alexDataTx)
      ensures !hasCodec ==> alexDataRx == RxWord(Now()) != 0 && alexDataTx == TxWord(Now()) != 0
    {
      hide RxWord, TxWord, NoRepeats, RxLatch, TxLatch, Changing, OnBus;
      if hasCodec { return; }
      WordsAreNotZero(Now());
      var data := RxWord(Now());
      if alexDataRx != data {
        RxWritten(alexLog, data);
        alexDataRx := data;
        alexLog := alexLog + [ToRx(data)];
      }
      data := TxWord(Now());
      if alexDataTx != data {
        TxWritten(alexLog, data);
        alexDataTx := data;
        alexLog := alexLog + [ToTx(data)];
      }
    }

    method FindBand(freqs: array<int>, freq: Hertz) returns (code: nat)
      requires freqs[..] == FREQS
      ensures code == BandCode(freq)
    {
      FreqsSorted();
      hide FREQS, Sorted;
      assert freqs[..20] == FREQS;
      code := Search(freqs, 20, freq);
      code := if code % 2 == 1 then code / 2 + 1 else 0;
    }

    // The accessory word, with the band codes found by binary search.
    method MiscWrite()
      requires freqData.Length == 3 && Logged()
      modifies this`i2cMiscData, this`miscLog
      ensures Logged()
      ensures i2cMiscData == MiscWord(Now())
      ensures |miscLog| <= |old(miscLog)| + 1
    {
      hide FREQS, Sorted, NoRepeats, RxLatch, TxLatch, Changing, OnBus, MiscSum, BandCode;
      FreqsSorted();
      var freqs := new int[20](i requires 0 <= i < 20 => FREQS[i]);
      assert freqs[..] == FREQS;
      var code := new nat[3];
      for i := 0 to 3
        invariant forall k :: 0 <= k < i ==> code[k] == BandCode(freqData[k])
        modifies code
      {
        code[i] := FindBand(freqs, freqData[i]);
      }
      var data := MiscSum(code[0], code[1], code[2], miscData0 / 8 % 4, miscData1 / 8 % 4, miscData2 % 4);
      if i2cMiscData != data {
        BusWritten(miscLog, data);
        i2cMiscData := data;
        miscLog := miscLog + [data];
      }
    }

    // A new frequency for channel c.
    method Tune(c: nat, freq: Hertz)
      requires Valid() && c < 3
      modifies this`alexUpdate, this`miscUpdate, freqData
      ensures Valid()
      ensures Now() == match c
        case 0 => old(Now()).(tx := freq)
        case 1 => old(Now()).(rx1 := freq)
        case _ => old(Now()).(rx2 := freq)
      ensures alexUpdate <==> old(alexUpdate) || freq != old(freqData[c])
      ensures miscUpdate <==> old(miscUpdate) || (hasMisc && freq != old(freqData[c]))
    {
      hide RxWord, TxWord, MiscWord, Logged;
      if freqData[c] != freq {
        freqData[c] := freq;
        alexUpdate := true;
        if hasMisc { miscUpdate := true; }
      }
    }

    // One control frame.
    method ProcessEp2(f: Frame)
      requires Valid()
      modifies this`alexData0, this`alexData1, this`alexUpdate, this`rxSync,
        this`miscData0, this`miscData1, this`miscData2, this`miscUpdate, freqData
      ensures Valid()
      ensures Now() == Accept(old(Now()), f, hasMisc, thetis)
    {
      hide RxWord, TxWord, MiscWord, Logged, Alex0, Alex1, Frequency;
      match f[0] {
        case 0 | 1 =>
          SetSync(f[4] / 128 == 1);
          SetAlex0(Alex0(f));
        case 2 | 3 =>
          if Tunes(f) { Tune(0, Frequency(f)); }
        case 4 | 5 =>
          if Tunes(f) { Tune(1, Frequency(f)); }
        case 6 | 7 | 8 | 9 =>
          if TunesSecond(Now(), f, thetis) { Tune(2, Frequency(f)); }
        case 18 | 19 =>
          SetAlex1(Alex1(f));
          if hasMisc { SetMisc(2, f[3] / 128 * 2 + f[3] / 32 % 2); }
        case 20 | 21 =>
          if hasMisc { SetMisc(0, f[4] % 32); }
        case 22 | 23 =>
          if hasMisc { SetMisc(1, f[1] % 32); }
        case _ =>
      }
    }

    method SetSync(sync: bool)
      requires Valid()
      modifies this`rxSync
      ensures Valid()
      ensures Now() == old(Now()).(sync := sync)
    {
      hide RxWord, TxWord, MiscWord, Logged;
      ghost var was := Now();
      rxSync := sync;
      MiscIgnores(was, Now());
      FiltersIgnore(was, Now());
    }

    method SetAlex0(data: uint16)
      requires Valid()
      modifies this`alexData0, this`alexUpdate
      ensures Valid()
      ensures Now() == old(Now()).(alex0 := data)
      ensures alexUpdate <==> old(alexUpdate) || data != old(alexData0)
    {
      hide RxWord, TxWord, MiscWord, Logged;
      ghost var was := Now();
      if alexData0 != data {
        alexData0 := data;
        alexUpdate := true;
      }
      MiscIgnores(was, Now());
    }

    method SetAlex1(data: uint16)
      requires Valid()
      modifies this`alexData1, this`alexUpdate
      ensures Valid()
      ensures Now() == old(Now()).(alex1 := data)
      ensures alexUpdate <==> old(alexUpdate) || data != old(alexData1)
    {
      hide RxWord, TxWord, MiscWord, Logged;
      ghost var was := Now();
      if alexData1 != data {
        alexData1 := data;
        alexUpdate := true;
      }
      MiscIgnores(was, Now());
    }

    method SetMisc(i: nat, data: uint16)
      requires Valid() && hasMisc && i < 3
      modifies this`miscData0, this`miscData1, this`miscData2, this`miscUpdate
      ensures Valid()
      ensures Now() == match i
        case 0 => old(Now()).(misc0 := data)
        case 1 => old(Now()).(misc1 := data)
        case _ => old(Now()).(misc2 := data)
      ensures miscUpdate <==> (old(miscUpdate)
        || data != old(if i == 0 then miscData0 else if i == 1 then miscData1 else miscData2))
    {
      hide RxWord, TxWord, MiscWord, Logged;
      ghost var was := Now();
      if i == 0 {
        if miscData0 != data { miscData0, miscUpdate := data, true; }
      } else if i == 1 {
        if miscData1 != data { miscData1, miscUpdate := data, true; }
      } else {
        if miscData2 != data { miscData2, miscUpdate := data, true; }
      }
      FiltersIgnore(was, Now());
    }

    // One pass of the main loop: what was received, then the key, then what the flags ask for.
    method Pass(events: seq<Event>, cwPtt: bool)
      requires Valid()
      modifies this, freqData
      ensures Valid() && !alexUpdate && !miscUpdate
      ensures Now() == WithPtt(After(old(Now()), events, hasMisc, thetis), cwPtt)
      ensures hasMisc ==> OnBus(miscLog) == MiscWord(Now())
      ensures !hasCodec ==>
        if alexLog == [] then FiltersReset(Now())
        else RxLatch(alexLog) == Some(RxWord(Now())) && TxLatch(alexLog) == Some(TxWord(Now()))
      ensures |alexLog| <= |old(alexLog)| + 2 && |miscLog| <= |old(miscLog)| + 1
    {
      hide RxWord, TxWord, MiscWord, Accept, After, Logged, FiltersAgree, RxLatch, TxLatch, OnBus, FiltersReset;
      ProcessAll(events);
      if cwPtt && alexData0 % 2 == 0 {
        SetAlex0(alexData0 + 1);
      }
      UpdateAlex();
      UpdateMisc();
      Settled();
    }

    // With both flags clear the boards and the bus hold the words of the settings.
    lemma Settled()
      requires Valid() && !alexUpdate && !miscUpdate
      ensures hasMisc ==> OnBus(miscLog) == MiscWord(Now())
      ensures !hasCodec ==>
        if alexLog == [] then FiltersReset(Now())
        else RxLatch(alexLog) == Some(RxWord(Now())) && TxLatch(alexLog) == Some(TxWord(Now()))
    {
      hide RxWord, TxWord, MiscWord, NoRepeats, Changing, RxLatch, TxLatch, OnBus;
      LatchesOf(alexLog, alexDataRx, alexDataTx, Now());
    }

    method ProcessAll(events: seq<Event>)
      requires Valid()
      modifies this`alexData0, this`alexData1, this`alexUpdate, this`rxSync,
        this`miscData0, this`miscData1, this`miscData2, this`miscUpdate, freqData
      ensures Valid()
      ensures Now() == After(old(Now()), events, hasMisc, thetis)
    {
      hide Accept, Logged, FiltersAgree, MiscWord;
      ghost var was := Now();
      for i := 0 to |events|
        invariant Valid()
        invariant freqData.Length == 3
        invariant Now() == After(was, events[..i], hasMisc, thetis)
      {
        AfterNext(was, events, i, hasMisc, thetis);
        match events[i] {
          case Control(f) => ProcessEp2(f);
          case Start => SetSync(false);
        }
      }
      assert events[..|events|] == events;
    }

    method UpdateAlex()
      requires Valid()
      modifies this`alexUpdate, this`alexDataRx, this`alexDataTx, this`alexLog
      ensures Valid() && !alexUpdate
      ensures |alexLog| <= |old(alexLog)| + 2
    {
      hide RxWord, TxWord, MiscWord;
      if alexUpdate {
        alexUpdate := false;
        AlexWrite();
      }
    }

    method UpdateMisc()
      requires Valid()
      modifies this`miscUpdate, this`i2cMiscData, this`miscLog
      ensures Valid() && !miscUpdate
      ensures |miscLog| <= |old(miscLog)| + 1
    {
      hide RxWord, TxWord, MiscWord;
      if miscUpdate {
        miscUpdate := false;
        MiscWrite();
      }
    }
  }

  lemma AfterNext(s: Settings, events: seq<Event>, i: nat, hasMisc: bool, thetis: bool)
    requires i < |events|
    ensures After(s, events[..i + 1], hasMisc, thetis)
         == Handle(After(s, events[..i], hasMisc, thetis), events[i], hasMisc, thetis)
  {
    assert events[..i + 1][..i] == events[..i];
  }

  // A board that was never written and one that was, by what the cache holds.
  lemma LatchesOf(log: seq<AlexWrite>, rx: nat, tx: nat, s: Settings)
    requires Caches(RxLatch(log), rx) && Caches(TxLatch(log), tx)
    ensures log == [] ==> rx == 0
    ensures rx != 0 ==> RxLatch(log) == Some(rx)
    ensures tx != 0 ==> TxLatch(log) == Some(tx)
    ensures rx == tx == 0 ==> log == []
    ensures rx == RxWord(s) ==> rx != 0
    ensures tx == TxWord(s) ==> tx != 0
  {
    hide RxWord, TxWord;
    WordsAreNotZero(s);
  }
}

/** The pulse shaper of the pulser: a two-pole recurrence in 16.16 fixed point, run
    until it passes its peak, and the scale factor that normalises the peak. */
module Pulser {
  import opened Widths

  // 4095 << 9
  const AMPLITUDE: nat := 2096640

  // x times the fraction k / 65536, rounded down.
  function Scale(x: nat, k: uint16): nat { x * k / 65536 }

  // A fraction below one shrinks, keeps the order, and loses less than one unit.
  lemma ScaleFacts(x: nat, k: uint16)
    ensures Scale(x, k) <= x
    ensures x > 0 ==> Scale(x, k) < x
    ensures 65536 * Scale(x, k) <= x * k <= 65535 * x
    ensures x * k < 65536 * Scale(x, k) + 65536
  {
    assert x * k <= x * 65535;
  }

  lemma ScaleMonotone(x: nat, y: nat, k: uint16)
    requires x <= y
    ensures Scale(x, k) <= Scale(y, k)
  {
    assert x * k <= y * k;
  }

  // The whole recurrence: the decaying input and the filtered output.
  function Input(n: nat, f: uint16): nat
  {
    if n == 0 then AMPLITUDE else Scale(Input(n - 1, f), f)
  }

  function Output(n: nat, f: uint16, r: uint16): nat
  {
    if n == 0 then 0 else Input(n - 1, f) + Scale(Output(n - 1, f, r), r)
  }

  // Every step takes the exact fractions and loses less than one unit, downwards.
  lemma StepLoss(n: nat, f: uint16, r: uint16)
    ensures 65536 * Input(n + 1, f) <= Input(n, f) * f < 65536 * Input(n + 1, f) + 65536
    ensures var exact := 65536 * Input(n, f) + Output(n, f, r) * r;
      65536 * Output(n + 1, f, r) <= exact < 65536 * Output(n + 1, f, r) + 65536
  {
    ScaleFacts(Input(n, f), f);
    ScaleFacts(Output(n, f, r), r);
  }

  // The recurrence without rounding.
  function Fraction(k: uint16): (q: real)
    ensures 0.0 <= q < 1.0
  {
    k as real / 65536.0
  }

  function Part(x: real, k: uint16): real { x * Fraction(k) }

  function ExactInput(n: nat, f: uint16): real
  {
    if n == 0 then AMPLITUDE as real else Part(ExactInput(n - 1, f), f)
  }

  function ExactOutput(n: nat, f: uint16, r: uint16): real
  {
    if n == 0 then 0.0 else ExactInput(n - 1, f) + Part(ExactOutput(n - 1, f, r), r)
  }

  lemma PartOfSum(a: real, d: real, k: uint16)
    requires d >= 0.0
    ensures Part(a, k) <= Part(a + d, k) <= Part(a, k) + d
  {
    var q := Fraction(k);
    hide Fraction;
    ProductInUnit(d, q);
    assert (a + d) * q == a * q + d * q;
  }

  lemma ProductInUnit(d: real, q: real)
    requires 0.0 <= d && 0.0 <= q < 1.0
    ensures 0.0 <= d * q <= d
  {
  }

  lemma OneProduct(x: nat, k: uint16)
    ensures Scale(x, k) as real <= Part(x as real, k) <= Scale(x, k) as real + 1.0
  {
    ScaleFacts(x, k);
    var p, z := x * k, Scale(x, k);
    assert Part(x as real, k) == p as real / 65536.0;
    assert (65536 * z) as real <= p as real <= (65536 * z + 65536) as real;
  }

  // One rounded product of a number that is at most `loss` low.
  lemma ScaleLoss(x: nat, exact: real, loss: nat, k: uint16)
    requires x as real <= exact <= x as real + loss as real
    ensures Scale(x, k) as real <= Part(exact, k) <= Scale(x, k) as real + loss as real + 1.0
  {
    hide Scale, Part;
    OneProduct(x, k);
    var d := exact - x as real;
    PartOfSum(x as real, d, k);
    assert x as real + d == exact;
  }

  lemma SquareStep(m: nat)
    ensures m + m * m + 1 <= (m + 1) * (m + 1)
  {
  }

  // Main result: after n steps the input is at most n units below the exact one and the output
  // at most n * n, and neither is ever above.
  lemma {:induction false} RoundingLoss(n: nat, f: uint16, r: uint16)
    ensures Input(n, f) as real <= ExactInput(n, f) <= Input(n, f) as real + n as real
    ensures Output(n, f, r) as real <= ExactOutput(n, f, r) <= Output(n, f, r) as real + (n * n) as real
    decreases n
  {
    hide Scale, Part;
    if n == 0 {
    } else {
      var m := n - 1;
      var square := m * m;
      RoundingLoss(m, f, r);
      ScaleLoss(Input(m, f), ExactInput(m, f), m, f);
      ScaleLoss(Output(m, f, r), ExactOutput(m, f, r), square, r);
      SquareStep(m);
    }
  }

  // The input never grows, and dies out.
  lemma {:induction false} InputFalls(n: nat, f: uint16)
    ensures Input(n + 1, f) <= Input(n, f) <= AMPLITUDE
    ensures Input(n, f) > 0 ==> Input(n + 1, f) < Input(n, f)
    ensures Input(n, f) <= if n <= AMPLITUDE then AMPLITUDE - n else 0
    decreases n
  {
    ScaleFacts(Input(n, f), f);
    if n == 0 {
    } else {
      InputFalls(n - 1, f);
    }
  }

  // Output plus 65536 inputs never grows: no product of the recurrence leaves int64.
  lemma {:induction false} PotentialFalls(n: nat, f: uint16, r: uint16)
    ensures Output(n + 1, f, r) + 65536 * Input(n + 1, f) <= Output(n, f, r) + 65536 * Input(n, f)
    ensures Output(n, f, r) + 65536 * Input(n, f) <= 65536 * AMPLITUDE
    ensures Output(n, f, r) * r <= 0x7FFF_FFFF_FFFF_FFFF && Input(n, f) * f <= 0x7FFF_FFFF_FFFF_FFFF
  {
    if n > 0 {
      PotentialFalls(n - 1, f, r);
      ScaleFacts(Input(n - 1, f), f);
      ScaleFacts(Output(n - 1, f, r), r);
    }
    ScaleFacts(Output(n, f, r), r);
    ScaleFacts(Input(n, f), f);
  }

  // Once the output does not rise it never rises again.
  lemma NeverRisesAgain(n: nat, f: uint16, r: uint16)
    requires Output(n + 1, f, r) <= Output(n, f, r)
    ensures Output(n + 2, f, r) <= Output(n + 1, f, r)
  {
    InputFalls(n, f);
    ScaleMonotone(Output(n + 1, f, r), Output(n, f, r), r);
  }

  // Main result: the recurrence has a single peak. The value before the first fall
  // bounds the output for ever after.
  lemma {:induction false} FallsForEver(n: nat, m: nat, f: uint16, r: uint16)
    requires Output(n + 1, f, r) <= Output(n, f, r) && n <= m
    ensures Output(m + 1, f, r) <= Output(m, f, r) <= Output(n, f, r)
    decreases m
  {
    if n >= m {
    } else {
      FallsForEver(n, m - 1, f, r);
      NeverRisesAgain(m - 1, f, r);
    }
  }

  // v is attained, and nothing in the infinite recurrence exceeds it.
  ghost predicate IsPeak(v: int, f: uint16, r: uint16)
  {
    && (exists n: nat :: Output(n, f, r) == v)
    && (forall m: nat :: Output(m, f, r) <= v)
  }

  // The peak is at least the amplitude.
  lemma PeakBounds(v: int, f: uint16, r: uint16)
    requires IsPeak(v, f, r)
    ensures AMPLITUDE <= v && 4095 <= v / 512
  {
    assert Output(0, f, r) == 0 && Input(0, f) == AMPLITUDE;
    assert Output(1, f, r) == AMPLITUDE;
  }

  lemma ScaleFactorFits(x: nat, d: nat)
    requires d >= 4095 && x == 4095 * 65535
    ensures x / d <= 65535
    ensures (x / d) * d <= x < (x / d + 1) * d
  {
    var q := x / d;
    assert q * 4095 <= q * d <= x;
  }

  // One pass of the loop on the mathematical values.
  lemma Pass(n: nat, f: uint16, r: uint16)
    ensures Output(n + 1, f, r) == Input(n, f) + Scale(Output(n, f, r), r)
    ensures Input(n + 1, f) == Scale(Input(n, f), f) <= Input(n, f)
    ensures Input(n, f) > 0 ==> Input(n + 1, f) < Input(n, f)
    ensures Input(n, f) == 0 && Output(n, f, r) > 0 ==> Output(n + 1, f, r) < Output(n, f, r)
    ensures Output(n, f, r) * r <= 0x7FFF_FFFF_FFFF_FFFF && Input(n, f) * f <= 0x7FFF_FFFF_FFFF_FFFF
    ensures Output(n + 1, f, r) <= 65536 * AMPLITUDE
  {
    PotentialFalls(n, f, r);
    PotentialFalls(n + 1, f, r);
    ScaleFacts(Input(n, f), f);
    ScaleFacts(Output(n, f, r), r);
  }

  lemma Start(f: uint16, r: uint16)
    ensures Input(0, f) == AMPLITUDE && Output(0, f, r) == 0 && Output(1, f, r) == AMPLITUDE
  {
    assert Scale(0, r) == 0;
  }

  // The same pass in 64-bit arithmetic: no product overflows.
  method Filter(y: int64, k: uint16) returns (z: int64)
    requires 0 <= y && y as int * k <= 0x7FFF_FFFF_FFFF_FFFF
    ensures z as int == Scale(y as int, k)
    ensures 65536 * z as int <= y as int * k < 65536 * z as int + 65536
  {
    z := y * (k as int64) / 65536;
  }

  // Main result: for all 16-bit coefficients the loop ends, at the peak of the
  // infinite recurrence, and the scale factor brings the peak to full scale from
  // below without being truncated.
  method NormalisePulse(f: uint16, r: uint16) returns (peak: int64, s: uint16)
    ensures IsPeak(peak as int, f, r)
    ensures var h := peak as int / 512; s * h <= 4095 * 65535 < (s + 1) * h
  {
    hide Input, Output, Scale;
    var y0: int64, y1: int64, y2: int64 := 2096640, 0, 0;
    ghost var n: nat := 0;
    Start(f, r);
    while y2 <= y1
      invariant y0 as int == Input(n, f) && y1 as int == Output(n, f, r)
      invariant y2 as int == if n == 0 then 0 else Output(n - 1, f, r)
      invariant forall m: nat :: m < n ==> Output(m, f, r) <= y2 as int
      invariant n == 0 ==> y2 <= y1
      invariant 0 <= y0 <= 2096640 && 0 <= y1
      decreases y0, if y2 <= y1 then 1 else 0
    {
      Pass(n, f, r);
      assert n >= 2 ==> Output(1, f, r) <= y2 as int;
      y2 := y1;
      var filtered := Filter(y1, r);
      y1 := y0 + filtered;
      y0 := Filter(y0, f);
      n := n + 1;
    }
    peak := y2;
    SinglePeak(n - 1, f, r);
    PeakBounds(peak as int, f, r);
    s := ScaleFactor(y2);
  }

  method ScaleFactor(peak: int64) returns (s: uint16)
    requires peak as int >= AMPLITUDE
    ensures var h := peak as int / 512; s * h <= 4095 * 65535 < (s + 1) * h
  {
    var h := peak as int / 512;
    ScaleFactorFits(4095 * 65535, h);
    s := 4095 * 65535 / h;
  }

  lemma SinglePeak(n: nat, f: uint16, r: uint16)
    requires Output(n + 1, f, r) < Output(n, f, r)
    requires forall m: nat :: m < n + 1 ==> Output(m, f, r) <= Output(n, f, r)
    ensures IsPeak(Output(n, f, r), f, r)
  {
    forall m: nat
      ensures Output(m, f, r) <= Output(n, f, r)
    {
      if m > n {
        FallsForEver(n, m, f, r);
      }
    }
  }
}

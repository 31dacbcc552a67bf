/** Drawing pulse amplitudes from a measured spectrum: the cumulative table and the
    search in it. */
module Sampler {
  import opened Widths
  import opened Arith
  import opened LowerBound

  const RAND_MAX: nat := 0x7FFF_FFFF

  function Total(spectrum: seq<uint32>): nat
  {
    if spectrum == [] then 0 else Total(spectrum[..|spectrum|-1]) + spectrum[|spectrum|-1]
  }

  lemma TotalSnoc(spectrum: seq<uint32>, i: nat)
    requires i < |spectrum|
    ensures Total(spectrum[..i + 1]) == Total(spectrum[..i]) + spectrum[i]
  {
    assert spectrum[..i + 1][..i] == spectrum[..i];
  }

  lemma {:induction false} TotalMonotone(spectrum: seq<uint32>, i: nat, j: nat)
    requires i <= j <= |spectrum|
    ensures Total(spectrum[..i]) <= Total(spectrum[..j]) <= Total(spectrum)
    decreases |spectrum| - i
  {
    assert spectrum[..|spectrum|] == spectrum;
    if i < j {
      TotalSnoc(spectrum, i);
      TotalMonotone(spectrum, i + 1, j);
    } else if j < |spectrum| {
      TotalSnoc(spectrum, i);
      TotalMonotone(spectrum, i + 1, j + 1);
    }
  }

  // The part of the random range given to the bins below i.
  function Cut(spectrum: seq<uint32>, i: nat): nat
    requires i <= |spectrum| && Total(spectrum) >= 1
  {
    Total(spectrum[..i]) * RAND_MAX / Total(spectrum)
  }

  lemma CutEnds(spectrum: seq<uint32>)
    requires Total(spectrum) >= 1
    ensures Cut(spectrum, 0) == 0 && Cut(spectrum, |spectrum|) == RAND_MAX
  {
    assert spectrum[..|spectrum|] == spectrum && spectrum[..0] == [];
    var t := Total(spectrum);
    assert 0 * RAND_MAX == 0 * t + 0;
    UniqueDivMod(0, t, 0, 0);
    UniqueDivMod(t * RAND_MAX, t, RAND_MAX, 0);
  }

  lemma CutMonotone(spectrum: seq<uint32>, i: nat, j: nat)
    requires i <= j <= |spectrum| && Total(spectrum) >= 1
    ensures Cut(spectrum, i) <= Cut(spectrum, j)
  {
    TotalMonotone(spectrum, i, j);
    DivMonotone(Total(spectrum[..i]) * RAND_MAX, Total(spectrum[..j]) * RAND_MAX, Total(spectrum));
  }

  // The table: entry i is the last random value of the bins up to i.
  function Table(spectrum: seq<uint32>): (t: seq<int>)
    requires Total(spectrum) >= 1
    ensures |t| == |spectrum|
  {
    seq(|spectrum|, i requires 0 <= i < |spectrum| => Cut(spectrum, i + 1) - 1)
  }

  lemma TableSorted(spectrum: seq<uint32>)
    requires Total(spectrum) >= 1
    ensures Sorted(Table(spectrum))
  {
    hide Cut;
    forall i, j | 0 <= i <= j < |spectrum|
      ensures Table(spectrum)[i] <= Table(spectrum)[j]
    {
      CutMonotone(spectrum, i + 1, j + 1);
    }
  }

  lemma TableAt(spectrum: seq<uint32>, i: nat)
    requires Total(spectrum) >= 1 && i < |spectrum|
    ensures Table(spectrum)[i] == Cut(spectrum, i + 1) - 1
  {
    hide Cut, Total;
  }

  function Draw(spectrum: seq<uint32>, r: nat): nat
    requires Total(spectrum) >= 1
  {
    FirstAtLeast(Table(spectrum), r)
  }

  // Main result: a random value falls in bin k exactly when it lies between the
  // bin's two cuts ...
  lemma DrawsBin(spectrum: seq<uint32>, r: nat, k: nat)
    requires Total(spectrum) >= 1 && k < |spectrum|
    ensures Draw(spectrum, r) == k <==> Cut(spectrum, k) <= r < Cut(spectrum, k + 1)
  {
    hide Cut, FirstAtLeast, Total, Table, Sorted;
    CutEnds(spectrum);
    TableSorted(spectrum);
    var t := Table(spectrum);
    TableAt(spectrum, k);
    if k > 0 { TableAt(spectrum, k - 1); }
    if Cut(spectrum, k) <= r < Cut(spectrum, k + 1) {
      FirstAtLeastIs(t, r, k);
    }
    if Draw(spectrum, r) == k {
      assert t[k] >= r;
      if k > 0 {
        assert t[k - 1] < r;
      }
    }
  }

  // ... every random value below RAND_MAX draws some bin, and never an empty one.
  lemma DrawIsABin(spectrum: seq<uint32>, r: nat)
    requires Total(spectrum) >= 1 && r < RAND_MAX
    ensures Draw(spectrum, r) < |spectrum| && spectrum[Draw(spectrum, r)] > 0
  {
    CutEnds(spectrum);
    NonEmpty(spectrum);
    hide Cut, FirstAtLeast, Total;
    var n := |spectrum|;
    assert Table(spectrum)[n - 1] == RAND_MAX - 1;
    var k := Draw(spectrum, r);
    DrawsBin(spectrum, r, k);
    if spectrum[k] == 0 {
      EmptyBin(spectrum, k);
    }
  }

  lemma EmptyBin(spectrum: seq<uint32>, k: nat)
    requires Total(spectrum) >= 1 && k < |spectrum| && spectrum[k] == 0
    ensures Cut(spectrum, k) == Cut(spectrum, k + 1)
  {
    TotalSnoc(spectrum, k);
  }

  lemma NonEmpty(spectrum: seq<uint32>)
    requires Total(spectrum) >= 1
    ensures spectrum != []
  {
  }

  // The random values that draw bin k.
  function DrawSet(spectrum: seq<uint32>, k: nat): set<nat>
    requires Total(spectrum) >= 1
  {
    set r: nat | r < RAND_MAX && Draw(spectrum, r) == k
  }

  function Interval(a: nat, b: nat): (s: set<nat>)
    ensures forall r: nat :: r in s <==> a <= r < b
  {
    if b <= a then {} else Interval(a, b - 1) + {b - 1}
  }

  lemma {:induction false} IntervalSize(a: nat, b: nat)
    requires a <= b
    ensures |Interval(a, b)| == b - a
    decreases b - a
  {
    if a >= b {
    } else {
      IntervalSize(a, b - 1);
    }
  }

  // Main result: bin k is drawn by as many values as its cuts are apart ...
  lemma DrawCount(spectrum: seq<uint32>, k: nat)
    requires Total(spectrum) >= 1 && k < |spectrum|
    ensures |DrawSet(spectrum, k)| == Cut(spectrum, k + 1) - Cut(spectrum, k)
  {
    CutEnds(spectrum);
    hide Cut, Draw;
    CutMonotone(spectrum, k + 1, |spectrum|);
    CutMonotone(spectrum, k, k + 1);
    forall r: nat
      ensures r in DrawSet(spectrum, k) <==> r in Interval(Cut(spectrum, k), Cut(spectrum, k + 1))
    {
      DrawsBin(spectrum, r, k);
    }
    assert DrawSet(spectrum, k) == Interval(Cut(spectrum, k), Cut(spectrum, k + 1));
    IntervalSize(Cut(spectrum, k), Cut(spectrum, k + 1));
  }

  // ... which is less than one away from its ideal share, spectrum[k] / total.
  lemma DrawShare(spectrum: seq<uint32>, k: nat)
    requires Total(spectrum) >= 1 && k < |spectrum|
    ensures var t: int, count: int := Total(spectrum), |DrawSet(spectrum, k)|;
      -t < count * t - spectrum[k] * RAND_MAX < t
  {
    DrawCount(spectrum, k);
    TotalSnoc(spectrum, k);
    hide Total, DrawSet;
    var t, x, d := Total(spectrum), Total(spectrum[..k]) * RAND_MAX, spectrum[k] * RAND_MAX;
    assert Total(spectrum[..k + 1]) * RAND_MAX == x + d;
    assert Cut(spectrum, k) == x / t && Cut(spectrum, k + 1) == (x + d) / t;
    hide Cut;
    FloorDifference(x, d, t);
  }

  lemma FloorDifference(x: nat, d: nat, t: nat)
    requires t > 0
    ensures var n: int, u: int := (x + d) / t - x / t, t;
      -u < n * u - d < u
  {
    DivBounds(x, t);
    DivBounds(x + d, t);
    var a, b := (x + d) / t, x / t;
    assert (a - b) * t == a * t - b * t;
  }

  // All bins together use up the whole random range.
  function CountUpTo(spectrum: seq<uint32>, n: nat): nat
    requires Total(spectrum) >= 1 && n <= |spectrum|
  {
    if n == 0 then 0 else CountUpTo(spectrum, n - 1) + |DrawSet(spectrum, n - 1)|
  }

  lemma {:induction false} CountsSum(spectrum: seq<uint32>, n: nat)
    requires Total(spectrum) >= 1 && n <= |spectrum|
    ensures CountUpTo(spectrum, n) == Cut(spectrum, n)
    ensures n == |spectrum| ==> CountUpTo(spectrum, n) == RAND_MAX
  {
    CutEnds(spectrum);
    hide Cut, DrawSet;
    if n == 0 {
    } else {
      CountsSum(spectrum, n - 1);
      DrawCount(spectrum, n - 1);
    }
  }

  // --- The server's two loops and the draw -------------------------------------------

  // The products of the table must fit 64 bits, or the code has no defined result.
  predicate TableFits(spectrum: seq<uint32>)
  {
    Total(spectrum) * RAND_MAX <= 0x7FFF_FFFF_FFFF_FFFF
  }

  method SumSpectrum(spectrum: seq<uint32>) returns (total: int64)
    requires TableFits(spectrum)
    ensures total as int == Total(spectrum)
  {
    total := 0;
    for i := 0 to |spectrum|
      invariant total as int == Total(spectrum[..i])
    {
      TotalSnoc(spectrum, i);
      TotalMonotone(spectrum, i, i + 1);
      total := total + spectrum[i] as int64;
    }
    assert spectrum[..|spectrum|] == spectrum;
  }

  // An empty spectrum starts nothing and leaves the old table.
  method BuildTable(spectrum: seq<uint32>, hist: array<int>) returns (started: bool)
    requires hist.Length == |spectrum| && TableFits(spectrum)
    modifies hist
    ensures started <==> Total(spectrum) >= 1
    ensures hist[..] == if started then Table(spectrum) else old(hist[..])
  {
    var total := SumSpectrum(spectrum);
    if total < 1 {
      return false;
    }
    var value: int64 := 0;
    for i := 0 to |spectrum|
      invariant value as int == Total(spectrum[..i])
      invariant hist[..i] == Table(spectrum)[..i]
    {
      TotalSnoc(spectrum, i);
      TotalMonotone(spectrum, i, i + 1);
      value := value + spectrum[i] as int64;
      var entry := TableEntry(value, total);
      hist[i] := entry;
      assert hist[..i + 1] == hist[..i] + [hist[i]];
      assert Table(spectrum)[..i + 1] == Table(spectrum)[..i] + [Table(spectrum)[i]];
    }
    assert hist[..] == hist[..|spectrum|];
    assert Table(spectrum)[..|spectrum|] == Table(spectrum);
    started := true;
  }

  method TableEntry(value: int64, total: int64) returns (entry: int)
    requires 0 <= value <= total && total >= 1 && total as int * RAND_MAX <= 0x7FFF_FFFF_FFFF_FFFF
    ensures entry == value as int * RAND_MAX / (total as int) - 1
  {
    entry := (value * 0x7FFF_FFFF / total) as int - 1;
  }

  method DrawAmplitude(spectrum: seq<uint32>, hist: array<int>, random: nat) returns (amplitude: nat)
    requires Total(spectrum) >= 1 && hist[..] == Table(spectrum)
    ensures amplitude == Draw(spectrum, random % RAND_MAX)
    ensures amplitude < |spectrum| && spectrum[amplitude] > 0
  {
    hide Table, Cut, FirstAtLeast, Total;
    TableSorted(spectrum);
    assert hist[..hist.Length] == hist[..];
    amplitude := Search(hist, hist.Length, random % RAND_MAX);
    DrawIsABin(spectrum, random % RAND_MAX);
  }
}

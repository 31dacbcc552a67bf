/** 16-bit samples, and the tail of a stream that a bounded buffer keeps. */
module Samples {

  type int16 = x: int | -32768 <= x < 32768

  datatype Option<+T> = None | Some(value: T)

  function Min(a: nat, b: nat): nat { if a <= b then a else b }

  function Max(a: nat, b: nat): nat { if a >= b then a else b }

  function LastN<T>(s: seq<T>, n: nat): seq<T>
  {
    if |s| <= n then s else s[|s| - n..]
  }

  lemma LastNLength<T>(s: seq<T>, n: nat)
    ensures |LastN(s, n)| == Min(|s|, n)
  {
  }

  // A bounded buffer that drops its oldest element always holds the last n.
  lemma LastNPush<T>(s: seq<T>, n: nat, x: T)
    ensures LastN(LastN(s, n) + [x], n) == LastN(s + [x], n)
  {
  }

  lemma LastNOfLastN<T>(s: seq<T>, n: nat, m: nat)
    ensures LastN(LastN(s, n), m) == LastN(s, Min(n, m))
  {
  }

  lemma LastNOfSuffix<T>(s: seq<T>, from: nat, n: nat)
    requires from + n <= |s| || from == 0
    ensures LastN(s[from..], n) == LastN(s, n)
  {
  }

  // The first firing sample from `start` on, or the length of the run.
  function NextFire(fires: seq<bool>, start: nat): (t: nat)
    requires start <= |fires|
    ensures start <= t <= |fires|
    ensures t < |fires| ==> fires[t]
    ensures forall j :: start <= j < t ==> !fires[j]
    decreases |fires| - start
  {
    if start == |fires| || fires[start] then start else NextFire(fires, start + 1)
  }
}

/** The binary search that the servers share. */
module LowerBound {

  predicate Sorted(s: seq<int>)
  {
    forall i, j :: 0 <= i <= j < |s| ==> s[i] <= s[j]
  }

  // The first index whose element is at least v; the length if there is none.
  function FirstAtLeast(s: seq<int>, v: int): (k: nat)
    ensures k <= |s|
    ensures forall i :: 0 <= i < k ==> s[i] < v
    ensures k < |s| ==> s[k] >= v
  {
    if s == [] || s[0] >= v then 0 else 1 + FirstAtLeast(s[1..], v)
  }

  // In a sorted sequence it is the only place that separates the smaller elements.
  lemma FirstAtLeastIs(s: seq<int>, v: int, k: nat)
    requires Sorted(s) && k <= |s|
    requires k == 0 || s[k - 1] < v
    requires k == |s| || s[k] >= v
    ensures FirstAtLeast(s, v) == k
  {
    var m := FirstAtLeast(s, v);
  }

  // The halving search finds it.
  method Search(a: array<int>, size: nat, value: int) returns (i: nat)
    requires size <= a.Length && Sorted(a[..size])
    ensures i == FirstAtLeast(a[..size], value)
  {
    ghost var s := a[..size];
    i := 0;
    var j := size;
    while i < j
      invariant i <= j <= size
      invariant i == 0 || s[i - 1] < value
      invariant j == size || s[j] >= value
    {
      var k := i + (j - i) / 2;
      assert a[k] == s[k];
      if value > a[k] {
        i := k + 1;
      } else {
        j := k;
      }
    }
    FirstAtLeastIs(s, value, i);
  }
}

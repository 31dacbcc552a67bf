/** Padding, and small facts of division and remainder by a variable, proved once. */
module Arith {

  function Quotient(a: nat, b: nat): nat
    requires b > 0
  {
    a / b
  }

  // What is missing to a multiple of four.
  function Padding(n: nat): (p: nat)
    ensures p <= 3 && (n + p) % 4 == 0
  {
    (4 - n % 4) % 4
  }

  lemma MulAtLeast(a: int, c: int)
    requires a >= 1 && c > 0
    ensures a * c >= c
  {
    assert (a - 1) * c >= 0;
  }

  lemma MulStep(n: nat, z: nat)
    requires n >= 1
    ensures n * z == (n - 1) * z + z
  {
  }

  lemma UniqueDivMod(x: int, c: int, q: int, r: int)
    requires 0 <= r < c && x == q * c + r
    ensures x / c == q && x % c == r
  {
    var q1, r1 := x / c, x % c;
    assert x == q1 * c + r1;
    var d := q1 - q;
    assert d * c == r - r1 by {
      assert d * c == q1 * c - q * c;
    }
    assert (-d) * c == -(d * c);
    if d >= 1 { MulAtLeast(d, c); }
    if d <= -1 { MulAtLeast(-d, c); }
  }

  lemma ModOfSum(k: nat, c: nat, q: int)
    requires k < c
    ensures (q * c + k) % c == k
  {
    UniqueDivMod(q * c + k, c, q, k);
  }

  lemma ModSmall(x: nat, c: nat)
    requires c > 0
    ensures x % c <= x
    ensures x < c ==> x % c == x && x / c == 0
  {
    if x < c {
      assert x == 0 * c + x;
      UniqueDivMod(x, c, 0, x);
    }
  }

  lemma DivBounds(x: nat, c: nat)
    requires c > 0
    ensures (x / c) * c <= x < (x / c) * c + c
  {
  }

  lemma QuotientOrder(a: int, b: int, c: int)
    requires c > 0 && a * c < b * c + c
    ensures a <= b
  {
    assert (a - b) * c == a * c - b * c;
    if a - b >= 1 { MulAtLeast(a - b, c); }
  }

  lemma DivMonotone(x: nat, y: nat, d: nat)
    requires x <= y && d > 0
    ensures x / d <= y / d
  {
    DivBounds(x, d);
    DivBounds(y, d);
    QuotientOrder(x / d, y / d, d);
  }

  // Moving p + n steps round a circle of c from a point p short of the end.
  lemma ModAdvance(x: nat, n: nat, c: nat)
    requires c > 0 && x % c + n <= c
    ensures (x + n) % c == if x % c + n == c then 0 else x % c + n
  {
    var q, p := x / c, x % c;
    assert x == q * c + p;
    if p + n < c {
      UniqueDivMod(x + n, c, q, p + n);
    } else {
      assert (q + 1) * c == q * c + c;
      UniqueDivMod(x + n, c, q + 1, 0);
    }
  }
}

/** Overwriting a stretch of a sequence: what a copy into a buffer does. */
module Splicing {

  // b with `data` written over it at `at`.
  function Splice<T>(b: seq<T>, at: nat, data: seq<T>): (r: seq<T>)
    requires at + |data| <= |b|
    ensures |r| == |b|
  {
    b[..at] + data + b[at + |data|..]
  }

  // Writing at the end of a known stretch extends it.
  lemma SpliceExtends<T>(b: seq<T>, from: nat, at: nat, data: seq<T>)
    requires from <= at && at + |data| <= |b|
    ensures Splice(b, at, data)[..from] == b[..from]
    ensures Splice(b, at, data)[from..at + |data|] == b[from..at] + data
  {
  }

  // Writing before a stretch leaves it.
  lemma SpliceBefore<T>(b: seq<T>, at: nat, data: seq<T>, from: nat, to: nat)
    requires at + |data| <= from <= to <= |b|
    ensures Splice(b, at, data)[from..to] == b[from..to]
    ensures Splice(b, at, data)[..at] == b[..at] && Splice(b, at, data)[at..at + |data|] == data
  {
  }

  // Writing elsewhere leaves a stretch.
  lemma SpliceElsewhere<T>(b: seq<T>, at: nat, data: seq<T>, from: nat, to: nat)
    requires at + |data| <= |b| && from <= to <= |b|
    requires at + |data| <= from || to <= at
    ensures Splice(b, at, data)[from..to] == b[from..to]
  {
  }

  // Two writes in a row are one.
  lemma SpliceTwice<T>(b: seq<T>, at: nat, x: seq<T>, y: seq<T>)
    requires at + |x| + |y| <= |b|
    ensures Splice(Splice(b, at, x), at + |x|, y) == Splice(b, at, x + y)
  {
  }

  // Writing inside what was just written is one write of the changed data.
  lemma SpliceInside<T>(b: seq<T>, at: nat, data: seq<T>, i: nat, x: seq<T>)
    requires at + |data| <= |b| && i + |x| <= |data|
    ensures Splice(Splice(b, at, data), at + i, x) == Splice(b, at, Splice(data, i, x))
  {
  }
}

/** What the bitstream writer does to a byte stream: drop the header, cut the rest
    into 32-bit words, keep the last odd bytes for the next write. */
module Bitstream {
  import opened Widths

  predicate NormalSync(b: seq<byte>, i: nat)
    requires i + 4 <= |b|
  {
    b[i] == 0x66 && b[i + 1] == 0x55 && b[i + 2] == 0x99 && b[i + 3] == 0xAA
  }

  predicate SwappedSync(b: seq<byte>, i: nat)
    requires i + 4 <= |b|
  {
    b[i] == 0xAA && b[i + 1] == 0x99 && b[i + 2] == 0x55 && b[i + 3] == 0x66
  }

  predicate SyncAt(b: seq<byte>, i: nat)
    requires i + 4 <= |b|
  {
    NormalSync(b, i) || SwappedSync(b, i)
  }

  // The search stops at the first sync word, or four bytes before the end; a sync
  // word in the last four bytes is not seen.
  function FirstSync(b: seq<byte>, from: nat): (i: nat)
    requires from + 4 <= |b|
    ensures from <= i && i + 4 <= |b|
    ensures i + 4 < |b| ==> SyncAt(b, i)
    ensures forall j :: from <= j < i ==> !SyncAt(b, j)
    decreases |b| - from
  {
    if from + 4 == |b| || SyncAt(b, from) then from else FirstSync(b, from + 1)
  }

  predicate Found(b: seq<byte>)
  {
    |b| > 4 && FirstSync(b, 0) + 4 < |b|
  }

  function HeaderLength(b: seq<byte>): nat
    requires Found(b)
  {
    FirstSync(b, 0)
  }

  // A sync word is found exactly if there is one with a byte behind it, and then the first.
  lemma FoundIs(b: seq<byte>, i: nat)
    requires i + 4 < |b| && SyncAt(b, i)
    ensures Found(b) && HeaderLength(b) <= i && SyncAt(b, HeaderLength(b))
    ensures HeaderLength(b) + 4 < |b| && forall j: nat :: j < HeaderLength(b) ==> !SyncAt(b, j)
  {
  }

  predicate IsSwapped(b: seq<byte>)
    requires Found(b)
  {
    SwappedSync(b, HeaderLength(b))
  }

  // A sync word that the first part shows is the one the whole shows.
  lemma FoundEarly(a: seq<byte>, b: seq<byte>)
    requires Found(a)
    ensures Found(a + b) && HeaderLength(a + b) == HeaderLength(a) && IsSwapped(a + b) == IsSwapped(a)
  {
    var c, h := a + b, HeaderLength(a);
    assert forall j: nat :: j + 4 <= |a| ==> SyncAt(c, j) == SyncAt(a, j);
    var m := FirstSync(c, 0);
    assert SyncAt(c, h) && h + 4 < |c|;
    assert m <= h;
  }

  function SwapWords(b: seq<byte>): (r: seq<byte>)
    ensures |r| == |b|
  {
    if |b| < 4 then b else [b[3], b[2], b[1], b[0]] + SwapWords(b[4..])
  }

  lemma {:induction false} SwapWordsAppend(a: seq<byte>, b: seq<byte>)
    requires |a| % 4 == 0
    ensures SwapWords(a + b) == SwapWords(a) + SwapWords(b)
    decreases |a|
  {
    if a == [] {
      assert a + b == b;
    } else {
      assert (a + b)[4..] == a[4..] + b;
      SwapWordsAppend(a[4..], b);
    }
  }

  // Swapping twice gives the words back.
  lemma {:induction false} SwapTwice(b: seq<byte>)
    ensures SwapWords(SwapWords(b)) == b
    decreases |b|
  {
    if |b| < 4 {
    } else {
      SwapTwice(b[4..]);
      assert SwapWords(b)[4..] == SwapWords(b[4..]);
      assert b == [b[0], b[1], b[2], b[3]] + b[4..];
    }
  }

  function Whole(n: nat): nat { n - n % 4 }

  // What the device holds between writes, and the bytes handed to the DMA so far.
  datatype Device = Device(residue: seq<byte>, endianSwap: bool, pos: nat, dma: seq<byte>)

  const OPENED := Device([], false, 0, [])

  function Order(b: seq<byte>, swap: bool): (r: seq<byte>)
    ensures |r| == |b|
  {
    if swap then SwapWords(b) else b
  }

  function Emit(d: Device, body: seq<byte>, swap: bool, pos: nat): Device
  {
    var n := Whole(|body|);
    Device(body[n..], swap, pos, d.dma + Order(body[..n], swap))
  }

  // One successful write.
  function Write(d: Device, chunk: seq<byte>): Device
  {
    var buf := d.residue + chunk;
    if d.pos == 0 && Found(buf)
    then Emit(d, buf[HeaderLength(buf)..], IsSwapped(buf), d.pos + |chunk|)
    else Emit(d, buf, d.endianSwap, d.pos + |chunk|)
  }

  function Writes(d: Device, chunks: seq<seq<byte>>): Device
  {
    if chunks == [] then d else Write(Writes(d, chunks[..|chunks|-1]), chunks[|chunks|-1])
  }

  function Concat(chunks: seq<seq<byte>>): seq<byte>
  {
    if chunks == [] then [] else Concat(chunks[..|chunks|-1]) + chunks[|chunks|-1]
  }

  // The device after a body has gone through: complete words out, at most three
  // bytes kept.
  function Through(body: seq<byte>, swap: bool, pos: nat): Device
  {
    Emit(OPENED, body, swap, pos)
  }

  lemma WholeFacts(n: nat)
    ensures Whole(n) <= n && Whole(n) % 4 == 0 && n - Whole(n) == n % 4
  {
  }

  lemma OrderAppend(a: seq<byte>, b: seq<byte>, swap: bool)
    requires |a| % 4 == 0
    ensures Order(a + b, swap) == Order(a, swap) + Order(b, swap)
  {
    if swap {
      SwapWordsAppend(a, b);
    }
  }

  lemma WholeOfSum(a: nat, b: nat)
    requires a % 4 == 0
    ensures Whole(a + b) == a + Whole(b)
  {
  }

  lemma CutBehind(head: seq<byte>, tail: seq<byte>, m: nat)
    requires m <= |tail|
    ensures (head + tail)[..|head| + m] == head + tail[..m] && (head + tail)[|head| + m..] == tail[m..]
  {
  }

  // A later write just continues the body: its words are those of the longer body.
  lemma ThroughMore(body: seq<byte>, swap: bool, pos: nat, chunk: seq<byte>)
    requires pos > 0
    ensures Write(Through(body, swap, pos), chunk) == Through(body + chunk, swap, pos + |chunk|)
  {
    WholeFacts(|body|);
    var n := Whole(|body|);
    var head, tail := body[..n], body[n..] + chunk;
    WholeFacts(|tail|);
    var m := Whole(|tail|);
    WholeOfSum(n, |tail|);
    hide Whole, Order, Found, HeaderLength, IsSwapped;
    assert body + chunk == head + tail;
    CutBehind(head, tail, m);
    OrderAppend(head, tail[..m], swap);
    assert OPENED.dma + Order(head, swap) + Order(tail[..m], swap)
        == OPENED.dma + (Order(head, swap) + Order(tail[..m], swap));
  }

  // Where a run of writes stands: the header of the first chunk is gone, if its sync
  // word was seen, and every byte since has gone through.
  function Body(first: seq<byte>, all: seq<byte>): seq<byte>
    requires |first| <= |all|
  {
    if Found(first) then all[HeaderLength(first)..] else all
  }

  lemma BodyMore(first: seq<byte>, all: seq<byte>, chunk: seq<byte>)
    requires first <= all
    ensures Body(first, all + chunk) == Body(first, all) + chunk
  {
  }

  predicate Swap(first: seq<byte>) { Found(first) && IsSwapped(first) }

  lemma {:induction false} ConcatStartsWith(chunks: seq<seq<byte>>)
    requires chunks != []
    ensures chunks[0] <= Concat(chunks)
  {
    var n := |chunks| - 1;
    if n > 0 {
      ConcatStartsWith(chunks[..n]);
    } else {
      assert chunks[..0] == [];
    }
  }

  lemma OneWrite(chunk: seq<byte>)
    ensures Write(OPENED, chunk) == Through(Body(chunk, chunk), Swap(chunk), |chunk|)
  {
    assert OPENED.residue + chunk == chunk;
  }

  // Main result: the state after any run of writes, in closed form.
  lemma {:induction false} RunClosedForm(chunks: seq<seq<byte>>)
    requires chunks != [] && chunks[0] != []
    ensures chunks[0] <= Concat(chunks)
    ensures Writes(OPENED, chunks)
         == Through(Body(chunks[0], Concat(chunks)), Swap(chunks[0]), |Concat(chunks)|)
    decreases |chunks|
  {
    var n := |chunks| - 1;
    ConcatStartsWith(chunks);
    if n == 0 {
      OneWrite(chunks[0]);
      assert chunks[..0] == [] && Concat(chunks[..0]) == [];
      assert Concat(chunks) == chunks[0];
    } else {
      hide Found, IsSwapped, HeaderLength, Body, Swap, Through, Write;
      var before := chunks[..n];
      RunClosedForm(before);
      ConcatStartsWith(before);
      var all := Concat(before);
      ThroughMore(Body(chunks[0], all), Swap(chunks[0]), |all|, chunks[n]);
      BodyMore(chunks[0], all, chunks[n]);
    }
  }

  // Where the first chunk shows a sync word, what is handed over and kept is the body in its
  // order.
  lemma FoundRun(chunks: seq<seq<byte>>)
    requires chunks != [] && Found(chunks[0])
    ensures chunks[0] <= Concat(chunks)
    ensures var d, body := Writes(OPENED, chunks), Concat(chunks)[HeaderLength(chunks[0])..];
      && d.dma == Order(body[..Whole(|body|)], IsSwapped(chunks[0]))
      && d.residue == body[Whole(|body|)..]
      && |body| > 4 && body[..4] == chunks[0][HeaderLength(chunks[0])..][..4]
  {
    RunClosedForm(chunks);
    hide Writes, Concat, FirstSync, Order, Whole;
    var body := Concat(chunks)[HeaderLength(chunks[0])..];
    var dma := Order(body[..Whole(|body|)], IsSwapped(chunks[0]));
    assert [] + dma == dma;
  }

  // Main result: whichever of the two sync words the first chunk shows, the bytes handed to the
  // DMA by any run begin with the normal one.
  lemma NormalSyncFirst(chunks: seq<seq<byte>>)
    requires chunks != [] && Found(chunks[0])
    ensures var dma := Writes(OPENED, chunks).dma;
      |dma| >= 4 && dma[..4] == [0x66, 0x55, 0x99, 0xAA]
  {
    hide Writes, Concat, FirstSync, Order, IsSwapped, Whole;
    FoundRun(chunks);
    var body := Concat(chunks)[HeaderLength(chunks[0])..];
    WholeStart(body);
    OrderedSync(body[..Whole(|body|)], chunks[0]);
  }

  lemma WholeStart(body: seq<byte>)
    requires |body| >= 4
    ensures 4 <= Whole(|body|) <= |body| && body[..Whole(|body|)][..4] == body[..4]
  {
  }

  lemma OrderedSync(words: seq<byte>, first: seq<byte>)
    requires Found(first) && |words| >= 4 && words[..4] == first[HeaderLength(first)..][..4]
    ensures Order(words, IsSwapped(first))[..4] == [0x66, 0x55, 0x99, 0xAA]
  {
    var h := HeaderLength(first);
    hide FirstSync;
    assert words[..4] == [words[0], words[1], words[2], words[3]];
    assert first[h..][..4] == [first[h], first[h + 1], first[h + 2], first[h + 3]];
  }

  // Main result: two streams whose bodies differ by the order of the bytes in the words, as
  // their sync words say, hand over and keep the same.
  lemma OrderDoesNotMatter(a: seq<seq<byte>>, b: seq<seq<byte>>)
    requires a != [] && Found(a[0]) && b != [] && Found(b[0])
    requires a[0] <= Concat(a) && b[0] <= Concat(b)
    requires Concat(b)[HeaderLength(b[0])..] == SwapWords(Concat(a)[HeaderLength(a[0])..])
    ensures IsSwapped(a[0]) != IsSwapped(b[0])
    ensures Writes(OPENED, a).dma == Writes(OPENED, b).dma && Writes(OPENED, a).residue == Writes(OPENED, b).residue
  {
    FoundRun(a);
    FoundRun(b);
    var body, swapped := Concat(a)[HeaderLength(a[0])..], Concat(b)[HeaderLength(b[0])..];
    var n := Whole(|body|);
    WholeFacts(|body|);
    WordsSwapped(body, n);
    SwapTwice(body[..n]);
    OppositeOrders(a[0], b[0], body, swapped);
    hide Writes, Concat, FirstSync, SwapWords, Whole, IsSwapped, HeaderLength;
  }

  lemma WordsSwapped(body: seq<byte>, n: nat)
    requires n <= |body| && n % 4 == 0 && |body| - n < 4
    ensures SwapWords(body)[..n] == SwapWords(body[..n]) && SwapWords(body)[n..] == body[n..]
  {
    assert body == body[..n] + body[n..];
    SwapWordsAppend(body[..n], body[n..]);
  }

  lemma OppositeOrders(a: seq<byte>, b: seq<byte>, body: seq<byte>, swapped: seq<byte>)
    requires Found(a) && Found(b) && |body| > 4 && swapped == SwapWords(body)
    requires body[..4] == a[HeaderLength(a)..][..4] && swapped[..4] == b[HeaderLength(b)..][..4]
    ensures IsSwapped(a) != IsSwapped(b)
  {
    var h, k := HeaderLength(a), HeaderLength(b);
    hide FirstSync;
    assert body[..4] == [body[0], body[1], body[2], body[3]];
    assert a[h..][..4] == [a[h], a[h + 1], a[h + 2], a[h + 3]];
    assert b[k..][..4] == [b[k], b[k + 1], b[k + 2], b[k + 3]];
    assert swapped[..4] == [body[3], body[2], body[1], body[0]];
  }

  // The bytes kept are the body's length modulo four.
  lemma ResidueLength(chunks: seq<seq<byte>>)
    requires chunks != [] && chunks[0] != []
    ensures chunks[0] <= Concat(chunks)
    ensures |Writes(OPENED, chunks).residue| == |Body(chunks[0], Concat(chunks))| % 4
  {
    RunClosedForm(chunks);
    WholeFacts(|Body(chunks[0], Concat(chunks))|);
  }

  // Main result: a split into writes ends exactly like one single write if and only
  // if the first chunk shows the sync word, or the whole shows none, or the whole
  // starts with the normal one.
  lemma ChunkInvariance(chunks: seq<seq<byte>>)
    requires chunks != [] && chunks[0] != []
    ensures var all := Concat(chunks);
      Writes(OPENED, chunks) == Write(OPENED, all) <==>
        Found(chunks[0]) || !Found(all) || (HeaderLength(all) == 0 && !IsSwapped(all))
  {
    hide Through, Write, Writes, Concat, FirstSync;
    var first, all := chunks[0], Concat(chunks);
    ConcatStartsWith(chunks);
    RunClosedForm(chunks);
    OneWrite(all);
    if Found(first) {
      assert all == first + all[|first|..];
      FoundEarly(first, all[|first|..]);
    } else if Found(all) {
      ThroughInjective(all, false, all[HeaderLength(all)..], Swap(all), |all|);
      assert all[0..] == all;
    }
  }

  // Bodies of different lengths, or different byte orders, leave different devices.
  lemma ThroughInjective(a: seq<byte>, swapA: bool, b: seq<byte>, swapB: bool, pos: nat)
    ensures Through(a, swapA, pos) == Through(b, swapB, pos) ==> |a| == |b| && swapA == swapB
  {
    var x, y := Through(a, swapA, pos), Through(b, swapB, pos);
    WholeFacts(|a|);
    WholeFacts(|b|);
    assert |x.dma| + |x.residue| == |a| && |y.dma| + |y.residue| == |b|;
  }

  // A sync word cut by the end of the first write is one that is missed.
  lemma SplitSyncIsMissed()
    ensures var chunks := [[0, 0, 0x66, 0x55], [0x99, 0xAA, 1, 2, 3, 4]];
      Writes(OPENED, chunks) != Write(OPENED, Concat(chunks))
  {
    var first: seq<byte>, second: seq<byte> := [0, 0, 0x66, 0x55], [0x99, 0xAA, 1, 2, 3, 4];
    var chunks := [first, second];
    assert chunks[..1] == [first] && [first][..0] == [];
    assert Concat([first]) == Concat([first][..0]) + first == first;
    var all := Concat(chunks);
    assert all == [0, 0, 0x66, 0x55, 0x99, 0xAA, 1, 2, 3, 4];
    assert !SyncAt(all, 0) && !SyncAt(all, 1) && SyncAt(all, 2);
    assert FirstSync(all, 0) == FirstSync(all, 1) == FirstSync(all, 2) == 2;
    ChunkInvariance(chunks);
  }
}

/** The driver: the residue and the byte order are kept between writes, the DMA
    buffer is edited in place. */
module Devcfg {
  import opened Widths
  import opened Bitstream

  class XdevcfgDevice {
    const residueBuf: array<byte>
    var residueLen: nat
    var endianSwap: bool
    var pos: nat
    // every byte handed to the DMA engine
    var dma: seq<byte>

    ghost predicate Valid()
      reads this
    {
      residueBuf.Length == 3 && residueLen <= 3
    }

    ghost function State(): Device
      reads this, residueBuf
      requires Valid()
    {
      Device(residueBuf[..residueLen], endianSwap, pos, dma)
    }

    // As opened, for a write at file offset 0.
    constructor Open()
      ensures Valid() && fresh(residueBuf) && State() == OPENED
    {
      residueBuf := new byte[3];
      residueLen, endianSwap, pos, dma := 0, false, 0, [];
    }

    method Write(chunk: seq<byte>)
      requires Valid()
      modifies this, residueBuf
      ensures Valid() && State() == Bitstream.Write(old(State()), chunk)
    {
      hide FirstSync, Found, HeaderLength, IsSwapped, Emit;
      ghost var before := State();
      var kbuf, count := Prepare(chunk);
      ghost var prepared, body := State(), kbuf[..count];
      Send(kbuf, count);
      EmitOnlyAppends(before, prepared, body, endianSwap, pos, pos + |chunk|);
      pos := pos + |chunk|;
    }

    // The bytes of this write, without the header, and the byte order they ask for.
    method Prepare(chunk: seq<byte>) returns (kbuf: array<byte>, count: nat)
      requires Valid()
      modifies this`endianSwap
      ensures fresh(kbuf) && count <= kbuf.Length
      ensures var buf := residueBuf[..residueLen] + chunk;
        if pos == 0 && Found(buf)
        then kbuf[..count] == buf[HeaderLength(buf)..] && endianSwap == IsSwapped(buf)
        else kbuf[..count] == buf && endianSwap == old(endianSwap)
    {
      hide FirstSync, Found, HeaderLength, IsSwapped;
      kbuf := Collect(chunk);
      count := |chunk| + residueLen;
      ghost var buf := kbuf[..];
      ShortHasNoSync(buf);
      if pos == 0 && count > 4 {
        count := StripHeader(kbuf, count);
      }
    }

    // Whole words to the DMA engine, the rest kept.
    method Send(kbuf: array<byte>, count: nat)
      requires Valid() && count <= kbuf.Length && kbuf != residueBuf
      modifies this`residueLen, this`dma, residueBuf, kbuf
      ensures Valid() && State() == Emit(old(State()), old(kbuf[..count]), endianSwap, pos)
    {
      hide SwapWords;
      ghost var body := kbuf[..count];
      SaveStragglers(kbuf, count);
      var words := count - residueLen;
      assert kbuf[..words] == body[..words] && kbuf[words..count] == body[words..];
      if endianSwap {
        SwapInPlace(kbuf, words);
      }
      dma := dma + kbuf[..words];
    }

    // The stragglers of last time, then the new data.
    method Collect(chunk: seq<byte>) returns (kbuf: array<byte>)
      requires Valid()
      ensures fresh(kbuf) && kbuf[..] == residueBuf[..residueLen] + chunk
    {
      kbuf := new byte[residueLen + |chunk|];
      forall i | 0 <= i < residueLen {
        kbuf[i] := residueBuf[i];
      }
      forall i | 0 <= i < |chunk| {
        kbuf[residueLen + i] := chunk[i];
      }
    }

    method SaveStragglers(kbuf: array<byte>, count: nat)
      requires Valid() && count <= kbuf.Length && kbuf != residueBuf
      modifies this`residueLen, residueBuf
      ensures Valid() && residueLen == count % 4
      ensures residueBuf[..residueLen] == kbuf[count - residueLen..count]
    {
      residueLen := count % 4;
      forall i | 0 <= i < residueLen {
        residueBuf[i] := kbuf[count - residueLen + i];
      }
    }

    // Looks for the sync word, remembers the byte order, and moves the rest of the
    // data to the front of the buffer.
    method StripHeader(kbuf: array<byte>, count: nat) returns (count': nat)
      requires Valid() && 4 < count == kbuf.Length && kbuf != residueBuf
      modifies this`endianSwap, kbuf
      ensures var buf := old(kbuf[..]);
        if Found(buf)
        then count' == count - HeaderLength(buf) && kbuf[..count'] == buf[HeaderLength(buf)..]
          && endianSwap == IsSwapped(buf)
        else count' == count && kbuf[..] == buf && endianSwap == old(endianSwap)
    {
      ghost var buf := kbuf[..];
      var i, swap := FindSync(kbuf, count, endianSwap);
      endianSwap := swap;
      count' := count;
      if i != count - 4 {
        count' := count' - i;
        forall j | 0 <= j < count' {
          kbuf[j] := kbuf[i + j];
        }
        assert kbuf[..count'] == buf[i..];
      }
    }

    method FindSync(kbuf: array<byte>, count: nat, swap0: bool) returns (i: nat, swap: bool)
      requires 4 < count == kbuf.Length
      ensures i == FirstSync(kbuf[..], 0)
      ensures swap == if Found(kbuf[..]) then IsSwapped(kbuf[..]) else swap0
    {
      ghost var buf := kbuf[..];
      i, swap := 0, swap0;
      while i < count - 4
        invariant i + 4 <= count && swap == swap0
        invariant FirstSync(buf, i) == FirstSync(buf, 0)
      {
        assert FirstSync(buf, i) == if SyncAt(buf, i) then i else FirstSync(buf, i + 1);
        if kbuf[i] == 0x66 && kbuf[i + 1] == 0x55 && kbuf[i + 2] == 0x99 && kbuf[i + 3] == 0xAA {
          swap := false;
          break;
        }
        if kbuf[i] == 0xAA && kbuf[i + 1] == 0x99 && kbuf[i + 2] == 0x55 && kbuf[i + 3] == 0x66 {
          swap := true;
          break;
        }
        i := i + 1;
      }
    }

    method SwapInPlace(kbuf: array<byte>, count: nat)
      requires count <= kbuf.Length && count % 4 == 0
      modifies kbuf
      ensures kbuf[..count] == SwapWords(old(kbuf[..count]))
    {
      hide SwapWords;
      ghost var before := kbuf[..count];
      var i := 0;
      NoWords();
      while i < count
        invariant 0 <= i <= count && i % 4 == 0
        invariant kbuf[..i] == SwapWords(before[..i])
        invariant kbuf[i..count] == before[i..]
      {
        SwapNext(kbuf, count, i, before);
        i := i + 4;
      }
      assert before[..count] == before;
    }

    // Words below i are swapped, the rest is as before; now word i.
    method SwapNext(kbuf: array<byte>, count: nat, i: nat, ghost before: seq<byte>)
      requires i + 4 <= count == |before| && count <= kbuf.Length && i % 4 == 0
      requires kbuf[..i] == SwapWords(before[..i]) && kbuf[i..count] == before[i..]
      modifies kbuf
      ensures kbuf[..i + 4] == SwapWords(before[..i + 4]) && kbuf[i + 4..count] == before[i + 4..]
    {
      hide SwapWords;
      ghost var w, tail := before[i..i + 4], before[i + 4..];
      assert kbuf[i..count] == w + tail;
      SplitStretch(kbuf[..], i, count, w, tail);
      SwapWordAt(kbuf, i);
      OneWord(w);
      SwapWordsAppend(before[..i], w);
      assert before[..i] + w == before[..i + 4];
      assert kbuf[..i + 4] == kbuf[..i] + kbuf[i..i + 4];
      assert kbuf[i + 4..count] == kbuf[i + 4..][..count - i - 4];
    }

    method SwapWordAt(kbuf: array<byte>, i: nat)
      requires i + 4 <= kbuf.Length
      modifies kbuf
      ensures kbuf[..i] == old(kbuf[..i]) && kbuf[i + 4..] == old(kbuf[i + 4..])
      ensures kbuf[i..i + 4] == [old(kbuf[i + 3]), old(kbuf[i + 2]), old(kbuf[i + 1]), old(kbuf[i])]
    {
      kbuf[i], kbuf[i + 1], kbuf[i + 2], kbuf[i + 3] := kbuf[i + 3], kbuf[i + 2], kbuf[i + 1], kbuf[i];
    }
  }

  lemma EmitOnlyAppends(a: Device, b: Device, body: seq<byte>, swap: bool, p: nat, q: nat)
    requires a.dma == b.dma
    ensures Emit(a, body, swap, q) == Emit(b, body, swap, p).(pos := q)
  {
  }

  lemma ShortHasNoSync(b: seq<byte>)
    ensures |b| <= 4 ==> !Found(b)
  {
  }

  lemma SplitStretch(b: seq<byte>, i: nat, count: nat, w: seq<byte>, tail: seq<byte>)
    requires |w| == 4 && i + 4 <= count <= |b| && b[i..count] == w + tail
    ensures b[i..i + 4] == w && b[i + 4..][..count - i - 4] == tail
    ensures b[i] == w[0] && b[i + 1] == w[1] && b[i + 2] == w[2] && b[i + 3] == w[3]
  {
    assert b[i..count][..4] == b[i..i + 4] && b[i..count][4..] == b[i + 4..count];
  }

  lemma NoWords()
    ensures SwapWords([]) == []
  {
  }

  lemma OneWord(w: seq<byte>)
    requires |w| == 4
    ensures SwapWords(w) == [w[3], w[2], w[1], w[0]]
  {
    assert w[4..] == [];
  }
}

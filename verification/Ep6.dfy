/** The EP6 stream of the receiver: samples of all receivers interleaved into frames,
    two frames to a datagram. */
module Ep6Format {
  import opened Widths
  import opened Arith

  predicate ReceiverCount(r: nat) { 1 <= r <= 8 }

  // Bytes per slot, slots per frame, datagrams per round.
  function SlotSize(r: nat): nat { r * 6 + 2 }

  function Slots(r: nat): nat { Quotient(504, SlotSize(r)) }

  function Datagrams(r: nat): nat
    requires ReceiverCount(r)
  {
    SlotsPositive(r);
    Quotient(128, Slots(r))
  }

  // The cursor after j slots.
  function SlotPos(j: nat, r: nat): nat
  {
    if j == 0 then 0 else SlotPos(j - 1, r) + SlotSize(r)
  }

  lemma {:induction false} SlotPosIs(j: nat, r: nat)
    ensures SlotPos(j, r) == j * SlotSize(r)
  {
    if j == 0 {
    } else {
      SlotPosIs(j - 1, r);
      MulStep(j, SlotSize(r));
    }
  }

  lemma {:induction false} SlotPosGrows(j: nat, n: nat, r: nat)
    requires j < n
    ensures SlotPos(j, r) + SlotSize(r) <= SlotPos(n, r)
    decreases n
  {
    if j >= n - 1 {
    } else {
      SlotPosGrows(j, n - 1, r);
    }
  }

  lemma SlotsPositive(r: nat)
    requires ReceiverCount(r)
    ensures Slots(r) >= 10
  {
    RoundTable(r);
  }

  // All eight cases; no round needs more than twelve datagrams or 12288 sample bytes.
  lemma RoundTable(r: nat)
    requires ReceiverCount(r)
    ensures r == 1 ==> Slots(r) == 63 && 128 / 63 == 2
    ensures r == 2 ==> Slots(r) == 36 && 128 / 36 == 3
    ensures r == 3 ==> Slots(r) == 25 && 128 / 25 == 5
    ensures r == 4 ==> Slots(r) == 19 && 128 / 19 == 6
    ensures r == 5 ==> Slots(r) == 15 && 128 / 15 == 8
    ensures r == 6 ==> Slots(r) == 13 && 128 / 13 == 9
    ensures r == 7 ==> Slots(r) == 11 && 128 / 11 == 11
    ensures r == 8 ==> Slots(r) == 10 && 128 / 10 == 12
  {
    if r == 1 { assert SlotSize(r) == 8; }
    if r == 2 { assert SlotSize(r) == 14; }
    if r == 3 { assert SlotSize(r) == 20; }
    if r == 4 { assert SlotSize(r) == 26; }
    if r == 5 { assert SlotSize(r) == 32; }
    if r == 6 { assert SlotSize(r) == 38; }
    if r == 7 { assert SlotSize(r) == 44; }
    if r == 8 { assert SlotSize(r) == 50; }
  }

  lemma RoundFits(r: nat)
    requires ReceiverCount(r)
    ensures SlotPos(Slots(r), r) <= 504
    ensures 1 <= Datagrams(r) <= 12
    ensures 96 * (Datagrams(r) * Slots(r)) <= 12288
  {
    SlotPosIs(Slots(r), r);
    RoundTable(r);
  }

  // As many slots go into a frame, and datagrams into a round, as there is room for.
  lemma RoundIsFull(r: nat)
    requires ReceiverCount(r)
    ensures Slots(r) * (6 * r + 2) <= 504 < (Slots(r) + 1) * (6 * r + 2)
    ensures Datagrams(r) * Slots(r) <= 128 < (Datagrams(r) + 1) * Slots(r)
  {
    SlotsPositive(r);
    DivBounds(504, SlotSize(r));
    DivBounds(128, Slots(r));
    MulStep(Slots(r) + 1, SlotSize(r));
    MulStep(Datagrams(r) + 1, Slots(r));
  }

  // Where frame i of a round goes.
  function FrameOffset(i: nat): nat { i * 516 - i % 2 * 4 + 8 }

  // Main result: the frames tile each 1032-byte datagram after its 8-byte header.
  lemma FramesTile(i: nat)
    ensures FrameOffset(i) == 1032 * (i / 2) + 8 + 512 * (i % 2)
    ensures FrameOffset(i) + 512 <= FrameOffset(i + 1)
    ensures i % 2 == 0 ==> FrameOffset(i) + 512 == FrameOffset(i + 1)
    ensures i % 2 == 1 ==> FrameOffset(i) + 512 == 1032 * (i / 2 + 1)
  {
    assert i == 2 * (i / 2) + i % 2;
  }

  lemma {:induction false} FramesApart(i: nat, j: nat)
    requires i < j
    ensures FrameOffset(i) + 512 <= FrameOffset(j)
    decreases j
  {
    FramesTile(j - 1);
    if i >= j - 1 {
    } else {
      FramesApart(i, j - 1);
    }
  }

  // The used part of sample k: every sample takes 48 bytes of the block.
  function Sample(data: seq<byte>, k: nat, r: nat): seq<byte>
    requires ReceiverCount(r) && 48 * k + 48 <= |data|
  {
    data[48 * k..48 * k + SlotSize(r) - 2]
  }

  // n slots from sample k on: the sample and two zero bytes each.
  function SlotBytes(data: seq<byte>, k: nat, n: nat, r: nat): seq<byte>
    requires ReceiverCount(r) && 48 * (k + n) <= |data|
  {
    if n == 0 then [] else SlotBytes(data, k, n - 1, r) + Sample(data, k + n - 1, r) + [0, 0]
  }

  lemma {:induction false} SlotBytesLength(data: seq<byte>, k: nat, n: nat, r: nat)
    requires ReceiverCount(r) && 48 * (k + n) <= |data|
    ensures |SlotBytes(data, k, n, r)| == SlotPos(n, r)
  {
    if n == 0 {
    } else {
      SlotBytesLength(data, k, n - 1, r);
    }
  }

  function FrameBytes(header: seq<byte>, data: seq<byte>, k: nat, r: nat): seq<byte>
    requires ReceiverCount(r) && |header| == 8 && 48 * (k + Slots(r)) <= |data|
  {
    header + Filled(SlotBytes(data, k, Slots(r), r))
  }

  // The 504 bytes of a frame after its header.
  function Filled(slots: seq<byte>): seq<byte>
  {
    slots + Zeros(if |slots| <= 504 then 504 - |slots| else 0)
  }

  // --- Taking a frame apart ------------------------------------------------------------

  // The sample in slot j of a frame.
  function Decode(frame: seq<byte>, j: nat, r: nat): seq<byte>
    requires ReceiverCount(r) && 8 + SlotPos(j, r) + SlotSize(r) <= |frame|
  {
    frame[8 + SlotPos(j, r)..8 + SlotPos(j, r) + SlotSize(r)][..SlotSize(r) - 2]
  }

  // Slot j of a run of slots.
  lemma {:induction false} SlotAt(data: seq<byte>, k: nat, n: nat, r: nat, j: nat)
    requires ReceiverCount(r) && 48 * (k + n) <= |data| && j < n
    ensures SlotPos(j, r) + SlotSize(r) <= SlotPos(n, r) == |SlotBytes(data, k, n, r)|
    ensures SlotBytes(data, k, n, r)[SlotPos(j, r)..SlotPos(j, r) + SlotSize(r)] == Sample(data, k + j, r) + [0, 0]
    decreases n
  {
    hide SlotSize, SlotBytes, Sample, SlotPos;
    SlotsSnoc(data, k, n, r);
    SlotPosGrows(j, n, r);
    var front, last := SlotBytes(data, k, n - 1, r), Sample(data, k + n - 1, r) + [0, 0];
    if j < n - 1 {
      SlotAt(data, k, n - 1, r, j);
      Within(front, last, SlotPos(j, r), SlotPos(j, r) + SlotSize(r));
    } else {
      Tail(front, last);
    }
  }

  lemma SlotsSnoc(data: seq<byte>, k: nat, n: nat, r: nat)
    requires ReceiverCount(r) && 48 * (k + n) <= |data| && n >= 1
    ensures SlotBytes(data, k, n, r) == SlotBytes(data, k, n - 1, r) + (Sample(data, k + n - 1, r) + [0, 0])
    ensures |SlotBytes(data, k, n - 1, r)| == SlotPos(n - 1, r) && |Sample(data, k + n - 1, r) + [0, 0]| == SlotSize(r)
    ensures |SlotBytes(data, k, n, r)| == SlotPos(n, r) == SlotPos(n - 1, r) + SlotSize(r)
  {
    SlotBytesLength(data, k, n - 1, r);
    SampleLength(data, k + n - 1, r);
    hide Sample;
  }

  lemma Within(front: seq<byte>, last: seq<byte>, a: nat, b: nat)
    requires a <= b <= |front|
    ensures (front + last)[a..b] == front[a..b]
  {
  }

  lemma Tail(front: seq<byte>, last: seq<byte>)
    ensures (front + last)[|front|..|front| + |last|] == last
  {
  }

  // Main result: every slot of a frame gives back its sample.
  lemma DecodeUndoesFrame(header: seq<byte>, data: seq<byte>, k: nat, r: nat, j: nat)
    requires ReceiverCount(r) && |header| == 8 && 48 * (k + Slots(r)) <= |data| && j < Slots(r)
    ensures |FrameBytes(header, data, k, r)| == 512
    ensures 8 + SlotPos(j, r) + SlotSize(r) <= 512
    ensures Decode(FrameBytes(header, data, k, r), j, r) == Sample(data, k + j, r)
  {
    hide SlotSize, Slots, SlotBytes, Datagrams, Sample, Filled, SlotPos;
    RoundFits(r);
    var n := Slots(r);
    SlotAt(data, k, n, r, j);
    FrameSlot(header, SlotBytes(data, k, n, r), SlotPos(j, r), SlotPos(j, r) + SlotSize(r));
    SampleLength(data, k + j, r);
    DropZeros(Sample(data, k + j, r));
  }

  lemma FrameSlot(header: seq<byte>, slots: seq<byte>, a: nat, b: nat)
    requires |header| == 8 && |slots| <= 504 && a <= b <= |slots|
    ensures |header + Filled(slots)| == 512
    ensures (header + Filled(slots))[8 + a..8 + b] == slots[a..b]
  {
  }

  lemma SampleLength(data: seq<byte>, k: nat, r: nat)
    requires ReceiverCount(r) && 48 * k + 48 <= |data|
    ensures |Sample(data, k, r)| == SlotSize(r) - 2
  {
  }

  lemma DropZeros(x: seq<byte>)
    ensures (x + [0, 0])[..|x|] == x
  {
  }

  // --- Counters and headers -------------------------------------------------------------

  const MAGIC: seq<byte> := [0xEF, 0xFE, 0x01, 0x06]

  const HEADERS: seq<byte> := [
    127, 127, 127, 0, 0, 33, 17, 25,
    127, 127, 127, 8, 0, 0, 0, 0,
    127, 127, 127, 16, 0, 0, 0, 0,
    127, 127, 127, 24, 0, 0, 0, 0,
    127, 127, 127, 32, 66, 66, 66, 66]

  // The header of the f-th frame ever sent: five take turns.
  function HeaderOf(f: nat): (h: seq<byte>)
    ensures |h| == 8
  {
    HEADERS[8 * (f % 5)..8 * (f % 5) + 8]
  }

  lemma HeadersCycle(f: nat)
    ensures HeaderOf(f + 5) == HeaderOf(f)
    ensures HeaderOf(f)[3] == 8 * (f % 5)
  {
    UniqueDivMod(f + 5, 5, f / 5 + 1, f % 5);
    HeaderRow(f % 5);
  }

  lemma HeaderRow(i: nat)
    requires i < 5
    ensures HEADERS[8 * i + 3] == 8 * i
  {
    if i == 0 { assert HEADERS[3] == 0; }
    else if i == 1 { assert HEADERS[11] == 8; }
    else if i == 2 { assert HEADERS[19] == 16; }
    else if i == 3 { assert HEADERS[27] == 24; }
    else { assert HEADERS[35] == 32; }
  }

  function Bytes32(v: uint32): (b: seq<byte>)
    ensures |b| == 4
  {
    [v / 0x100_0000, v / 0x1_0000 % 256, v / 0x100 % 256, v % 256]
  }

  function Counter(d: nat): uint32 { d % 0x1_0000_0000 }

  // The d-th datagram ever sent, whose frames start at sample k.
  function DatagramBytes(d: nat, data: seq<byte>, k: nat, r: nat): seq<byte>
    requires ReceiverCount(r) && 48 * (k + 2 * Slots(r)) <= |data|
  {
    MAGIC + Bytes32(Counter(d)) + FrameBytes(HeaderOf(2 * d), data, k, r)
      + FrameBytes(HeaderOf(2 * d + 1), data, k + Slots(r), r)
  }

  lemma CounterStep(d: nat)
    ensures Counter(d + 1) == if Counter(d) == 0xFFFF_FFFF then 0 else Counter(d) + 1
  {
    var q := d / 0x1_0000_0000;
    if Counter(d) == 0xFFFF_FFFF {
      UniqueDivMod(d + 1, 0x1_0000_0000, q + 1, 0);
    } else {
      UniqueDivMod(d + 1, 0x1_0000_0000, q, Counter(d) + 1);
    }
  }

  lemma FrameIs512(header: seq<byte>, data: seq<byte>, k: nat, r: nat)
    requires ReceiverCount(r) && |header| == 8 && 48 * (k + Slots(r)) <= |data|
    ensures |FrameBytes(header, data, k, r)| == 512
  {
    RoundFits(r);
    SlotBytesLength(data, k, Slots(r), r);
  }

  // --- What the receiving end gets back -------------------------------------------------

  // n samples from sample k on.
  function Samples(data: seq<byte>, k: nat, n: nat, r: nat): seq<seq<byte>>
    requires ReceiverCount(r) && 48 * (k + n) <= |data|
  {
    seq(n, j requires 0 <= j < n => Sample(data, k + j, r))
  }

  function DecodeFrame(frame: seq<byte>, r: nat): seq<seq<byte>>
    requires ReceiverCount(r) && |frame| == 512
  {
    SlotsInFrame(r);
    seq(Slots(r), j requires 0 <= j < Slots(r) => Decode(frame, j, r))
  }

  lemma SlotsInFrame(r: nat)
    requires ReceiverCount(r)
    ensures forall j: nat :: j < Slots(r) ==> 8 + SlotPos(j, r) + SlotSize(r) <= 512
  {
    RoundFits(r);
    forall j: nat | j < Slots(r)
      ensures 8 + SlotPos(j, r) + SlotSize(r) <= 512
    {
      SlotPosGrows(j, Slots(r), r);
    }
  }

  function DecodeDatagram(g: seq<byte>, r: nat): seq<seq<byte>>
    requires ReceiverCount(r) && |g| == 1032
  {
    DecodeFrame(g[8..520], r) + DecodeFrame(g[520..1032], r)
  }

  predicate AllWhole(gs: seq<seq<byte>>) { forall i :: 0 <= i < |gs| ==> |gs[i]| == 1032 }

  function DecodeAll(gs: seq<seq<byte>>, r: nat): seq<seq<byte>>
    requires ReceiverCount(r) && AllWhole(gs)
  {
    if gs == [] then [] else DecodeAll(gs[..|gs| - 1], r) + DecodeDatagram(gs[|gs| - 1], r)
  }

  lemma FrameDecodes(header: seq<byte>, data: seq<byte>, k: nat, r: nat)
    requires ReceiverCount(r) && |header| == 8 && 48 * (k + Slots(r)) <= |data|
    ensures |FrameBytes(header, data, k, r)| == 512
    ensures DecodeFrame(FrameBytes(header, data, k, r), r) == Samples(data, k, Slots(r), r)
  {
    FrameIs512(header, data, k, r);
    SlotsInFrame(r);
    hide FrameBytes, Slots, SlotSize, SlotPos, Decode, Sample;
    var frame := FrameBytes(header, data, k, r);
    forall j: nat | j < Slots(r)
      ensures 8 + SlotPos(j, r) + SlotSize(r) <= 512 && Decode(frame, j, r) == Sample(data, k + j, r)
    {
      DecodeUndoesFrame(header, data, k, r, j);
    }
  }

  lemma DatagramParts(d: nat, data: seq<byte>, k: nat, r: nat)
    requires ReceiverCount(r) && 48 * (k + 2 * Slots(r)) <= |data|
    ensures var g := DatagramBytes(d, data, k, r);
      && |g| == 1032 && g[..4] == MAGIC && g[4..8] == Bytes32(Counter(d))
      && g[8..520] == FrameBytes(HeaderOf(2 * d), data, k, r)
      && g[520..1032] == FrameBytes(HeaderOf(2 * d + 1), data, k + Slots(r), r)
  {
    FrameIs512(HeaderOf(2 * d), data, k, r);
    FrameIs512(HeaderOf(2 * d + 1), data, k + Slots(r), r);
    hide FrameBytes, HeaderOf, Slots, Bytes32, Counter;
    Four(MAGIC, Bytes32(Counter(d)), FrameBytes(HeaderOf(2 * d), data, k, r),
      FrameBytes(HeaderOf(2 * d + 1), data, k + Slots(r), r));
  }

  lemma Four(a: seq<byte>, b: seq<byte>, c: seq<byte>, e: seq<byte>)
    requires |a| == |b| == 4 && |c| == |e| == 512
    ensures var g := a + b + c + e;
      |g| == 1032 && g[..4] == a && g[4..8] == b && g[8..520] == c && g[520..1032] == e
  {
  }

  lemma JoinSamples(data: seq<byte>, k: nat, n: nat, m: nat, r: nat)
    requires ReceiverCount(r) && 48 * (k + n + m) <= |data|
    ensures Samples(data, k, n, r) + Samples(data, k + n, m, r) == Samples(data, k, n + m, r)
  {
    hide Sample;
  }

  // Main result: datagram d starts with the magic word and d modulo 2^32 in network order, and its
  // frames are the next two of the five kinds.
  lemma DatagramStarts(d: nat, data: seq<byte>, k: nat, r: nat)
    requires ReceiverCount(r) && 48 * (k + 2 * Slots(r)) <= |data|
    ensures var g, c := DatagramBytes(d, data, k, r), d % 0x1_0000_0000;
      && |g| == 1032
      && g[..8] == [0xEF, 0xFE, 0x01, 0x06, c / 0x100_0000, c / 0x1_0000 % 256, c / 0x100 % 256, c % 256]
      && g[11] == 8 * (2 * d % 5) && g[523] == 8 * ((2 * d + 1) % 5)
  {
    hide DatagramBytes, HeaderOf, FrameBytes;
    DatagramParts(d, data, k, r);
    HeadersCycle(2 * d);
    HeadersCycle(2 * d + 1);
    FrameStarts(HeaderOf(2 * d), data, k, r);
    FrameStarts(HeaderOf(2 * d + 1), data, k + Slots(r), r);
    var g := DatagramBytes(d, data, k, r);
    assert g[..8] == g[..4] + g[4..8];
    assert g[8..520][3] == g[11] && g[520..1032][3] == g[523];
  }

  lemma FrameStarts(header: seq<byte>, data: seq<byte>, k: nat, r: nat)
    requires ReceiverCount(r) && |header| == 8 && 48 * (k + Slots(r)) <= |data|
    ensures |FrameBytes(header, data, k, r)| == 512 && FrameBytes(header, data, k, r)[3] == header[3]
  {
    FrameIs512(header, data, k, r);
  }

  // Main result: receiver q of slot j in a frame reads the six bytes that it has in the sample.
  lemma ReceiverReads(header: seq<byte>, data: seq<byte>, k: nat, r: nat, j: nat, q: nat, b: nat)
    requires ReceiverCount(r) && |header| == 8 && 48 * (k + Slots(r)) <= |data| && j < Slots(r) && q < r && b < 6
    ensures SlotPos(j, r) == j * (6 * r + 2)
    ensures |FrameBytes(header, data, k, r)| == 512 && 8 + SlotPos(j, r) + 6 * q + b < 512
    ensures FrameBytes(header, data, k, r)[8 + SlotPos(j, r) + 6 * q + b] == data[48 * (k + j) + 6 * q + b]
  {
    DecodeUndoesFrame(header, data, k, r, j);
    SlotPosIs(j, r);
    SampleLength(data, k + j, r);
    hide FrameBytes, Slots, SlotPos;
    var i := 6 * q + b;
    assert Sample(data, k + j, r)[i] == data[48 * (k + j) + i];
  }

  lemma DatagramDecodes(d: nat, data: seq<byte>, k: nat, r: nat)
    requires ReceiverCount(r) && 48 * (k + 2 * Slots(r)) <= |data|
    ensures |DatagramBytes(d, data, k, r)| == 1032
    ensures DecodeDatagram(DatagramBytes(d, data, k, r), r) == Samples(data, k, 2 * Slots(r), r)
  {
    hide DecodeFrame, Slots, Samples, FrameBytes, DatagramBytes;
    DatagramParts(d, data, k, r);
    FrameDecodes(HeaderOf(2 * d), data, k, r);
    FrameDecodes(HeaderOf(2 * d + 1), data, k + Slots(r), r);
    JoinSamples(data, k, Slots(r), Slots(r), r);
  }

  // The sample that datagram i of a round starts with.
  function Start(i: nat, r: nat): nat
  {
    if i == 0 then 0 else Start(i - 1, r) + 2 * Slots(r)
  }

  lemma {:induction false} StartIs(i: nat, r: nat)
    ensures Start(i, r) == 2 * (i * Slots(r))
  {
    if i == 0 {
    } else {
      StartIs(i - 1, r);
      MulStep(i, Slots(r));
    }
  }

  // The first m datagrams of a round that follows datagram number `first`.
  function RoundBytes(first: nat, m: nat, data: seq<byte>, r: nat): seq<seq<byte>>
    requires ReceiverCount(r) && 48 * Start(m, r) <= |data|
  {
    if m == 0 then [] else RoundBytes(first, m - 1, data, r) + [DatagramBytes(first + m - 1, data, Start(m - 1, r), r)]
  }

  // Main result: the datagrams of a round give back every sample of the round, in order.
  lemma {:induction false} RoundDecodes(first: nat, m: nat, data: seq<byte>, r: nat)
    requires ReceiverCount(r) && 48 * Start(m, r) <= |data|
    ensures |RoundBytes(first, m, data, r)| == m && AllWhole(RoundBytes(first, m, data, r))
    ensures DecodeAll(RoundBytes(first, m, data, r), r) == Samples(data, 0, Start(m, r), r)
  {
    hide Slots, Samples, DatagramBytes, DecodeDatagram;
    if m == 0 {
      assert DecodeAll([], r) == [];
      NoSamples(data, r);
    } else {
      RoundDecodes(first, m - 1, data, r);
      var front, last := RoundBytes(first, m - 1, data, r), DatagramBytes(first + m - 1, data, Start(m - 1, r), r);
      DatagramDecodes(first + m - 1, data, Start(m - 1, r), r);
      DecodeSnoc(front, last, r);
      JoinSamples(data, 0, Start(m - 1, r), 2 * Slots(r), r);
    }
  }

  lemma NoSamples(data: seq<byte>, r: nat)
    requires ReceiverCount(r)
    ensures Samples(data, 0, 0, r) == []
  {
  }

  lemma DecodeSnoc(front: seq<seq<byte>>, last: seq<byte>, r: nat)
    requires ReceiverCount(r) && AllWhole(front) && |last| == 1032
    ensures AllWhole(front + [last])
    ensures DecodeAll(front + [last], r) == DecodeAll(front, r) + DecodeDatagram(last, r)
  {
    hide DecodeDatagram;
    assert (front + [last])[..|front|] == front;
  }
}

/** The sender: one buffer of twelve datagrams, filled in place round after round. */
module Ep6 {
  import opened Widths
  import opened Arith
  import opened Splicing
  import opened Ep6Format

  const BUFFER_SIZE: nat := 12384

  // v stands at `from`.
  predicate Holds(b: seq<byte>, from: nat, v: seq<byte>)
  {
    from + |v| <= |b| && b[from..from + |v|] == v
  }

  lemma HoldsKept(b: seq<byte>, at: nat, data: seq<byte>, from: nat, v: seq<byte>)
    requires Holds(b, from, v) && at + |data| <= |b|
    requires at + |data| <= from || from + |v| <= at
    ensures Holds(Splice(b, at, data), from, v)
  {
    SpliceElsewhere(b, at, data, from, from + |v|);
  }

  lemma HoldsNew(b: seq<byte>, at: nat, data: seq<byte>)
    requires at + |data| <= |b|
    ensures Holds(Splice(b, at, data), at, data)
  {
  }

  predicate MagicAt(b: seq<byte>, d: nat) { Holds(b, 1032 * d, MAGIC) }

  predicate Stamped(b: seq<byte>, n: nat) { forall d: nat :: d < n ==> MagicAt(b, d) }

  // Datagram d of a round carries its counter.
  predicate CounterAt(b: seq<byte>, d: nat, first: nat) { Holds(b, 1032 * d + 4, Bytes32(Counter(first + d))) }

  predicate CountersWritten(b: seq<byte>, m: nat, first: nat) { forall d: nat :: d < m ==> CounterAt(b, d, first) }

  lemma OneStamp(b: seq<byte>, i: nat)
    requires Stamped(b, i) && i < 12 && |b| == BUFFER_SIZE
    ensures Stamped(Splice(b, 1032 * i, MAGIC), i + 1)
  {
    hide Splice, Holds;
    var c := Splice(b, 1032 * i, MAGIC);
    forall d: nat | d < i + 1
      ensures MagicAt(c, d)
    {
      if d < i {
        assert MagicAt(b, d);
        HoldsKept(b, 1032 * i, MAGIC, 1032 * d, MAGIC);
      } else {
        HoldsNew(b, 1032 * i, MAGIC);
      }
    }
  }

  lemma OneCounter(b: seq<byte>, i: nat, first: nat)
    requires CountersWritten(b, i, first) && Stamped(b, 12) && i < 12 && |b| == BUFFER_SIZE
    ensures var c := Splice(b, 1032 * i + 4, Bytes32(Counter(first + i)));
      CountersWritten(c, i + 1, first) && Stamped(c, 12)
  {
    hide Splice, Holds, Bytes32, Counter;
    var v := Bytes32(Counter(first + i));
    var c := Splice(b, 1032 * i + 4, v);
    forall d: nat | d < i + 1
      ensures CounterAt(c, d, first)
    {
      if d < i {
        assert CounterAt(b, d, first);
        HoldsKept(b, 1032 * i + 4, v, 1032 * d + 4, Bytes32(Counter(first + d)));
      } else {
        HoldsNew(b, 1032 * i + 4, v);
      }
    }
    forall d: nat | d < 12
      ensures MagicAt(c, d)
    {
      assert MagicAt(b, d);
      HoldsKept(b, 1032 * i + 4, v, 1032 * d, MAGIC);
    }
  }

  // The sample that frame i of a round starts with.
  function FrameStart(i: nat, r: nat): nat
  {
    if i == 0 then 0 else FrameStart(i - 1, r) + Slots(r)
  }

  lemma {:induction false} FrameStartGrows(i: nat, j: nat, r: nat)
    requires i <= j
    ensures FrameStart(i, r) <= FrameStart(j, r)
    decreases j
  {
    if i >= j {
    } else {
      FrameStartGrows(i, j - 1, r);
    }
  }

  lemma {:induction false} FrameStartIsStart(d: nat, r: nat)
    ensures FrameStart(2 * d, r) == Start(d, r) && FrameStart(2 * d + 1, r) == Start(d, r) + Slots(r)
  {
    if d == 0 {
    } else {
      FrameStartIsStart(d - 1, r);
      assert FrameStart(2 * d, r) == FrameStart(2 * d - 1, r) + Slots(r);
    }
  }

  // There are samples for frame j.
  predicate HasSamples(data: seq<byte>, j: nat, r: nat) { 48 * FrameStart(j + 1, r) <= |data| }

  // Frame j of the round, which is frame first + j of all.
  function FrameOf(j: nat, first: nat, data: seq<byte>, r: nat): seq<byte>
    requires ReceiverCount(r) && HasSamples(data, j, r)
  {
    FrameBytes(HeaderOf(first + j), data, FrameStart(j, r), r)
  }

  lemma FrameOfLength(j: nat, first: nat, data: seq<byte>, r: nat)
    requires ReceiverCount(r) && HasSamples(data, j, r)
    ensures |FrameOf(j, first, data, r)| == 512
  {
    FrameIs512(HeaderOf(first + j), data, FrameStart(j, r), r);
  }

  predicate FrameAt(b: seq<byte>, j: nat, first: nat, data: seq<byte>, r: nat)
    requires ReceiverCount(r)
  {
    HasSamples(data, j, r) && Holds(b, FrameOffset(j), FrameOf(j, first, data, r))
  }

  predicate FramesWritten(b: seq<byte>, i: nat, first: nat, data: seq<byte>, r: nat)
    requires ReceiverCount(r)
  {
    forall j: nat :: j < i ==> FrameAt(b, j, first, data, r)
  }

  lemma FrameInBuffer(i: nat)
    requires i < 24
    ensures FrameOffset(i) + 512 <= BUFFER_SIZE
    ensures 1032 * (i / 2) + 8 <= FrameOffset(i) && FrameOffset(i) + 512 <= 1032 * (i / 2) + 1032
  {
    FramesTile(i);
  }

  lemma OneFrame(b: seq<byte>, i: nat, first: nat, data: seq<byte>, r: nat)
    requires ReceiverCount(r) && i < 24 && |b| == BUFFER_SIZE && HasSamples(data, i, r)
    requires FramesWritten(b, i, first, data, r)
    ensures |FrameOf(i, first, data, r)| == 512 && FrameOffset(i) + 512 <= |b|
    ensures FramesWritten(Splice(b, FrameOffset(i), FrameOf(i, first, data, r)), i + 1, first, data, r)
  {
    hide FrameOf, FrameOffset, Splice, Holds, HasSamples;
    FrameInBuffer(i);
    FrameOfLength(i, first, data, r);
    var at, v := FrameOffset(i), FrameOf(i, first, data, r);
    var c := Splice(b, at, v);
    forall j: nat | j < i + 1
      ensures FrameAt(c, j, first, data, r)
    {
      if j < i {
        assert FrameAt(b, j, first, data, r);
        FrameOfLength(j, first, data, r);
        FramesApart(j, i);
        HoldsKept(b, at, v, FrameOffset(j), FrameOf(j, first, data, r));
      } else {
        HoldsNew(b, at, v);
      }
    }
  }

  // A frame leaves every datagram's first eight bytes alone.
  lemma HeadersKept(b: seq<byte>, i: nat, v: seq<byte>, m: nat, first: nat)
    requires i < 24 && |b| == BUFFER_SIZE && |v| == 512 && m <= 12
    requires CountersWritten(b, m, first) && Stamped(b, 12)
    ensures FrameOffset(i) + 512 <= |b|
    ensures var c := Splice(b, FrameOffset(i), v); CountersWritten(c, m, first) && Stamped(c, 12)
  {
    hide Splice, Holds, Bytes32, Counter, FrameOffset;
    FrameInBuffer(i);
    var e, at := i / 2, FrameOffset(i);
    var c := Splice(b, at, v);
    forall d: nat | d < m
      ensures CounterAt(c, d, first)
    {
      assert CounterAt(b, d, first);
      Between(d, e, at);
      HoldsKept(b, at, v, 1032 * d + 4, Bytes32(Counter(first + d)));
    }
    forall d: nat | d < 12
      ensures MagicAt(c, d)
    {
      assert MagicAt(b, d);
      Between(d, e, at);
      HoldsKept(b, at, v, 1032 * d, MAGIC);
    }
  }

  lemma Between(d: nat, e: nat, at: nat)
    requires 1032 * e + 8 <= at && at + 512 <= 1032 * e + 1032
    ensures 1032 * d + 8 <= at || at + 512 <= 1032 * d
  {
    if d <= e { assert 1032 * d <= 1032 * e; } else { assert 1032 * (e + 1) <= 1032 * d; }
  }

  // Header bytes, counter and two frames in place are the datagram.
  lemma DatagramIs(b: seq<byte>, d: nat, m: nat, first: nat, data: seq<byte>, r: nat)
    requires ReceiverCount(r) && |b| == BUFFER_SIZE && d < m <= 12 && 48 * Start(m, r) <= |data|
    requires Stamped(b, 12) && CountersWritten(b, m, first) && FramesWritten(b, 2 * m, 2 * first, data, r)
    ensures 48 * (Start(d, r) + 2 * Slots(r)) <= |data|
    ensures b[1032 * d..1032 * d + 1032] == DatagramBytes(first + d, data, Start(d, r), r)
  {
    hide FrameOf, Holds, FrameOffset, FrameBytes, HeaderOf, Counter, Bytes32, Slots, FrameStart, Start, HasSamples;
    assert FrameAt(b, 2 * d, 2 * first, data, r) && FrameAt(b, 2 * d + 1, 2 * first, data, r);
    assert MagicAt(b, d) && CounterAt(b, d, first);
    StartWithin(d, m, r);
    FrameOfLength(2 * d, 2 * first, data, r);
    FrameOfLength(2 * d + 1, 2 * first, data, r);
    FramePlaces(d);
    FramesOfDatagram(d, first, data, r);
    HeldTogether(b, 1032 * d, MAGIC, Bytes32(Counter(first + d)), FrameOf(2 * d, 2 * first, data, r),
      FrameOf(2 * d + 1, 2 * first, data, r));
  }

  lemma {:induction false} StartWithin(d: nat, m: nat, r: nat)
    requires d < m
    ensures Start(d, r) + 2 * Slots(r) <= Start(m, r)
    decreases m
  {
    hide Slots;
    if d >= m - 1 {
    } else {
      StartWithin(d, m - 1, r);
    }
  }

  lemma FramesOfDatagram(d: nat, first: nat, data: seq<byte>, r: nat)
    requires ReceiverCount(r) && HasSamples(data, 2 * d, r) && HasSamples(data, 2 * d + 1, r)
    requires 48 * (Start(d, r) + 2 * Slots(r)) <= |data|
    ensures FrameOf(2 * d, 2 * first, data, r) == FrameBytes(HeaderOf(2 * (first + d)), data, Start(d, r), r)
    ensures FrameOf(2 * d + 1, 2 * first, data, r)
         == FrameBytes(HeaderOf(2 * (first + d) + 1), data, Start(d, r) + Slots(r), r)
  {
    hide FrameBytes, HeaderOf, Slots;
    FrameStartIsStart(d, r);
    assert 2 * first + 2 * d == 2 * (first + d);
  }

  lemma FramePlaces(d: nat)
    ensures FrameOffset(2 * d) == 1032 * d + 8 && FrameOffset(2 * d + 1) == 1032 * d + 520
  {
    FramesTile(2 * d);
    FramesTile(2 * d + 1);
  }

  lemma HeldTogether(b: seq<byte>, p: nat, magic: seq<byte>, count: seq<byte>, x: seq<byte>, y: seq<byte>)
    requires |magic| == |count| == 4 && |x| == |y| == 512
    requires Holds(b, p, magic) && Holds(b, p + 4, count) && Holds(b, p + 8, x) && Holds(b, p + 520, y)
    ensures p + 1032 <= |b| && b[p..p + 1032] == magic + count + x + y
  {
    assert b[p..p + 8] == magic + count;
    assert b[p..p + 520] == magic + count + x;
  }

  // The first m datagrams in the buffer.
  function Cut(b: seq<byte>, m: nat): seq<seq<byte>>
    requires 1032 * m <= |b|
  {
    if m == 0 then [] else Cut(b, m - 1) + [b[1032 * (m - 1)..1032 * (m - 1) + 1032]]
  }

  lemma {:induction false} CutIsRound(b: seq<byte>, n: nat, m: nat, first: nat, data: seq<byte>, r: nat)
    requires ReceiverCount(r) && |b| == BUFFER_SIZE && n <= m <= 12 && 48 * Start(m, r) <= |data|
    requires Stamped(b, 12) && CountersWritten(b, m, first) && FramesWritten(b, 2 * m, 2 * first, data, r)
    ensures 48 * Start(n, r) <= |data|
    ensures Cut(b, n) == RoundBytes(first, n, data, r)
  {
    hide Slots, DatagramBytes, Stamped, CountersWritten, FramesWritten;
    if n == 0 {
    } else {
      CutIsRound(b, n - 1, m, first, data, r);
      DatagramIs(b, n - 1, m, first, data, r);
    }
  }

  // --- Filling one frame ----------------------------------------------------------------

  // The next slot goes in right after the slots so far; the zeros stay behind it.
  lemma FillNext(header: seq<byte>, slots: seq<byte>, x: seq<byte>)
    requires |header| == 8 && |slots| + |x| + 2 <= 504
    ensures |header + Filled(slots)| == 512
    ensures Splice(header + Filled(slots), 8 + |slots|, x) == header + Filled(slots + x + [0, 0])
  {
  }

  lemma EmptyFrame(header: seq<byte>, data: seq<byte>, k: nat, r: nat)
    requires ReceiverCount(r) && |header| == 8 && 48 * k <= |data|
    ensures SlotBytes(data, k, 0, r) == [] && header + Filled([]) == header + Zeros(504)
    ensures |header + Zeros(504)| == 512
  {
  }

  lemma NextSlot(data: seq<byte>, k: nat, j: nat, r: nat)
    requires ReceiverCount(r) && 48 * (k + j + 1) <= |data|
    ensures SlotBytes(data, k, j + 1, r) == SlotBytes(data, k, j, r) + Sample(data, k + j, r) + [0, 0]
  {
  }

  lemma FrameLength(header: seq<byte>, slots: seq<byte>)
    requires |header| == 8 && |slots| <= 504
    ensures |header + Filled(slots)| == 512
  {
  }

  // The offset into the five headers and the header it selects.
  lemma HeaderStep(f: nat)
    ensures 8 * (f % 5) <= 32 && HEADERS[8 * (f % 5)..8 * (f % 5) + 8] == HeaderOf(f)
    ensures 8 * ((f + 1) % 5) == if 8 * (f % 5) >= 32 then 0 else 8 * (f % 5) + 8
  {
    hide HEADERS;
    if f % 5 == 4 {
      UniqueDivMod(f + 1, 5, f / 5 + 1, 0);
    } else {
      UniqueDivMod(f + 1, 5, f / 5, f % 5 + 1);
    }
  }

  lemma HeadersLength()
    ensures |HEADERS| == 40
  {
  }

  class Ep6Sender {
    const buffer: array<byte>
    var headerOffset: nat
    var counter: uint32
    var sent: seq<seq<byte>>

    ghost predicate Valid()
      reads this, buffer
    {
      && buffer.Length == BUFFER_SIZE
      && headerOffset == 8 * (2 * |sent| % 5)
      && counter == Counter(|sent|)
      && Stamped(buffer[..], 12)
    }

    constructor ()
      ensures Valid() && fresh(buffer) && sent == []
    {
      buffer := new byte[12384];
      headerOffset, counter, sent := 0, 0, [];
      new;
      for i := 0 to 12
        invariant Stamped(buffer[..], i)
        modifies buffer
      {
        OneStamp(buffer[..], i);
        Copy(1032 * i, MAGIC);
      }
    }

    method Copy(at: nat, data: seq<byte>)
      requires at + |data| <= buffer.Length
      modifies buffer
      ensures buffer[..] == Splice(old(buffer[..]), at, data)
    {
      forall i | 0 <= i < |data| {
        buffer[at + i] := data[i];
      }
    }

    // One frame: header, zeros, then the samples over the zeros.
    method WriteFrame(at: nat, header: seq<byte>, data: seq<byte>, k: nat, r: nat)
      requires ReceiverCount(r) && |header| == 8 && at + 512 <= buffer.Length
      requires 48 * (k + Slots(r)) <= |data|
      modifies buffer
      ensures |FrameBytes(header, data, k, r)| == 512
      ensures buffer[..] == Splice(old(buffer[..]), at, FrameBytes(header, data, k, r))
    {
      hide Splice, Slots, SlotSize, Datagrams, Filled, SlotPos;
      RoundFits(r);
      ghost var b := buffer[..];
      var size, n := SlotSize(r), Slots(r);
      Copy(at, header);
      var pointer := at + 8;
      Copy(pointer, Zeros(504));
      SpliceTwice(b, at, header, Zeros(504));
      EmptyFrame(header, data, k, r);
      for j := 0 to n
        invariant pointer == at + 8 + |SlotBytes(data, k, j, r)|
        invariant |header + Filled(SlotBytes(data, k, j, r))| == 512
        invariant buffer[..] == Splice(b, at, header + Filled(SlotBytes(data, k, j, r)))
      {
        ghost var slots := SlotBytes(data, k, j, r);
        SlotBytesLength(data, k, j, r);
        SlotPosGrows(j, n, r);
        SampleLength(data, k + j, r);
        Copy(pointer, Sample(data, k + j, r));
        FillNext(header, slots, Sample(data, k + j, r));
        SpliceInside(b, at, header + Filled(slots), 8 + |slots|, Sample(data, k + j, r));
        NextSlot(data, k, j, r);
        FrameLength(header, SlotBytes(data, k, j + 1, r));
        pointer := pointer + size;
      }
    }

    // Every datagram of the round gets the next counter.
    method StampCounters(m: nat)
      requires Valid() && m <= 12
      modifies this`counter, buffer
      ensures counter == Counter(|sent| + m)
      ensures Stamped(buffer[..], 12) && CountersWritten(buffer[..], m, |sent|)
    {
      hide Splice, Stamped, CountersWritten, Counter, Bytes32;
      NoCounters(buffer[..], |sent|);
      for i := 0 to m
        invariant counter == Counter(|sent| + i)
        invariant Stamped(buffer[..], 12) && CountersWritten(buffer[..], i, |sent|)
      {
        OneCounter(buffer[..], i, |sent|);
        Copy(1032 * i + 4, Bytes32(counter));
        CounterStep(|sent| + i);
        counter := if counter == 0xFFFF_FFFF then 0 else counter + 1;
      }
    }

    method WriteFrames(m: nat, data: seq<byte>, r: nat)
      requires ReceiverCount(r) && m <= 12 && 48 * Start(m, r) <= |data|
      requires buffer.Length == BUFFER_SIZE && headerOffset == 8 * (2 * |sent| % 5)
      requires Stamped(buffer[..], 12) && CountersWritten(buffer[..], m, |sent|)
      modifies this`headerOffset, buffer
      ensures headerOffset == 8 * (2 * (|sent| + m) % 5)
      ensures Stamped(buffer[..], 12) && CountersWritten(buffer[..], m, |sent|)
      ensures FramesWritten(buffer[..], 2 * m, 2 * |sent|, data, r)
    {
      hide Stamped, CountersWritten, FramesWritten, Slots, HasSamples;
      var k := 0;
      ghost var first := 2 * |sent|;
      NoFrames(buffer[..], first, data, r);
      for i := 0 to 2 * m
        invariant k == FrameStart(i, r)
        invariant headerOffset == 8 * ((first + i) % 5)
        invariant Stamped(buffer[..], 12) && CountersWritten(buffer[..], m, |sent|)
        invariant FramesWritten(buffer[..], i, first, data, r)
      {
        SamplesForFrame(i, m, data, r);
        NextFrame(i, k, data, r, m);
        k := k + Slots(r);
      }
    }

    // Frame i of the round, with the next of the five headers.
    method NextFrame(i: nat, k: nat, data: seq<byte>, r: nat, ghost m: nat)
      requires ReceiverCount(r) && i < 24 && m <= 12 && k == FrameStart(i, r) && HasSamples(data, i, r)
      requires buffer.Length == BUFFER_SIZE && headerOffset == 8 * ((2 * |sent| + i) % 5)
      requires Stamped(buffer[..], 12) && CountersWritten(buffer[..], m, |sent|)
      requires FramesWritten(buffer[..], i, 2 * |sent|, data, r)
      modifies this`headerOffset, buffer
      ensures headerOffset == 8 * ((2 * |sent| + (i + 1)) % 5)
      ensures Stamped(buffer[..], 12) && CountersWritten(buffer[..], m, |sent|)
      ensures FramesWritten(buffer[..], i + 1, 2 * |sent|, data, r)
    {
      hide Splice, Stamped, CountersWritten, FramesWritten, HeaderOf, HEADERS, FrameBytes, Slots;
      ghost var first := 2 * |sent|;
      HeaderStep(first + i);
      HeadersLength();
      OneFrame(buffer[..], i, first, data, r);
      HeadersKept(buffer[..], i, FrameOf(i, first, data, r), m, |sent|);
      WriteFrame(i * 516 - i % 2 * 4 + 8, HEADERS[headerOffset..headerOffset + 8], data, k, r);
      headerOffset := if headerOffset >= 32 then 0 else headerOffset + 8;
    }

    // One round: what is sent is the next datagrams over the samples taken, in order.
    method Round(rx: seq<byte>, r: nat)
      requires Valid() && ReceiverCount(r)
      requires |rx| == 96 * (Datagrams(r) * Slots(r))
      modifies this`headerOffset, this`counter, this`sent, buffer
      ensures Valid()
      ensures 48 * Start(Datagrams(r), r) == |rx| <= 12288
      ensures sent == old(sent) + RoundBytes(|old(sent)|, Datagrams(r), rx, r)
    {
      hide Stamped, CountersWritten, Counter, FramesWritten, Slots, Datagrams, DatagramBytes;
      var m := Datagrams(r);
      RoundFits(r);
      StartIs(m, r);
      StampCounters(m);
      WriteFrames(m, rx, r);
      ghost var first := |sent|;
      CutIsRound(buffer[..], m, m, first, rx, r);
      RoundLength(first, m, rx, r);
      sent := sent + Cut(buffer[..], m);
    }
  }

  lemma SamplesForFrame(i: nat, m: nat, data: seq<byte>, r: nat)
    requires i < 2 * m && 48 * Start(m, r) <= |data|
    ensures HasSamples(data, i, r)
  {
    hide Slots;
    FrameStartIsStart(m, r);
    FrameStartGrows(i + 1, 2 * m, r);
  }

  lemma NoCounters(b: seq<byte>, first: nat)
    ensures CountersWritten(b, 0, first)
  {
  }

  lemma NoFrames(b: seq<byte>, first: nat, data: seq<byte>, r: nat)
    requires ReceiverCount(r)
    ensures FramesWritten(b, 0, first, data, r)
  {
  }

  lemma {:induction false} RoundLength(first: nat, m: nat, data: seq<byte>, r: nat)
    requires ReceiverCount(r) && 48 * Start(m, r) <= |data|
    ensures |RoundBytes(first, m, data, r)| == m
  {
    if m == 0 {
    } else {
      RoundLength(first, m - 1, data, r);
    }
  }
}

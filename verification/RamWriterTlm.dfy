/** Four 16-bit samples in a 64-bit word. */
module Packing {
  import opened Widths
  import opened Arith
  import opened Samples

  function Unsigned(s: int16): (u: nat)
    ensures u < 65536
  {
    if s < 0 then s + 65536 else s
  }

  function Signed(u: nat): int16
    requires u < 65536
  {
    if u >= 32768 then u - 65536 else u
  }

  // A 16-bit pattern moved to lane i of a word.
  function ToLane(u: nat, i: nat): nat
    requires u < 65536 && i < 4
  {
    if i == 0 then u else if i == 1 then 0x1_0000 * u else if i == 2 then 0x1_0000_0000 * u else 0x1_0000_0000_0000 * u
  }

  // The 16-bit pattern in lane i.
  function Lane(w: uint64, i: nat): (u: nat)
    requires i < 4
    ensures u < 65536
  {
    if i == 0 then w % 65536
    else if i == 1 then w / 0x1_0000 % 65536
    else if i == 2 then w / 0x1_0000_0000 % 65536
    else w / 0x1_0000_0000_0000 % 65536
  }

  function Pack(s: seq<int16>): uint64
    requires |s| == 4
  {
    ToLane(Unsigned(s[0]), 0) + ToLane(Unsigned(s[1]), 1) + ToLane(Unsigned(s[2]), 2) + ToLane(Unsigned(s[3]), 3)
  }

  // What the packing loop has built after i samples.
  function PackPrefix(s: seq<int16>, i: nat): nat
    requires |s| == 4 && i <= 4
  {
    if i == 0 then 0 else PackPrefix(s, i - 1) + ToLane(Unsigned(s[i - 1]), i - 1)
  }

  lemma PrefixIsPack(s: seq<int16>)
    requires |s| == 4
    ensures PackPrefix(s, 4) == Pack(s)
  {
    hide ToLane, Unsigned;
    assert PackPrefix(s, 1) == ToLane(Unsigned(s[0]), 0);
    assert PackPrefix(s, 3) == PackPrefix(s, 2) + ToLane(Unsigned(s[2]), 2);
  }

  function UnpackWord(w: uint64): seq<int16>
  {
    [Signed(Lane(w, 0)), Signed(Lane(w, 1)), Signed(Lane(w, 2)), Signed(Lane(w, 3))]
  }

  lemma LanesOf(a: nat, b: nat, c: nat, d: nat)
    requires a < 65536 && b < 65536 && c < 65536 && d < 65536
    ensures var w := a + 0x1_0000 * b + 0x1_0000_0000 * c + 0x1_0000_0000_0000 * d;
      && w < 0x1_0000_0000_0000_0000
      && Lane(w, 0) == a && Lane(w, 1) == b && Lane(w, 2) == c && Lane(w, 3) == d
  {
    var w := a + 0x1_0000 * b + 0x1_0000_0000 * c + 0x1_0000_0000_0000 * d;
    UniqueDivMod(w, 0x1_0000, b + 0x1_0000 * c + 0x1_0000_0000 * d, a);
    UniqueDivMod(b + 0x1_0000 * c + 0x1_0000_0000 * d, 0x1_0000, c + 0x1_0000 * d, b);
    UniqueDivMod(w, 0x1_0000_0000, c + 0x1_0000 * d, a + 0x1_0000 * b);
    UniqueDivMod(c + 0x1_0000 * d, 0x1_0000, d, c);
    UniqueDivMod(w, 0x1_0000_0000_0000, d, a + 0x1_0000 * b + 0x1_0000_0000 * c);
    ModSmall(d, 0x1_0000);
  }

  // No sample is changed by packing it.
  lemma UnpackPack(s: seq<int16>)
    requires |s| == 4
    ensures UnpackWord(Pack(s)) == s
  {
    LanesOf(Unsigned(s[0]), Unsigned(s[1]), Unsigned(s[2]), Unsigned(s[3]));
  }

  // Sample i of four is the two's complement pattern in bits 16 * i and up.
  lemma SamplesInOrder(s: seq<int16>)
    requires |s| == 4
    ensures var w := Pack(s);
      && w % 0x1_0000 == s[0] as int % 0x1_0000 && w / 0x1_0000 % 0x1_0000 == s[1] as int % 0x1_0000
      && w / 0x1_0000_0000 % 0x1_0000 == s[2] as int % 0x1_0000 && w / 0x1_0000_0000_0000 == s[3] as int % 0x1_0000
  {
    var a, b, c, d := Unsigned(s[0]), Unsigned(s[1]), Unsigned(s[2]), Unsigned(s[3]);
    LanesOf(a, b, c, d);
    UniqueDivMod(Pack(s), 0x1_0000_0000_0000, d, a + 0x1_0000 * b + 0x1_0000_0000 * c);
    Pattern(s[0]);
    Pattern(s[1]);
    Pattern(s[2]);
    Pattern(s[3]);
    hide Unsigned;
  }

  lemma Pattern(s: int16)
    ensures Unsigned(s) == s as int % 0x1_0000
  {
  }

  function Unpack(words: seq<uint64>): seq<int16>
  {
    if words == [] then [] else Unpack(words[..|words|-1]) + UnpackWord(words[|words|-1])
  }

  lemma UnpackSnoc(words: seq<uint64>, w: uint64)
    ensures Unpack(words + [w]) == Unpack(words) + UnpackWord(w)
  {
    assert (words + [w])[..|words|] == words;
  }

  lemma {:induction false} UnpackLength(words: seq<uint64>)
    ensures |Unpack(words)| == 4 * |words|
  {
    if words == [] {
    } else {
      UnpackLength(words[..|words| - 1]);
    }
  }

  // Zeros up to a multiple of four.
  function Padded(s: seq<int16>): seq<int16>
  {
    s + seq(Padding(|s|), _ => 0)
  }

  lemma WholeNeedsNoPadding(s: seq<int16>)
    requires |s| % 4 == 0
    ensures Padded(s) == s
  {
  }

  // Padding keeps the samples and adds at most three zeros.
  lemma PaddedWithZeros(s: seq<int16>)
    ensures s <= Padded(s) && |Padded(s)| < |s| + 4
    ensures forall i :: |s| <= i < |Padded(s)| ==> Padded(s)[i] == 0
  {
  }

  lemma PaddedIsWhole(s: seq<int16>)
    ensures |Padded(s)| % 4 == 0
  {
  }
}

/** The SystemC RAM writer: samples are packed four to a word, words leave in AXI4
    bursts, a flush pads and forces out what it can. */
module RamWriterTlm {
  import opened Widths
  import opened Arith
  import opened Samples
  import opened Packing

  datatype Config = Config(baseAddr: nat, bufferSize: nat, burstLen: nat, dataWidth: nat)

  datatype Txn = Txn(address: nat, data: seq<uint64>, burstLen: nat, completed: bool)
  {
    predicate Crosses4kb()
      requires burstLen >= 1
    {
      address / 4096 != (address + burstLen * 8 - 1) / 4096
    }

    // What every transaction looks like, for a positive burst length.
    predicate WellShaped(maxLen: nat) {
      1 <= burstLen <= maxLen && burstLen == |data| && completed && !Crosses4kb()
    }
  }

  datatype State = IDLE | COLLECTING

  function Flatten(txns: seq<Txn>): seq<uint64>
  {
    if txns == [] then [] else Flatten(txns[..|txns|-1]) + txns[|txns|-1].data
  }

  // Every transaction starts where the one before it ended.
  predicate Contiguous(base: nat, txns: seq<Txn>)
  {
    txns == [] ||
    (Contiguous(base, txns[..|txns|-1]) && txns[|txns|-1].address == base + 8 * |Flatten(txns[..|txns|-1])|)
  }

  lemma FlattenSnoc(txns: seq<Txn>, t: Txn)
    ensures Flatten(txns + [t]) == Flatten(txns) + t.data
    ensures forall base: nat :: Contiguous(base, txns + [t]) <==>
      Contiguous(base, txns) && t.address == base + 8 * |Flatten(txns)|
  {
    assert (txns + [t])[..|txns|] == txns;
  }

  // Bytes from ptr to the next page.
  function RoomInPage(ptr: nat): nat { 4096 - ptr % 4096 }

  // How many of n queued words the next burst takes.
  function BurstWords(n: nat, burstLen: nat, ptr: nat): (k: nat)
    ensures k <= n
  {
    var len := Min(n, burstLen);
    if 8 * len > RoomInPage(ptr) then RoomInPage(ptr) / 8 else len
  }

  // Words queued once one more sample has joined the FIFO; a burst leaves exactly
  // when a full burst length is queued.
  function WordsAfter(packed: nat, fifo: nat): nat { if fifo == 3 then packed + 1 else packed }

  // The word is the packed samples, so unpacking the queue gives them back.
  lemma PackedWord(before: seq<uint64>, queue: seq<uint64>, memory: seq<uint64>, samples: seq<int16>)
    requires |samples| == 4 && queue != []
    requires queue[|queue| - 1] == Pack(samples)
    requires before == memory + queue[..|queue| - 1]
    ensures Unpack(memory + queue) == Unpack(before) + samples
  {
    hide Unpack, Pack, UnpackWord;
    assert memory + queue == before + [queue[|queue| - 1]];
    UnpackSnoc(before, queue[|queue| - 1]);
    UnpackPack(samples);
  }

  lemma BurstStaysInPage(n: nat, burstLen: nat, ptr: nat)
    requires BurstWords(n, burstLen, ptr) >= 1
    ensures ptr / 4096 == (ptr + BurstWords(n, burstLen, ptr) * 8 - 1) / 4096
  {
    var k := BurstWords(n, burstLen, ptr);
    assert k * 8 <= RoomInPage(ptr);
    SamePage(ptr, k * 8 - 1);
  }

  lemma SamePage(ptr: nat, d: nat)
    requires d < RoomInPage(ptr)
    ensures ptr / 4096 == (ptr + d) / 4096
  {
  }

  lemma FullPage(ptr: nat)
    ensures ptr % 4096 == 0 ==> RoomInPage(ptr) == 4096
  {
  }

  // From an aligned pointer, a burst takes all it wants or ends on a page boundary.
  lemma SplitEndsOnPage(n: nat, burstLen: nat, ptr: nat)
    requires ptr % 8 == 0 && n >= 1 && burstLen >= 1
    ensures var k := BurstWords(n, burstLen, ptr);
      1 <= k && (k == Min(n, burstLen) || (ptr + 8 * k) % 4096 == 0)
  {
    RoomOfAligned(ptr);
    var room := RoomInPage(ptr) / 8;
    if 8 * Min(n, burstLen) > RoomInPage(ptr) {
      assert ptr + 8 * room == 4096 * (ptr / 4096 + 1);
    }
  }

  lemma RoomOfAligned(ptr: nat)
    requires ptr % 8 == 0
    ensures RoomInPage(ptr) == 8 * (RoomInPage(ptr) / 8) && RoomInPage(ptr) >= 8
  {
    var k := ptr / 8;
    assert ptr == 8 * k;
    assert ptr == (k / 512) * 4096 + 8 * (k % 512);
    UniqueDivMod(ptr, 4096, k / 512, 8 * (k % 512));
  }

  // The transactions since the write pointer was set have no gaps between them.
  ghost predicate Ledger(base: nat, current: seq<Txn>, ptr: nat)
  {
    Contiguous(base, current) && ptr == base + 8 * |Flatten(current)|
  }

  // Memory has grown by what the transactions carried, and the counters say so.
  ghost predicate Carried(before: seq<uint64>, txns: seq<Txn>, memory: seq<uint64>, bytes: nat, count: nat)
  {
    memory == before + Flatten(txns) && bytes == 8 * |Flatten(txns)| && count == |txns|
  }

  lemma CarryOne(before: seq<uint64>, txns: seq<Txn>, memory: seq<uint64>, bytes: nat, count: nat, t: Txn)
    requires Carried(before, txns, memory, bytes, count)
    ensures Carried(before, txns + [t], memory + t.data, bytes + 8 * |t.data|, count + 1)
  {
    FlattenSnoc(txns, t);
    assert before + (Flatten(txns) + t.data) == before + Flatten(txns) + t.data;
  }

  lemma LedgerOne(base: nat, current: seq<Txn>, ptr: nat, t: Txn)
    requires Ledger(base, current, ptr) && t.address == ptr
    ensures Ledger(base, current + [t], ptr + 8 * |t.data|)
  {
    FlattenSnoc(current, t);
  }

  lemma MovedWords(memory: seq<uint64>, queue: seq<uint64>, k: nat)
    requires k <= |queue|
    ensures memory + queue[..k] + queue[k..] == memory + queue
  {
    assert queue[..k] + queue[k..] == queue;
  }

  lemma KeptPart(kept: seq<int16>, dropped: seq<int16>, all: seq<int16>)
    requires kept + dropped == all
    ensures kept == all[..|all| - |dropped|] && kept + [] == kept
  {
  }

  lemma NothingSince(base: nat, m: seq<uint64>, burstLen: nat)
    ensures Ledger(base, [], base) && Carried(m, [], m, 0, 0)
    ensures LegalRun(burstLen, base, []) <==> 1 <= burstLen <= 512 && base % 8 == 0
    ensures var none: seq<Txn> := []; none + none == none
  {
  }

  // A burst length and a base the bus allows, and legal bursts only.
  ghost predicate LegalRun(burstLen: nat, base: nat, txns: seq<Txn>)
  {
    && 1 <= burstLen <= 512 && base % 8 == 0
    && forall i :: 0 <= i < |txns| ==> txns[i].WellShaped(burstLen)
  }

  lemma BurstIsLegal(burstLen: nat, base: nat, txns: seq<Txn>, queue: seq<uint64>, ptr: nat)
    requires BurstWords(|queue|, burstLen, ptr) >= 1
    ensures var k := BurstWords(|queue|, burstLen, ptr);
      LegalRun(burstLen, base, txns) ==> LegalRun(burstLen, base, txns + [Txn(ptr, queue[..k], k, true)])
  {
    BurstStaysInPage(|queue|, burstLen, ptr);
  }

  class RamWriterTlm {
    var config: Config
    var state: State
    var fifo: seq<int16>
    var packedData: seq<uint64>
    var writePtr: nat
    var totalBytes: nat
    var burstCount: nat
    var transactions: seq<Txn>
    var memory: seq<uint64>

    // The accepted stream with the padding of the flushes; where the write pointer
    // was last set, and the transactions before and since; the memory that was there
    // at the last reset.
    ghost var stream: seq<int16>
    ghost var runBase: nat
    ghost var earlier: seq<Txn>
    ghost var current: seq<Txn>
    ghost var oldMemory: seq<uint64>

    // Nothing accepted is lost, changed or reordered on its way to memory.
    ghost predicate Conserves()
      reads this
    {
      Unpack(memory + packedData) + fifo == stream
    }

    // Memory is what the transactions carried, at addresses without gaps.
    ghost predicate Accounted()
      reads this
    {
      && Ledger(runBase, current, writePtr)
      && Carried(oldMemory, transactions, memory, totalBytes, burstCount)
      && transactions == earlier + current
    }

    ghost predicate Valid()
      reads this
    {
      Conserves() && Accounted() && |fifo| < 4
    }

    // The settings the bus allows, with legal bursts so far.
    ghost predicate Legal()
      reads this
    {
      LegalRun(config.burstLen, runBase, transactions)
    }

    // Legal, and less than a burst is waiting: what every operation keeps.
    ghost predicate Orderly()
      reads this
    {
      Legal() && |packedData| < config.burstLen
    }

    // The write pointer starts at zero; configure moves it to the base address.
    constructor ()
      ensures Valid() && state == IDLE && config == Config(0x1000_0000, 0x0010_0000, 16, 64)
      ensures stream == [] && oldMemory == [] && memory == [] && packedData == [] && earlier == [] && current == []
      ensures Orderly()
    {
      config := Config(0x1000_0000, 0x0010_0000, 16, 64);
      state, fifo, packedData, writePtr := IDLE, [], [], 0;
      totalBytes, burstCount, transactions, memory := 0, 0, [], [];
      stream, runBase, earlier, current, oldMemory := [], 0, [], [], [];
    }

    method Configure(cfg: Config)
      requires Valid()
      modifies this
      ensures Valid() && config == cfg && runBase == cfg.baseAddr && current == []
      ensures stream == old(stream) && transactions == old(transactions) && memory == old(memory)
      ensures packedData == old(packedData) && fifo == old(fifo) && state == old(state) && oldMemory == old(oldMemory)
      ensures old(transactions) == [] ==> earlier == []
      ensures transactions == [] && 1 <= cfg.burstLen <= 512 && cfg.baseAddr % 8 == 0 ==>
        |packedData| < cfg.burstLen ==> Orderly()
    {
      NothingSince(cfg.baseAddr, [], cfg.burstLen);
      hide Unpack, Ledger, Carried, LegalRun;
      config := cfg;
      writePtr := cfg.baseAddr;
      runBase, earlier, current := cfg.baseAddr, transactions, [];
    }

    // A reset drops the samples that are not packed yet; packed words and the
    // simulated memory stay.
    method Reset()
      requires Valid()
      modifies this
      ensures Valid() && config == old(config) && state == IDLE && runBase == config.baseAddr
      ensures fifo == [] && transactions == [] && oldMemory == memory == old(memory) && packedData == old(packedData)
      ensures stream == old(stream)[..|old(stream)| - |old(fifo)|]
      ensures old(Orderly()) && config.baseAddr % 8 == 0 ==> Orderly()
    {
      NothingSince(config.baseAddr, memory, config.burstLen);
      hide Unpack, Ledger, Carried, LegalRun;
      if Legal() {
        LegalBounds();
      }
      ghost var kept := Unpack(memory + packedData);
      KeptPart(kept, fifo, stream);
      state, writePtr, fifo := IDLE, config.baseAddr, [];
      totalBytes, burstCount, transactions := 0, 0, [];
      RestartLog(kept);
    }

    ghost method RestartLog(kept: seq<int16>)
      modifies this`stream, this`runBase, this`earlier, this`current, this`oldMemory
      ensures stream == kept && runBase == config.baseAddr && earlier == [] && current == [] && oldMemory == memory
    {
      stream, runBase, earlier, current, oldMemory := kept, config.baseAddr, [], [], memory;
    }

    method Enable()
      requires Valid()
      modifies this`state
      ensures Valid() && state == COLLECTING
    {
      if state == IDLE {
        state := COLLECTING;
      }
    }

    method PackAndQueue()
      requires Conserves() && |fifo| >= 4
      modifies this`fifo, this`packedData
      ensures Conserves()
      ensures fifo == old(fifo)[4..]
      ensures |packedData| == old(|packedData|) + 1
    {
      hide Unpack, ToLane, Unsigned, Pack;
      ghost var samples, queue := fifo[..4], packedData;
      var packed: nat := 0;
      for i := 0 to 4
        invariant fifo == old(fifo)[i..]
        invariant packed == PackPrefix(samples, i)
        modifies this`fifo
      {
        assert fifo[0] == samples[i];
        packed := packed + ToLane(Unsigned(fifo[0]), i);
        fifo := fifo[1..];
      }
      PrefixIsPack(samples);
      packedData := packedData + [packed];
      assert packedData[..|packedData| - 1] == queue;
      PackedWord(memory + queue, packedData, memory, samples);
      assert old(fifo) == samples + fifo;
    }

    // Moves the first k queued words into a transaction and into memory.
    method CreateTransaction(k: nat)
      requires Conserves() && Accounted() && k <= |packedData|
      modifies this`packedData, this`memory, this`writePtr, this`totalBytes, this`burstCount, this`transactions,
        this`current
      ensures Conserves() && Accounted()
      ensures packedData == old(packedData)[k..]
      ensures transactions == old(transactions) + [Txn(old(writePtr), old(packedData)[..k], k, true)]
      ensures memory == old(memory) + old(packedData)[..k]
      ensures writePtr == old(writePtr) + 8 * k
    {
      hide Unpack, Ledger, Carried, LegalRun;
      var txn := Txn(writePtr, [], k, false);
      for i := 0 to k
        invariant txn == Txn(old(writePtr), old(packedData)[..i], k, false)
        invariant memory == old(memory) + old(packedData)[..i]
        invariant packedData == old(packedData)[i..]
        modifies this`memory, this`packedData
      {
        assert old(packedData)[..i + 1] == old(packedData)[..i] + [packedData[0]];
        txn := txn.(data := txn.data + [packedData[0]]);
        memory := memory + [packedData[0]];
        packedData := packedData[1..];
      }
      txn := txn.(completed := true);
      MovedWords(old(memory), old(packedData), k);
      CarryOne(oldMemory, transactions, old(memory), totalBytes, burstCount, txn);
      LedgerOne(runBase, current, writePtr, txn);
      assert earlier + current + [txn] == earlier + (current + [txn]);
      transactions := transactions + [txn];
      current := current + [txn];
      writePtr := writePtr + k * 8;
      totalBytes := totalBytes + k * 8;
      burstCount := burstCount + 1;
    }

    // One burst, cut at the page boundary; what does not fit stays queued.
    method GenerateBurst()
      requires Conserves() && Accounted()
      modifies this`packedData, this`memory, this`writePtr, this`totalBytes, this`burstCount, this`transactions,
        this`current
      ensures Conserves() && Accounted()
      ensures packedData == old(packedData)[BurstWords(old(|packedData|), config.burstLen, old(writePtr))..]
      ensures writePtr == old(writePtr) + 8 * BurstWords(old(|packedData|), config.burstLen, old(writePtr))
      ensures old(Legal()) ==> Legal()
    {
      hide Unpack, Ledger, Carried, LegalRun;
      if |packedData| == 0 {
        return;
      }
      if Legal() {
        LegalBounds();
      }
      var burstLen := Min(|packedData|, config.burstLen);
      var endAddr := writePtr + burstLen * 8;
      var boundary := writePtr - writePtr % 4096 + 0x1000;
      if endAddr > boundary {
        var firstBurst := (boundary - writePtr) / 8;
        assert firstBurst == BurstWords(|packedData|, config.burstLen, writePtr);
        if firstBurst > 0 {
          BurstIsLegal(config.burstLen, runBase, transactions, packedData, writePtr);
          CreateTransaction(firstBurst);
        }
      } else {
        assert burstLen == BurstWords(|packedData|, config.burstLen, writePtr);
        if burstLen > 0 {
          BurstIsLegal(config.burstLen, runBase, transactions, packedData, writePtr);
        }
        CreateTransaction(burstLen);
      }
    }

    // The number of words a flush has to send.
    function Waiting(): nat
      reads this
    {
      |packedData| + (|fifo| + 3) / 4
    }

    // One flush pads and packs every sample, but sends only one burst: it leaves
    // words exactly when they do not fit before the next page, and then the write
    // pointer stands on that page.
    method Flush()
      requires Conserves() && Accounted()
      modifies this
      ensures Valid() && config == old(config) && state == old(state) && runBase == old(runBase)
      ensures earlier == old(earlier) && oldMemory == old(oldMemory)
      ensures stream == Padded(old(stream)) && fifo == []
      ensures var k := BurstWords(old(Waiting()), config.burstLen, old(writePtr));
        |packedData| == old(Waiting()) - k && writePtr == old(writePtr) + 8 * k
      ensures old(Legal()) && old(Waiting()) <= config.burstLen ==>
        && Orderly()
        && (packedData != [] <==> 8 * old(Waiting()) > RoomInPage(old(writePtr)))
        && (packedData != [] ==> writePtr % 4096 == 0)
    {
      hide Unpack, Ledger, Carried, LegalRun, Padded, BurstWords, RoomInPage;
      PackRest();
      SendRest();
    }

    // Everything packed, the last samples with zeros.
    method PackRest()
      requires Conserves()
      modifies this`fifo, this`packedData, this`stream
      ensures Conserves() && fifo == [] && |packedData| == old(Waiting())
      ensures stream == Padded(old(stream))
    {
      hide Unpack, Padded;
      ghost var waiting := Waiting();
      while |fifo| >= 4
        invariant Conserves() && Waiting() == waiting
        modifies this`fifo, this`packedData
        decreases |fifo|
      {
        PackAndQueue();
      }
      StreamRemainder();
      if |fifo| != 0 {
        PadFifo();
        PackAndQueue();
      } else {
        WholeNeedsNoPadding(stream);
      }
    }

    // The burst at the end of a flush.
    method SendRest()
      requires Conserves() && Accounted() && fifo == []
      modifies this`packedData, this`memory, this`writePtr, this`totalBytes, this`burstCount, this`transactions,
        this`current
      ensures Valid()
      ensures var k := BurstWords(old(|packedData|), config.burstLen, old(writePtr));
        |packedData| == old(|packedData|) - k && writePtr == old(writePtr) + 8 * k
      ensures old(Legal()) && old(|packedData|) <= config.burstLen ==>
        && Orderly()
        && (packedData != [] <==> 8 * old(|packedData|) > RoomInPage(old(writePtr)))
        && (packedData != [] ==> writePtr % 4096 == 0)
    {
      hide Unpack, Ledger, Carried, LegalRun;
      if Legal() {
        LegalBounds();
      }
      if |packedData| != 0 {
        if Legal() {
          SplitEndsOnPage(|packedData|, config.burstLen, writePtr);
          RoomOfAligned(writePtr);
        }
        GenerateBurst();
      }
    }

    method PadFifo()
      requires Conserves() && 0 < |fifo| < 4
      modifies this`fifo, this`stream
      ensures Conserves() && |fifo| == 4
      ensures stream == Padded(old(stream))
    {
      hide Unpack, Ledger, Carried, LegalRun;
      StreamRemainder();
      ghost var zeros: seq<int16> := [];
      while |fifo| < 4
        invariant |fifo| == old(|fifo|) + |zeros| <= 4
        invariant fifo == old(fifo) + zeros
        invariant zeros == seq(|zeros|, _ => 0)
        modifies this`fifo
        decreases 4 - |fifo|
      {
        fifo := fifo + [0];
        zeros := zeros + [0];
      }
      assert zeros == seq(Padding(|stream|), _ => 0);
      assert stream + zeros == Unpack(memory + packedData) + fifo;
      stream := stream + zeros;
    }

    // The samples not packed yet are the stream's remainder modulo four.
    lemma StreamRemainder()
      requires Conserves()
      ensures |stream| % 4 == |fifo| % 4
    {
      UnpackLength(memory + packedData);
    }

    lemma LegalBounds()
      requires Accounted() && Legal()
      ensures 1 <= config.burstLen <= 512 && writePtr % 8 == 0
    {
    }

    // A disabled writer refuses the sample and changes nothing.
    method WriteSample(data: int16, tlast: bool) returns (ok: bool)
      requires Valid()
      modifies this
      ensures Valid() && config == old(config) && state == old(state) && runBase == old(runBase)
      ensures earlier == old(earlier) && oldMemory == old(oldMemory)
      ensures ok <==> state != IDLE
      ensures stream ==
        if !ok then old(stream)
        else if tlast then Padded(old(stream) + [data])
        else old(stream) + [data]
      ensures !ok ==> fifo == old(fifo) && packedData == old(packedData)
      ensures !ok ==> memory == old(memory) && transactions == old(transactions)
      ensures old(Orderly()) ==> Orderly()
      ensures ok ==>
        var n := WordsAfter(old(|packedData|), old(|fifo|));
        var k := if n >= config.burstLen then BurstWords(n, config.burstLen, old(writePtr)) else 0;
        if !tlast then |packedData| == n - k && writePtr == old(writePtr) + 8 * k
        else
          var waiting, ptr := n - k + (if old(|fifo|) == 3 then 0 else 1), old(writePtr) + 8 * k;
          var flushed := BurstWords(waiting, config.burstLen, ptr);
          && |packedData| == waiting - flushed && writePtr == ptr + 8 * flushed
          && (old(Orderly()) ==> (packedData != [] <==> 8 * waiting > RoomInPage(ptr)))
    {
      hide Unpack, Ledger, Carried, LegalRun, Padded, BurstWords, RoomInPage;
      if state == IDLE {
        return false;
      }
      TakeSample(data);
      if tlast {
        Flush();
      }
      ok := true;
    }

    // The sample joins the FIFO; four make a word, a burst length of words a burst.
    method TakeSample(data: int16)
      requires Valid()
      modifies this
      ensures Valid() && config == old(config) && state == old(state) && runBase == old(runBase)
      ensures earlier == old(earlier) && oldMemory == old(oldMemory)
      ensures stream == old(stream) + [data]
      ensures |fifo| == if old(|fifo|) == 3 then 0 else old(|fifo|) + 1
      ensures old(Orderly()) ==> Orderly()
      ensures var n := WordsAfter(old(|packedData|), old(|fifo|));
        var k := if n >= config.burstLen then BurstWords(n, config.burstLen, old(writePtr)) else 0;
        |packedData| == n - k && writePtr == old(writePtr) + 8 * k
    {
      hide Unpack, Ledger, Carried, LegalRun, BurstWords;
      fifo := fifo + [data];
      stream := stream + [data];
      if |fifo| >= 4 {
        PackAndQueue();
      }
      SendFullBurst();
    }

    method SendFullBurst()
      requires Conserves() && Accounted()
      modifies this`packedData, this`memory, this`writePtr, this`totalBytes, this`burstCount, this`transactions,
        this`current
      ensures Conserves() && Accounted()
      ensures var n := old(|packedData|);
        var k := if n >= config.burstLen then BurstWords(n, config.burstLen, old(writePtr)) else 0;
        |packedData| == n - k && writePtr == old(writePtr) + 8 * k
      ensures old(Legal()) && old(|packedData|) <= config.burstLen ==> Orderly()
    {
      hide Unpack, Ledger, Carried, LegalRun;
      if |packedData| >= config.burstLen {
        if Legal() {
          LegalBounds();
          SplitEndsOnPage(|packedData|, config.burstLen, writePtr);
        }
        GenerateBurst();
      }
    }

    // Main result: flushing twice drains the writer on every orderly state.
    method FlushTwice()
      requires Valid() && Orderly()
      modifies this
      ensures Valid() && Orderly() && config == old(config)
      ensures fifo == [] && packedData == []
      ensures stream == Padded(old(stream))
      ensures Unpack(memory) == stream
    {
      hide Unpack, Ledger, Carried, LegalRun, Padded;
      LegalBounds();
      Flush();
      FullPage(writePtr);
      PaddedIsWhole(old(stream));
      WholeNeedsNoPadding(stream);
      Flush();
      assert memory + [] == memory;
    }
  }

  // One flush is not enough: two words that straddle a page boundary are still half
  // queued after it.
  method OneFlushLeavesAWord() returns (queued: nat)
    ensures queued > 0
  {
    hide Unpack, Ledger, Carried, LegalRun, Padded;
    var writer := new RamWriterTlm();
    writer.Configure(Config(0xFF8, 0x1000, 16, 64));
    writer.Enable();
    assert writer.writePtr == 0xFF8 by { StartOfRun(writer.runBase, writer.current, writer.writePtr); }
    for i := 0 to 8
      invariant fresh(writer) && writer.Valid() && writer.Orderly() && writer.config.burstLen == 16
      invariant writer.state == COLLECTING && writer.writePtr == 0xFF8
      invariant |writer.fifo| == i % 4 && |writer.packedData| == i / 4
    {
      ghost var before := |writer.stream|;
      writer.StreamRemainder();
      var ok := writer.WriteSample(7, false);
      writer.StreamRemainder();
    }
    writer.Flush();
    queued := |writer.packedData|;
  }

  lemma StartOfRun(base: nat, current: seq<Txn>, ptr: nat)
    requires Ledger(base, current, ptr) && current == []
    ensures ptr == base
  {
  }
}

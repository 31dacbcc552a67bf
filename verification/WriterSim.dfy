/** A whole write simulation: packets through the FIFO, a drain after each packet,
    and a comparison of memory with the stream. */
module WriterSim {
  import opened Arith
  import opened Samples
  import opened BurstPlan
  import opened Fifo
  import opened RamWriter

  function Sum(sizes: seq<nat>): nat
  {
    if sizes == [] then 0 else Sum(sizes[..|sizes|-1]) + sizes[|sizes|-1]
  }

  lemma {:induction false} PrefixSum(sizes: seq<nat>, n: nat)
    requires n <= |sizes|
    ensures Sum(sizes[..n]) <= Sum(sizes)
    ensures n < |sizes| ==> Sum(sizes[..n + 1]) == Sum(sizes[..n]) + sizes[n] <= Sum(sizes)
    decreases |sizes|
  {
    if n == |sizes| {
      assert sizes[..n] == sizes;
    } else {
      var m := |sizes| - 1;
      assert sizes[..n + 1][..n] == sizes[..n];
      if n == m {
        assert sizes[..n + 1] == sizes;
      } else {
        PrefixSum(sizes[..m], n);
        assert sizes[..m][..n] == sizes[..n] && sizes[..m][..n + 1] == sizes[..n + 1];
      }
    }
  }

  datatype Packets = OnePacket | Sizes(sizes: seq<nat>)

  function PacketSizes(packets: Packets, count: nat): seq<nat>
  {
    match packets
    case OnePacket => [count]
    case Sizes(sizes) => sizes
  }

  // The stream fits the buffer and its beats are aligned.
  predicate FitsBuffer(base: nat, bufferSize: nat, count: nat)
  {
    Aligned(base) && 4 * count <= bufferSize
  }

  // What the writer holds between two packets.
  datatype Held = Held(memory: map<int, int>, addr: nat, queue: seq<int>)

  function AfterPacket(cfg: Config, held: Held, packet: seq<int>): Held
  {
    var words := held.queue + packet;
    Held(Store(held.memory, Drain(cfg, held.addr, words)), DrainAddress(cfg, held.addr, |words|),
      Left(cfg, held.addr, words))
  }

  // What it holds after packets of these sizes, none of them refused.
  function AfterPackets(cfg: Config, samples: seq<int>, sizes: seq<nat>): Held
    requires Sum(sizes) <= |samples|
    decreases |sizes|
  {
    if sizes == [] then Held(map[], cfg.baseAddr, []) else
    var before := sizes[..|sizes| - 1];
    AfterPacket(cfg, AfterPackets(cfg, samples, before), samples[Sum(before)..Sum(sizes)])
  }

  // Packet p fits the FIFO behind what the packets before it have left there.
  predicate RoomFor(cfg: Config, depth: nat, samples: seq<int>, sizes: seq<nat>, p: nat)
    requires p < |sizes| && Sum(sizes) <= |samples|
  {
    PrefixSum(sizes, p);
    |AfterPackets(cfg, samples, sizes[..p]).queue| + sizes[p] <= depth
  }

  predicate NoneRefused(cfg: Config, depth: nat, samples: seq<int>, sizes: seq<nat>)
    requires Sum(sizes) <= |samples|
  {
    forall p: nat :: p < |sizes| ==> RoomFor(cfg, depth, samples, sizes, p)
  }

  ghost predicate Holds(w: RamWriterModel, held: Held)
    reads w, w.fifo
  {
    w.memory == held.memory && w.currentAddress == held.addr && Words(w.fifo.queue) == held.queue
  }

  // What reading the buffer back from its base must find: where the stream has wrapped, its
  // newer samples, and zeros behind the buffer.
  predicate ReadsBack(samples: seq<int>, capacity: nat)
  {
    forall i: nat :: i < |samples| ==> samples[i] == if i < capacity then samples[Newest(i, capacity, |samples|)] else 0
  }

  lemma RingReadBack(base: nat, capacity: nat, samples: seq<int>)
    requires capacity > 0
    ensures MemoryContents(Ring(base, capacity, samples), base, |samples|) == samples <==> ReadsBack(samples, capacity)
  {
    RingContents(base, capacity, samples);
    var ring := Ring(base, capacity, samples);
    hide Ring, Newest;
    var actual := MemoryContents(ring, base, |samples|);
    forall i: nat | i < |samples|
      ensures actual[i] == if i < capacity then samples[Newest(i, capacity, |samples|)] else 0
    {
      if i >= capacity && base + 4 * i in ring {
        OutsideRing(base, i, capacity);
        assert false;
      }
    }
  }

  lemma OutsideRing(base: nat, i: nat, capacity: nat)
    requires i >= capacity
    ensures (base + 4 * i - base) / 4 >= capacity
  {
  }

  // A stream that does not wrap reads back.
  lemma ShortStreamReadsBack(samples: seq<int>, capacity: nat)
    requires 0 < capacity && |samples| <= capacity
    ensures ReadsBack(samples, capacity)
  {
    forall i: nat | i < |samples|
      ensures Newest(i, capacity, |samples|) == i
    {
      ModSmall(i, capacity);
      NewestIsUnique(i, capacity, |samples|, i);
    }
    hide Newest;
  }

  method Total(sizes: seq<nat>) returns (total: nat)
    ensures total == Sum(sizes)
  {
    total := 0;
    for i := 0 to |sizes|
      invariant total == Sum(sizes[..i])
    {
      PrefixSum(sizes, i);
      total := total + sizes[i];
    }
    assert sizes[..|sizes|] == sizes;
  }

  method SendPacket(w: RamWriterModel, samples: seq<int>, start: nat, size: nat) returns (ok: bool)
    requires w.Valid() && start + size <= |samples| && w.config.enable
    modifies w`packetComplete, w.fifo
    ensures w.Valid()
    ensures old(|w.fifo.queue|) + size <= w.fifo.depth <==> ok
    ensures ok ==> Words(w.fifo.queue) == Words(old(w.fifo.queue)) + samples[start..start + size]
    ensures old(w.OnRing()) ==> w.OnRing()
  {
    for i := 0 to size
      invariant w.Valid() && (old(w.OnRing()) ==> w.OnRing())
      invariant |w.fifo.queue| == old(|w.fifo.queue|) + i
      invariant Words(w.fifo.queue) == Words(old(w.fifo.queue)) + samples[start..start + i]
    {
      var isLast := i == size - 1;
      ghost var before := w.fifo.queue;
      ok := w.AxisWrite(samples[start + i], isLast);
      if !ok {
        return;
      }
      assert Words(w.fifo.queue) == Words(before) + [samples[start + i]];
      assert samples[start..start + i + 1] == samples[start..start + i] + [samples[start + i]];
    }
    ok := true;
  }

  // Draining one more packet of a run that fits extends the linear memory image.
  lemma PacketDrained(cfg: Config, samples: seq<int>, count: nat, size: nat, addr: nat)
    requires FitsBuffer(cfg.baseAddr, cfg.bufferSize, |samples|) && cfg.maxBurstLen >= 1
    requires count + size <= |samples|
    requires count < |samples| ==> addr == cfg.baseAddr + 4 * count
    ensures var data := samples[count..count + size];
      && Left(cfg, addr, data) == []
      && Store(WriteBeats(map[], cfg.baseAddr, samples[..count]), Drain(cfg, addr, data))
         == WriteBeats(map[], cfg.baseAddr, samples[..count + size])
      && (count + size < |samples| ==> DrainAddress(cfg, addr, size) == cfg.baseAddr + 4 * (count + size))
  {
    hide WriteBeats, Store, Drain, DrainAddress, Left, Aligned;
    var data := samples[count..count + size];
    if size == 0 {
      assert data == [];
      DrainStops(cfg, addr, data);
      NothingYet(WriteBeats(map[], cfg.baseAddr, samples[..count]));
    } else {
      AlignedAdd(cfg.baseAddr, count);
      NothingLeft(cfg, addr, data);
      DrainIsLinear(cfg, WriteBeats(map[], cfg.baseAddr, samples[..count]), addr, data);
      WriteBeatsAppend(map[], cfg.baseAddr, samples[..count], data);
      assert samples[..count] + data == samples[..count + size];
    }
  }

  // A run whose stream fits the buffer writes it linearly and leaves nothing queued.
  lemma {:induction false} FittingRun(cfg: Config, samples: seq<int>, sizes: seq<nat>)
    requires FitsBuffer(cfg.baseAddr, cfg.bufferSize, |samples|) && cfg.maxBurstLen >= 1 && Sum(sizes) <= |samples|
    ensures var held := AfterPackets(cfg, samples, sizes);
      && held.queue == []
      && held.memory == WriteBeats(map[], cfg.baseAddr, samples[..Sum(sizes)])
      && (Sum(sizes) < |samples| ==> held.addr == cfg.baseAddr + 4 * Sum(sizes))
    decreases |sizes|
  {
    hide WriteBeats, Store, Drain, DrainAddress, Left, Aligned;
    if sizes == [] {
      EmptyRun(cfg.baseAddr, samples);
    } else {
      var n := |sizes| - 1;
      var held := AfterPackets(cfg, samples, sizes[..n]);
      FittingRun(cfg, samples, sizes[..n]);
      PacketDrained(cfg, samples, Sum(sizes[..n]), sizes[n], held.addr);
      assert [] + samples[Sum(sizes[..n])..Sum(sizes)] == samples[Sum(sizes[..n])..Sum(sizes)];
    }
  }

  // A run into a buffer that ends on a page writes it round and round and leaves nothing queued.
  lemma {:induction false} RingRun(cfg: Config, samples: seq<int>, sizes: seq<nat>)
    requires cfg.EndsOnPage() && Sum(sizes) <= |samples|
    ensures var held := AfterPackets(cfg, samples, sizes);
      && held.queue == []
      && held.memory == Ring(cfg.baseAddr, cfg.Capacity(), samples[..Sum(sizes)])
      && held.addr == RingAddress(cfg, Sum(sizes))
    decreases |sizes|
  {
    hide Store, Drain, DrainAddress, Left, Ring, RingAddress;
    if sizes == [] {
      EmptyRing(cfg, samples);
    } else {
      var n := |sizes| - 1;
      RingRun(cfg, samples, sizes[..n]);
      hide AfterPacket;
      var before, packet := samples[..Sum(sizes[..n])], samples[Sum(sizes[..n])..Sum(sizes)];
      assert [] + packet == packet && before + packet == samples[..Sum(sizes)];
      AfterPacketIs(cfg, AfterPackets(cfg, samples, sizes[..n]), packet, packet);
      DrainedOnRing(cfg, before, packet);
    }
  }

  lemma EmptyRing(cfg: Config, samples: seq<int>)
    requires cfg.EndsOnPage()
    ensures Ring(cfg.baseAddr, cfg.Capacity(), samples[..0]) == map[] && RingAddress(cfg, 0) == cfg.baseAddr
  {
    ModSmall(0, cfg.Capacity());
  }

  // How many words can be written from a base between two words.
  function WordsToStuck(base: nat): nat { (StuckAddress(base) - base) / 4 }

  // A run from a base between two words, into a buffer that goes on behind the address where
  // the writer gets stuck, writes up to there and keeps the rest queued.
  lemma {:induction false} StuckRun(cfg: Config, samples: seq<int>, sizes: seq<nat>)
    requires cfg.baseAddr % 4 != 0 && StuckAddress(cfg.baseAddr) < cfg.End() && cfg.maxBurstLen >= 1
    requires Sum(sizes) <= |samples|
    ensures AfterPackets(cfg, samples, sizes) == StuckAfter(cfg, samples, Sum(sizes))
    decreases |sizes|
  {
    hide StuckAddress, WordsToStuck, AfterPacket, WriteBeats, StuckAfter;
    if sizes == [] {
      EmptyRun(cfg.baseAddr, samples);
      NothingStuck(cfg, samples);
    } else {
      var n := |sizes| - 1;
      StuckRun(cfg, samples, sizes[..n]);
      StuckStep(cfg, samples, Sum(sizes[..n]), Sum(sizes));
    }
  }

  // What such a run holds after the first n samples.
  function StuckAfter(cfg: Config, samples: seq<int>, n: nat): Held
    requires n <= |samples|
  {
    var written := Min(n, WordsToStuck(cfg.baseAddr));
    Held(WriteBeats(map[], cfg.baseAddr, samples[..written]), cfg.baseAddr + 4 * written, samples[written..n])
  }

  lemma NothingStuck(cfg: Config, samples: seq<int>)
    ensures StuckAfter(cfg, samples, 0) == Held(map[], cfg.baseAddr, [])
  {
  }

  lemma StuckStep(cfg: Config, samples: seq<int>, sent: nat, n: nat)
    requires cfg.baseAddr % 4 != 0 && StuckAddress(cfg.baseAddr) < cfg.End() && cfg.maxBurstLen >= 1
    requires sent <= n <= |samples|
    ensures AfterPacket(cfg, StuckAfter(cfg, samples, sent), samples[sent..n]) == StuckAfter(cfg, samples, n)
  {
    hide WriteBeats, Store, Drain, DrainAddress, Left, StuckAddress, WordsToStuck;
    var room := WordsToStuck(cfg.baseAddr);
    var before := Min(sent, room);
    var words := samples[before..n];
    var m := Min(|words|, room - before);
    hide AfterPacket;
    assert samples[before..sent] + samples[sent..n] == words;
    AfterPacketIs(cfg, StuckAfter(cfg, samples, sent), samples[sent..n], words);
    DrainGetsStuck(cfg, WriteBeats(map[], cfg.baseAddr, samples[..before]), before, words);
    WriteBeatsAppend(map[], cfg.baseAddr, samples[..before], words[..m]);
    CutAt(samples, before, m, n);
  }

  lemma AfterPacketIs(cfg: Config, held: Held, packet: seq<int>, words: seq<int>)
    requires held.queue + packet == words
    ensures AfterPacket(cfg, held, packet) == Held(Store(held.memory, Drain(cfg, held.addr, words)),
      DrainAddress(cfg, held.addr, |words|), Left(cfg, held.addr, words))
  {
    hide Store, Drain, DrainAddress, Left;
  }

  lemma CutAt(samples: seq<int>, before: nat, m: nat, n: nat)
    requires before + m <= n <= |samples|
    ensures var words := samples[before..n];
      samples[..before] + words[..m] == samples[..before + m] && words[m..] == samples[before + m..n]
  {
  }

  // One burst from `done` words behind such a base.
  lemma StuckBurst(cfg: Config, done: nat, count: nat)
    requires cfg.baseAddr % 4 != 0 && StuckAddress(cfg.baseAddr) < cfg.End() && cfg.maxBurstLen >= 1
    requires done <= WordsToStuck(cfg.baseAddr)
    ensures var addr, m := cfg.baseAddr + 4 * done, Min(count, WordsToStuck(cfg.baseAddr) - done);
      var n := BurstLength(addr, count, cfg.maxBurstLen);
      n <= m && (n == 0 <==> m == 0) && NextAddress(cfg, addr, n) == addr + 4 * n
  {
    hide StuckAddress;
    BeatsToStuck(cfg.baseAddr, cfg.baseAddr + 4 * done);
    hide BeatsToPage;
  }

  // A drain from there.
  lemma {:induction false} DrainGetsStuck(cfg: Config, memory: map<int, int>, done: nat, data: seq<int>)
    requires cfg.baseAddr % 4 != 0 && StuckAddress(cfg.baseAddr) < cfg.End() && cfg.maxBurstLen >= 1
    requires done <= WordsToStuck(cfg.baseAddr)
    ensures var addr, m := cfg.baseAddr + 4 * done, Min(|data|, WordsToStuck(cfg.baseAddr) - done);
      && Store(memory, Drain(cfg, addr, data)) == WriteBeats(memory, addr, data[..m])
      && DrainAddress(cfg, addr, |data|) == addr + 4 * m
      && Left(cfg, addr, data) == data[m..]
    decreases |data|
  {
    hide Drain, DrainAddress, Left, Store, WriteBeats, StuckAddress, WordsToStuck, BurstLength, NextAddress;
    var addr, m := cfg.baseAddr + 4 * done, Min(|data|, WordsToStuck(cfg.baseAddr) - done);
    var n := BurstLength(addr, |data|, cfg.maxBurstLen);
    StuckBurst(cfg, done, |data|);
    if n == 0 {
      DrainStops(cfg, addr, data);
      NothingYet(memory);
      NothingWritten(memory, addr, data);
    } else {
      DrainStep(cfg, addr, data);
      LeftStep(cfg, addr, data);
      var head, tail, next := data[..n], data[n..], addr + 4 * n;
      StoreCons(memory, Txn(addr, head, n), Drain(cfg, next, tail));
      DrainGetsStuck(cfg, WriteBeats(memory, addr, head), done + n, tail);
      WriteBeatsAppend(memory, addr, head, tail[..m - n]);
      CutTwice(data, n, m);
    }
  }

  lemma CutTwice(data: seq<int>, n: nat, m: nat)
    requires n <= m <= |data|
    ensures data[..n] + data[n..][..m - n] == data[..m] && data[n..][m - n..] == data[m..]
  {
  }

  lemma NothingWritten(memory: map<int, int>, addr: nat, data: seq<int>)
    ensures WriteBeats(memory, addr, data[..0]) == memory
  {
  }

  // Read back after that, the words that were not written are zeros.
  lemma PartReadBack(base: nat, samples: seq<int>, written: nat)
    requires written <= |samples|
    ensures MemoryContents(WriteBeats(map[], base, samples[..written]), base, |samples|) == samples
      <==> forall i :: written <= i < |samples| ==> samples[i] == 0
  {
    WriteBeatsAt(map[], base, samples[..written]);
    hide WriteBeats;
    var actual := MemoryContents(WriteBeats(map[], base, samples[..written]), base, |samples|);
    forall i | 0 <= i < |samples|
      ensures actual[i] == if i < written then samples[i] else 0
    {
    }
  }

  // One packet of the stream: sent whole or refused, then drained.
  method RunPacket(w: RamWriterModel, cfg: Config, samples: seq<int>, start: nat, size: nat, ghost held: Held)
    returns (ok: bool)
    requires w.Valid() && w.config == cfg && cfg.enable
    requires start + size <= |samples| && Holds(w, held)
    modifies w, w.fifo
    ensures w.Valid() && w.config == cfg
    ensures ok <==> |held.queue| + size <= w.fifo.depth
    ensures ok ==> Holds(w, AfterPacket(cfg, held, samples[start..start + size]))
  {
    hide Store, Drain, DrainAddress, Left;
    ok := SendPacket(w, samples, start, size);
    if ok {
      var txns := w.ProcessPending();
    }
  }

  predicate AllFit(sizes: seq<nat>, depth: nat)
  {
    forall i :: 0 <= i < |sizes| ==> sizes[i] <= depth
  }

  method RunPackets(w: RamWriterModel, cfg: Config, samples: seq<int>, sizes: seq<nat>) returns (ok: bool)
    requires w.Valid() && w.config == cfg && cfg.enable
    requires Sum(sizes) == |samples| && Holds(w, AfterPackets(cfg, samples, []))
    modifies w, w.fifo
    ensures w.Valid() && w.config == cfg
    ensures ok <==> NoneRefused(cfg, w.fifo.depth, samples, sizes)
    ensures ok ==> Holds(w, AfterPackets(cfg, samples, sizes))
  {
    hide AfterPacket, AfterPackets, RoomFor, Holds;
    var sampleIdx := 0;
    assert sizes[..0] == [];
    for p := 0 to |sizes|
      invariant w.Valid() && w.config == cfg
      invariant sampleIdx == Sum(sizes[..p]) <= |samples|
      invariant Holds(w, AfterPackets(cfg, samples, sizes[..p]))
      invariant forall i: nat :: i < p ==> RoomFor(cfg, w.fifo.depth, samples, sizes, i)
    {
      NextPacket(cfg, w.fifo.depth, samples, sizes, p);
      ok := RunPacket(w, cfg, samples, sampleIdx, sizes[p], AfterPackets(cfg, samples, sizes[..p]));
      if !ok {
        return;
      }
      sampleIdx := sampleIdx + sizes[p];
    }
    assert sizes[..|sizes|] == sizes;
    ok := true;
  }

  lemma NextPacket(cfg: Config, depth: nat, samples: seq<int>, sizes: seq<nat>, p: nat)
    requires Sum(sizes) == |samples| && p < |sizes|
    ensures Sum(sizes[..p]) <= Sum(sizes[..p + 1]) == Sum(sizes[..p]) + sizes[p] <= |samples|
    ensures RoomFor(cfg, depth, samples, sizes, p)
      <==> |AfterPackets(cfg, samples, sizes[..p]).queue| + sizes[p] <= depth
    ensures AfterPackets(cfg, samples, sizes[..p + 1])
      == AfterPacket(cfg, AfterPackets(cfg, samples, sizes[..p]), samples[Sum(sizes[..p])..Sum(sizes[..p + 1])])
  {
    hide AfterPacket;
    PrefixSum(sizes, p);
    assert sizes[..p + 1][..p] == sizes[..p];
  }

  // Main result: for every base, buffer, FIFO and cut into packets a run succeeds exactly when
  // the sizes add up to the stream, no packet is refused, and what is then in memory reads
  // back as the stream.
  method SimulateRamWriter(samples: seq<int>, base: nat, bufferSize: nat, fifoDepth: nat, packets: Packets)
    returns (writer: RamWriterModel, success: bool)
    ensures success <==> Succeeds(Config(true, base, bufferSize, 256), fifoDepth, samples,
      PacketSizes(packets, |samples|))
    ensures success ==> MemoryContents(writer.memory, base, |samples|) == samples
  {
    writer := new RamWriterModel(fifoDepth);
    var cfg := Config(true, base, bufferSize, 256);
    writer.Configure(cfg);
    var sizes := PacketSizes(packets, |samples|);
    var total := Total(sizes);
    if total != |samples| {
      return writer, false;
    }
    var ok := RunPackets(writer, cfg, samples, sizes);
    if !ok {
      return writer, false;
    }
    success := writer.VerifyData(samples);
  }

  predicate Succeeds(cfg: Config, depth: nat, samples: seq<int>, sizes: seq<nat>)
  {
    && Sum(sizes) == |samples|
    && NoneRefused(cfg, depth, samples, sizes)
    && MemoryContents(AfterPackets(cfg, samples, sizes).memory, cfg.baseAddr, |samples|) == samples
  }

  // --- When that is ---------------------------------------------------------------------------

  // Where nothing stays queued no packet is refused exactly when each fits the FIFO.
  lemma NoneRefusedIff(cfg: Config, depth: nat, samples: seq<int>, sizes: seq<nat>)
    requires Sum(sizes) <= |samples| && cfg.maxBurstLen >= 1
    requires FitsBuffer(cfg.baseAddr, cfg.bufferSize, |samples|) || cfg.EndsOnPage()
    ensures NoneRefused(cfg, depth, samples, sizes) <==> AllFit(sizes, depth)
  {
    hide AfterPackets, Ring, WriteBeats, Aligned, RingAddress;
    forall p: nat | p < |sizes|
      ensures RoomFor(cfg, depth, samples, sizes, p) <==> sizes[p] <= depth
    {
      PrefixSum(sizes, p);
      if cfg.EndsOnPage() {
        RingRun(cfg, samples, sizes[..p]);
      } else {
        FittingRun(cfg, samples, sizes[..p]);
      }
    }
    hide RoomFor;
    if !AllFit(sizes, depth) {
      var p :| 0 <= p < |sizes| && sizes[p] > depth;
      assert !RoomFor(cfg, depth, samples, sizes, p);
    }
  }

  // Main result: a stream that fits the buffer succeeds exactly when the packet sizes add up to
  // it and every packet fits the FIFO.
  lemma SucceedsIfItFits(cfg: Config, depth: nat, samples: seq<int>, sizes: seq<nat>)
    requires FitsBuffer(cfg.baseAddr, cfg.bufferSize, |samples|) && cfg.maxBurstLen >= 1
    ensures Succeeds(cfg, depth, samples, sizes) <==> Sum(sizes) == |samples| && AllFit(sizes, depth)
  {
    hide NoneRefused, AllFit, AfterPackets, WriteBeats, MemoryContents, Aligned;
    if Sum(sizes) == |samples| {
      NoneRefusedIff(cfg, depth, samples, sizes);
      FittingRun(cfg, samples, sizes);
      assert samples[..|samples|] == samples;
      MemoryAfterLinearWrite(cfg.baseAddr, samples);
    }
  }

  // Main result: into a buffer that ends on a page a stream of any length does exactly when,
  // moreover, it reads back from the ring.
  lemma SucceedsOnRing(cfg: Config, depth: nat, samples: seq<int>, sizes: seq<nat>)
    requires cfg.EndsOnPage()
    ensures Succeeds(cfg, depth, samples, sizes)
      <==> Sum(sizes) == |samples| && AllFit(sizes, depth) && ReadsBack(samples, cfg.Capacity())
  {
    hide NoneRefused, AllFit, AfterPackets, Ring, RingAddress, MemoryContents, ReadsBack;
    if Sum(sizes) == |samples| {
      NoneRefusedIff(cfg, depth, samples, sizes);
      RingRun(cfg, samples, sizes);
      assert samples[..|samples|] == samples;
      RingReadBack(cfg.baseAddr, cfg.Capacity(), samples);
    }
  }

  // Main result: from a base between two words, where the writer gets stuck inside the buffer,
  // it does exactly when every packet fits behind the words that are stuck, and those are zeros.
  lemma SucceedsIfStuck(cfg: Config, depth: nat, samples: seq<int>, sizes: seq<nat>)
    requires cfg.baseAddr % 4 != 0 && StuckAddress(cfg.baseAddr) < cfg.End() && cfg.maxBurstLen >= 1
    ensures var room := WordsToStuck(cfg.baseAddr);
      Succeeds(cfg, depth, samples, sizes) <==>
        && Sum(sizes) == |samples|
        && (forall p: nat :: p < |sizes| ==> StuckWords(sizes, room, p) + sizes[p] <= depth)
        && (forall i: nat :: room <= i < |samples| ==> samples[i] == 0)
  {
    hide AfterPackets, WriteBeats, StuckAddress, MemoryContents, WordsToStuck;
    if Sum(sizes) == |samples| {
      var room := WordsToStuck(cfg.baseAddr);
      forall p: nat | p < |sizes|
        ensures RoomFor(cfg, depth, samples, sizes, p) <==> StuckWords(sizes, room, p) + sizes[p] <= depth
      {
        PrefixSum(sizes, p);
        StuckRun(cfg, samples, sizes[..p]);
      }
      StuckRun(cfg, samples, sizes);
      PartReadBack(cfg.baseAddr, samples, Min(|samples|, room));
    }
  }

  // The words that are stuck before packet p, if `room` words can be written.
  function StuckWords(sizes: seq<nat>, room: nat, p: nat): nat
    requires p < |sizes|
  {
    Sum(sizes[..p]) - Min(Sum(sizes[..p]), room)
  }

  lemma EmptyRun(base: nat, samples: seq<int>)
    ensures WriteBeats(map[], base, samples[..0]) == map[]
  {
  }
}

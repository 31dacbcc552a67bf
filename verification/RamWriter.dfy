/** The ESL model of the RAM writer: it takes words from AXI-Stream through a FIFO
    and writes them to a DDR buffer in bursts. */
module RamWriter {
  import opened Arith
  import opened BurstPlan
  import opened Fifo

  const DEFAULT_CONFIG := Config(true, 0x1000_0000, 0x0010_0000, 256)

  // The words that a drain of `data` from `addr` leaves behind, when a burst of no
  // beats stops it.
  function Left(cfg: Config, addr: nat, data: seq<int>): seq<int>
    decreases |data|
  {
    var n := BurstLength(addr, |data|, cfg.maxBurstLen);
    if n == 0 then data else Left(cfg, NextAddress(cfg, addr, n), data[n..])
  }

  lemma LeftStep(cfg: Config, addr: nat, data: seq<int>)
    ensures var n := BurstLength(addr, |data|, cfg.maxBurstLen);
      Left(cfg, addr, data) == if n == 0 then data else Left(cfg, NextAddress(cfg, addr, n), data[n..])
  {
  }

  lemma DrainStops(cfg: Config, addr: nat, data: seq<int>)
    requires data == [] || BurstLength(addr, |data|, cfg.maxBurstLen) == 0
    ensures Drain(cfg, addr, data) == [] && Left(cfg, addr, data) == data
    ensures DrainAddress(cfg, addr, |data|) == addr
  {
  }

  // Drained words and words left are the pending words, in order.
  lemma {:induction false} DrainConserves(cfg: Config, addr: nat, data: seq<int>)
    ensures Flatten(Drain(cfg, addr, data)) + Left(cfg, addr, data) == data
    decreases |data|
  {
    hide Drain, Left, NextAddress;
    var n := BurstLength(addr, |data|, cfg.maxBurstLen);
    if n == 0 {
      DrainStops(cfg, addr, data);
    } else {
      var head, tail := data[..n], data[n..];
      DrainConserves(cfg, NextAddress(cfg, addr, n), tail);
      DrainStep(cfg, addr, data);
      LeftStep(cfg, addr, data);
      FlattenCons(Txn(addr, head, n), Drain(cfg, NextAddress(cfg, addr, n), tail));
      assert head + tail == data;
    }
  }

  // From an aligned address nothing is left.
  lemma NothingLeft(cfg: Config, addr: nat, data: seq<int>)
    requires Aligned(cfg.baseAddr) && Aligned(addr) && cfg.maxBurstLen >= 1
    ensures Left(cfg, addr, data) == []
  {
    DrainConserves(cfg, addr, data);
    DrainShape(cfg, addr, data);
  }

  function MemoryContents(memory: map<int, int>, start: nat, count: nat): seq<int>
  {
    seq(count, i => var a := start + 4 * i; if a in memory then memory[a] else 0)
  }

  lemma MemoryAfterLinearWrite(base: nat, stream: seq<int>)
    ensures MemoryContents(WriteBeats(map[], base, stream), base, |stream|) == stream
  {
    WriteBeatsAt(map[], base, stream);
  }

  class RamWriterModel {
    const fifo: FifoModel
    var config: Config
    var memory: map<int, int>
    var transactions: seq<Txn>
    var currentAddress: nat
    var pendingSamples: seq<int>
    var packetComplete: bool
    var bytesWritten: nat

    ghost predicate Valid()
      reads this, fifo
    {
      fifo.Valid() && pendingSamples == []
    }

    // The buffer is an abstract ring over everything written since the reset.
    ghost predicate OnRing()
      reads this
    {
      && config.EndsOnPage()
      && currentAddress == RingAddress(config, |Flatten(transactions)|)
      && memory == Ring(config.baseAddr, config.Capacity(), Flatten(transactions))
    }

    constructor (fifoDepth: nat)
      ensures Valid() && fresh(fifo) && fifo.depth == fifoDepth && fifo.queue == []
      ensures config == DEFAULT_CONFIG && currentAddress == config.baseAddr
      ensures memory == map[] && transactions == [] && bytesWritten == 0
    {
      fifo := new FifoModel(fifoDepth);
      config := DEFAULT_CONFIG;
      bytesWritten := 0;
      memory, transactions := map[], [];
      currentAddress := DEFAULT_CONFIG.baseAddr;
      pendingSamples, packetComplete := [], false;
    }

    // The byte counter survives a reset.
    method Reset()
      modifies this, fifo
      ensures Valid() && fifo.queue == []
      ensures memory == map[] && transactions == []
      ensures currentAddress == config.baseAddr
      ensures config == old(config) && bytesWritten == old(bytesWritten)
    {
      fifo.Reset();
      memory, transactions := map[], [];
      currentAddress := config.baseAddr;
      pendingSamples, packetComplete := [], false;
    }

    method Configure(cfg: Config)
      requires Valid()
      modifies this
      ensures Valid() && config == cfg && currentAddress == cfg.baseAddr
      ensures memory == old(memory) && transactions == old(transactions) && bytesWritten == old(bytesWritten)
      ensures old(memory) == map[] && old(transactions) == [] && cfg.EndsOnPage() ==> OnRing()
    {
      config := cfg;
      currentAddress := cfg.baseAddr;
      if cfg.EndsOnPage() {
        ModSmall(0, cfg.Capacity());
      }
    }

    method AxisWrite(word: int, tlast: bool) returns (ok: bool)
      requires Valid()
      modifies this`packetComplete, fifo
      ensures Valid()
      ensures ok <==> config.enable && old(|fifo.queue|) < fifo.depth
      ensures fifo.queue == if ok then old(fifo.queue) + [Entry(word, tlast)] else old(fifo.queue)
      ensures old(OnRing()) ==> OnRing()
    {
      if !config.enable {
        return false;
      }
      ok := fifo.Write(word, tlast);
      if ok && tlast {
        packetComplete := true;
      }
    }

    method CalculateBurstLength(available: nat) returns (n: nat)
      ensures n == BurstLength(currentAddress, available, config.maxBurstLen)
      ensures n <= available
    {
      if available == 0 {
        return 0;
      }
      var maxLen := if available <= config.maxBurstLen then available else config.maxBurstLen;
      var addrIn4kb := currentAddress % 4096;
      var beatsToBoundary := (4096 - addrIn4kb) / 4;
      n := if maxLen <= beatsToBoundary then maxLen else beatsToBoundary;
    }

    method WriteToMemory(txn: Txn)
      modifies this`memory, this`bytesWritten
      ensures memory == WriteBeats(old(memory), txn.address, txn.data)
      ensures bytesWritten == old(bytesWritten) + 4 * |txn.data|
    {
      var addr := txn.address;
      for i := 0 to |txn.data|
        invariant addr == txn.address + 4 * i
        invariant memory == WriteBeats(old(memory), txn.address, txn.data[..i])
        invariant bytesWritten == old(bytesWritten) + 4 * i
      {
        assert txn.data[..i + 1][..i] == txn.data[..i];
        memory := memory[addr := txn.data[i]];
        addr := addr + 4;
        bytesWritten := bytesWritten + 4;
      }
      assert txn.data[..|txn.data|] == txn.data;
    }

    // The data of one burst: pending samples first, the rest from the FIFO.
    method TakeBurst(burstLen: nat) returns (burstData: seq<int>)
      requires Valid() && 1 <= burstLen <= |fifo.queue|
      modifies this`pendingSamples, fifo
      ensures Valid()
      ensures burstData == Words(old(fifo.queue))[..burstLen] && |burstData| == burstLen
      ensures Words(fifo.queue) == Words(old(fifo.queue))[burstLen..]
    {
      var k := if burstLen <= |pendingSamples| then burstLen else |pendingSamples|;
      burstData := pendingSamples[..k];
      pendingSamples := pendingSamples[k..];
      var remaining := burstLen - |burstData|;
      if remaining > 0 {
        var more := fifo.ReadBurst(remaining);
        burstData := burstData + more;
      }
    }

    // Drains the FIFO by the burst plan: what is written, where, and what is left.
    method ProcessPending() returns (txns: seq<Txn>)
      requires Valid()
      modifies this, fifo
      ensures Valid() && config == old(config)
      ensures txns == Drain(config, old(currentAddress), Words(old(fifo.queue)))
      ensures transactions == old(transactions) + txns
      ensures memory == Store(old(memory), txns)
      ensures bytesWritten == old(bytesWritten) + 4 * |Flatten(txns)|
      ensures currentAddress == DrainAddress(config, old(currentAddress), old(|fifo.queue|))
      ensures Words(fifo.queue) == Left(config, old(currentAddress), Words(old(fifo.queue)))
      ensures old(OnRing()) ==> OnRing() && fifo.queue == []
      ensures old(OnRing()) ==> forall i :: 0 <= i < |txns| ==> InBuffer(config, txns[i])
    {
      hide Drain, DrainAddress, Left, Store, WriteBeats, Flatten, Ring, RingAddress, BurstLength;
      ghost var all := Words(fifo.queue);
      ghost var onRing := OnRing();
      txns := [];
      NothingYet(old(memory));
      while |fifo.data| > 0 || |pendingSamples| > 0
        invariant Valid() && config == old(config)
        invariant txns + Drain(config, currentAddress, Words(fifo.queue)) == Drain(config, old(currentAddress), all)
        invariant transactions == old(transactions) + txns
        invariant memory == Store(old(memory), txns)
        invariant bytesWritten == old(bytesWritten) + 4 * |Flatten(txns)|
        invariant DrainAddress(config, currentAddress, |Words(fifo.queue)|)
               == DrainAddress(config, old(currentAddress), |all|)
        invariant Left(config, currentAddress, Words(fifo.queue)) == Left(config, old(currentAddress), all)
        decreases |fifo.data|
      {
        var available := |fifo.data| + |pendingSamples|;
        var burstLen := CalculateBurstLength(available);
        if burstLen == 0 {
          break;
        }
        ghost var addr, words := currentAddress, Words(fifo.queue);
        var burstData := TakeBurst(burstLen);
        var txn := Txn(currentAddress, burstData, |burstData|);
        WriteToMemory(txn);
        currentAddress := currentAddress + txn.TotalBytes();
        if currentAddress >= config.baseAddr + config.bufferSize {
          currentAddress := config.baseAddr;
        }
        DrainStep(config, addr, words);
        LeftStep(config, addr, words);
        OneMore(old(memory), txns, txn);
        txns := txns + [txn];
        transactions := transactions + [txn];
      }
      DrainStops(config, currentAddress, Words(fifo.queue));
      if onRing {
        DrainedOnRing(config, Flatten(old(transactions)), all);
        FlattenAppend(old(transactions), txns);
      }
    }

    method VerifyData(expected: seq<int>) returns (ok: bool)
      ensures ok <==> MemoryContents(memory, config.baseAddr, |expected|) == expected
    {
      var actual := GetMemoryContents(config.baseAddr, 4 * |expected|);
      ok := true;
      for i := 0 to |expected|
        invariant ok <==> actual[..i] == expected[..i]
      {
        assert actual[..i + 1] == actual[..i] + [actual[i]] && expected[..i + 1] == expected[..i] + [expected[i]];
        if expected[i] != actual[i] {
          ok := false;
        }
      }
      assert actual[..|expected|] == actual && expected[..|expected|] == expected;
    }

    method GetMemoryContents(start: nat, length: nat) returns (result: seq<int>)
      ensures result == MemoryContents(memory, start, (length + 3) / 4)
    {
      result := [];
      var addr := start;
      while addr < start + length
        invariant addr == start + 4 * |result|
        invariant |result| <= (length + 3) / 4
        invariant result == MemoryContents(memory, start, |result|)
        decreases start + length - addr
      {
        result := result + [if addr in memory then memory[addr] else 0];
        addr := addr + 4;
      }
    }
  }

  lemma NothingYet(memory: map<int, int>)
    ensures Store(memory, []) == memory && Flatten([]) == []
  {
  }

  lemma OneMore(memory: map<int, int>, txns: seq<Txn>, t: Txn)
    ensures Flatten(txns + [t]) == Flatten(txns) + t.data
    ensures Store(memory, txns + [t]) == WriteBeats(Store(memory, txns), t.address, t.data)
  {
    assert (txns + [t])[..|txns|] == txns;
  }

  // What ProcessPending needs to know of a writer that is on its ring.
  lemma DrainedOnRing(cfg: Config, stream: seq<int>, data: seq<int>)
    requires cfg.EndsOnPage()
    ensures var addr := RingAddress(cfg, |stream|);
      && Left(cfg, addr, data) == []
      && Flatten(Drain(cfg, addr, data)) == data
      && Store(Ring(cfg.baseAddr, cfg.Capacity(), stream), Drain(cfg, addr, data))
         == Ring(cfg.baseAddr, cfg.Capacity(), stream + data)
      && DrainAddress(cfg, addr, |data|) == RingAddress(cfg, |stream + data|)
      && forall i :: 0 <= i < |Drain(cfg, addr, data)| ==> InBuffer(cfg, Drain(cfg, addr, data)[i])
  {
    hide Drain, Left, Ring, Store, DrainAddress, RingAddress;
    RingAddressInBuffer(cfg, |stream|);
    NothingLeft(cfg, RingAddress(cfg, |stream|), data);
    DrainShape(cfg, RingAddress(cfg, |stream|), data);
    DrainRefinesRing(cfg, stream, data);
  }
}

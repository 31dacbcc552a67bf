/** How the RAM writer cuts a run of 32-bit beats into AXI4 bursts: the plan as
    pure functions of the configuration, the address and the pending data. */
module BurstPlan {
  import opened Arith
  import opened Samples

  // No burst may touch two different 4 KB pages (section A3.4.1 of ARM IHI 0022).
  datatype Config = Config(enable: bool, baseAddr: nat, bufferSize: nat, maxBurstLen: nat)
  {
    function End(): nat { baseAddr + bufferSize }

    function Capacity(): nat { bufferSize / 4 }

    // A DDR buffer of whole words whose end is the end of a page.
    predicate EndsOnPage() {
      bufferSize % 4 == 0 && bufferSize > 0 && End() % 4096 == 0 && maxBurstLen >= 1
    }

    // One made of whole pages.
    predicate PageAligned() {
      EndsOnPage() && baseAddr % 4096 == 0
    }
  }

  datatype Txn = Txn(address: nat, data: seq<int>, burstLen: nat)
  {
    function TotalBytes(): nat { burstLen * 4 }

    function EndAddress(): nat { address + TotalBytes() }

    predicate WellShaped(maxLen: nat) {
      && 1 <= burstLen <= maxLen
      && burstLen == |data|
      && address / 4096 == (EndAddress() - 1) / 4096
    }
  }

  function BeatsToPage(addr: nat): nat { (4096 - addr % 4096) / 4 }

  function BurstLength(addr: nat, available: nat, maxLen: nat): nat
  {
    if available == 0 then 0 else Min(Min(available, maxLen), BeatsToPage(addr))
  }

  function NextAddress(cfg: Config, addr: nat, beats: nat): nat
  {
    var a := addr + 4 * beats;
    if a >= cfg.End() then cfg.baseAddr else a
  }

  // The transactions that draining `data` from `addr` produces. Draining stops
  // early only when the next burst would have no beats.
  function Drain(cfg: Config, addr: nat, data: seq<int>): seq<Txn>
    decreases |data|
  {
    var n := BurstLength(addr, |data|, cfg.maxBurstLen);
    if n == 0 then [] else
    [Txn(addr, data[..n], n)] + Drain(cfg, NextAddress(cfg, addr, n), data[n..])
  }

  // The write address after that drain.
  function DrainAddress(cfg: Config, addr: nat, count: nat): nat
    decreases count
  {
    var n := BurstLength(addr, count, cfg.maxBurstLen);
    if n == 0 then addr else DrainAddress(cfg, NextAddress(cfg, addr, n), count - n)
  }

  function Flatten(txns: seq<Txn>): seq<int>
  {
    if txns == [] then [] else Flatten(txns[..|txns|-1]) + txns[|txns|-1].data
  }

  lemma {:induction false} FlattenAppend(a: seq<Txn>, b: seq<Txn>)
    ensures Flatten(a + b) == Flatten(a) + Flatten(b)
    decreases |b|
  {
    if b == [] {
      assert a + b == a;
    } else {
      var last := |b| - 1;
      assert (a + b)[..|a + b| - 1] == a + b[..last];
      FlattenAppend(a, b[..last]);
    }
  }

  lemma {:induction false} FlattenCons(t: Txn, rest: seq<Txn>)
    ensures Flatten([t] + rest) == t.data + Flatten(rest)
  {
    FlattenAppend([t], rest);
    assert Flatten([t]) == Flatten([t][..0]) + t.data == t.data;
  }

  lemma DrainStep(cfg: Config, addr: nat, data: seq<int>)
    requires BurstLength(addr, |data|, cfg.maxBurstLen) > 0
    ensures var n := BurstLength(addr, |data|, cfg.maxBurstLen);
      && Drain(cfg, addr, data) == [Txn(addr, data[..n], n)] + Drain(cfg, NextAddress(cfg, addr, n), data[n..])
      && DrainAddress(cfg, addr, |data|) == DrainAddress(cfg, NextAddress(cfg, addr, n), |data| - n)
  {
  }

  lemma DrainNothing(cfg: Config, addr: nat)
    ensures Drain(cfg, addr, []) == []
    ensures DrainAddress(cfg, addr, 0) == addr
  {
  }

  // --- Shape ------------------------------------------------------------------

  predicate Aligned(addr: nat) { addr % 4 == 0 }

  lemma AlignedAdd(addr: nat, n: nat)
    requires Aligned(addr)
    ensures Aligned(addr + 4 * n)
  {
  }

  // What one planned burst guarantees.
  lemma BurstFacts(cfg: Config, addr: nat, count: nat)
    requires Aligned(cfg.baseAddr) && Aligned(addr) && cfg.maxBurstLen >= 1 && count > 0
    ensures var n := BurstLength(addr, count, cfg.maxBurstLen);
      && 1 <= n <= count && n <= cfg.maxBurstLen && n <= BeatsToPage(addr)
      && addr / 4096 == (addr + 4 * n - 1) / 4096
      && Aligned(NextAddress(cfg, addr, n))
  {
    BeatsToPageFacts(addr);
    SamePage(addr, BurstLength(addr, count, cfg.maxBurstLen));
    AlignedAdd(addr, BurstLength(addr, count, cfg.maxBurstLen));
    hide Aligned, BeatsToPage;
  }

  // From an aligned address the page holds a whole number of beats, at least one.
  lemma BeatsToPageFacts(addr: nat)
    requires Aligned(addr)
    ensures 1 <= BeatsToPage(addr) <= 1024 && 4 * BeatsToPage(addr) == 4096 - addr % 4096
  {
    var k := addr / 4;
    assert addr == 4 * k;
    assert addr % 4096 == 4 * (k % 1024) by {
      assert addr == 4096 * (k / 1024) + 4 * (k % 1024);
    }
  }

  lemma SamePage(addr: nat, n: nat)
    requires 1 <= n <= BeatsToPage(addr)
    ensures addr / 4096 == (addr + 4 * n - 1) / 4096
  {
    var page := addr / 4096;
    assert addr == page * 4096 + addr % 4096;
    assert addr % 4096 + 4 * n <= 4096;
  }

  // Whatever the alignment, no burst is empty, too long, or on two pages.
  lemma {:induction false} DrainWellShaped(cfg: Config, addr: nat, data: seq<int>)
    ensures forall i :: 0 <= i < |Drain(cfg, addr, data)| ==> Drain(cfg, addr, data)[i].WellShaped(cfg.maxBurstLen)
    decreases |data|
  {
    hide BeatsToPage, NextAddress;
    var n := BurstLength(addr, |data|, cfg.maxBurstLen);
    if n == 0 {
    } else {
      SamePage(addr, n);
      DrainStep(cfg, addr, data);
      DrainWellShaped(cfg, NextAddress(cfg, addr, n), data[n..]);
    }
  }

  // From a beat-aligned address every beat is written, in order, by bursts that
  // respect the length limit and never cross a page.
  lemma {:induction false} DrainShape(cfg: Config, addr: nat, data: seq<int>)
    requires Aligned(cfg.baseAddr) && Aligned(addr) && cfg.maxBurstLen >= 1
    ensures Flatten(Drain(cfg, addr, data)) == data
    ensures forall i :: 0 <= i < |Drain(cfg, addr, data)| ==> Drain(cfg, addr, data)[i].WellShaped(cfg.maxBurstLen)
    ensures Aligned(DrainAddress(cfg, addr, |data|))
    decreases |data|
  {
    hide Drain, DrainAddress, BurstLength, NextAddress;
    if data == [] {
      DrainNothing(cfg, addr);
    } else {
      var n := BurstLength(addr, |data|, cfg.maxBurstLen);
      BurstFacts(cfg, addr, |data|);
      DrainStep(cfg, addr, data);
      var t := Txn(addr, data[..n], n);
      var rest := Drain(cfg, NextAddress(cfg, addr, n), data[n..]);
      DrainShape(cfg, NextAddress(cfg, addr, n), data[n..]);
      FlattenCons(t, rest);
      assert data[..n] + data[n..] == data;
      assert t.WellShaped(cfg.maxBurstLen);
    }
  }

  // --- Simulated memory ---------------------------------------------------------

  function WriteBeats(memory: map<int, int>, addr: nat, data: seq<int>): map<int, int>
  {
    if data == [] then memory else
    var last := |data| - 1;
    WriteBeats(memory, addr, data[..last])[addr + 4 * last := data[last]]
  }

  function Store(memory: map<int, int>, txns: seq<Txn>): map<int, int>
  {
    if txns == [] then memory else
    var last := |txns| - 1;
    WriteBeats(Store(memory, txns[..last]), txns[last].address, txns[last].data)
  }

  lemma {:induction false} StoreAppend(memory: map<int, int>, a: seq<Txn>, b: seq<Txn>)
    ensures Store(memory, a + b) == Store(Store(memory, a), b)
    decreases |b|
  {
    if b == [] {
      assert a + b == a;
    } else {
      assert (a + b)[..|a + b| - 1] == a + b[..|b| - 1];
      StoreAppend(memory, a, b[..|b| - 1]);
    }
  }

  lemma {:induction false} StoreCons(memory: map<int, int>, t: Txn, rest: seq<Txn>)
    ensures Store(memory, [t] + rest) == Store(WriteBeats(memory, t.address, t.data), rest)
  {
    StoreAppend(memory, [t], rest);
    assert [t][..0] == [];
    assert Store(memory, [t]) == WriteBeats(Store(memory, [t][..0]), t.address, t.data);
  }

  lemma {:induction false} WriteBeatsAppend(memory: map<int, int>, addr: nat, a: seq<int>, b: seq<int>)
    ensures WriteBeats(memory, addr, a + b) == WriteBeats(WriteBeats(memory, addr, a), addr + 4 * |a|, b)
    decreases |b|
  {
    if b == [] {
      assert a + b == a;
    } else {
      assert (a + b)[..|a + b| - 1] == a + b[..|b| - 1];
      WriteBeatsAppend(memory, addr, a, b[..|b| - 1]);
    }
  }

  // What a linear write leaves in memory: exactly the beats, nothing else touched.
  lemma {:induction false} WriteBeatsAt(memory: map<int, int>, addr: nat, data: seq<int>)
    ensures forall i :: 0 <= i < |data| ==>
      addr + 4 * i in WriteBeats(memory, addr, data) && WriteBeats(memory, addr, data)[addr + 4 * i] == data[i]
    ensures forall x :: (x < addr || addr + 4 * |data| <= x) ==>
      (x in WriteBeats(memory, addr, data) <==> x in memory) &&
      (x in memory ==> WriteBeats(memory, addr, data)[x] == memory[x])
    decreases |data|
  {
    if data == [] {
    } else {
      WriteBeatsAt(memory, addr, data[..|data| - 1]);
    }
  }

  // While the run fits before the end of the buffer, cutting it into bursts makes
  // no difference to memory.
  lemma {:induction false} DrainIsLinear(cfg: Config, memory: map<int, int>, addr: nat, data: seq<int>)
    requires Aligned(cfg.baseAddr) && Aligned(addr) && cfg.maxBurstLen >= 1
    requires addr + 4 * |data| <= cfg.End()
    ensures Store(memory, Drain(cfg, addr, data)) == WriteBeats(memory, addr, data)
    ensures addr + 4 * |data| < cfg.End() ==> DrainAddress(cfg, addr, |data|) == addr + 4 * |data|
    decreases |data|
  {
    hide Drain, DrainAddress, BurstLength;
    if data == [] {
      DrainNothing(cfg, addr);
    } else {
      var n := BurstLength(addr, |data|, cfg.maxBurstLen);
      BurstFacts(cfg, addr, |data|);
      DrainStep(cfg, addr, data);
      var next := NextAddress(cfg, addr, n);
      var head, tail := data[..n], data[n..];
      StoreCons(memory, Txn(addr, head, n), Drain(cfg, next, tail));
      assert head + tail == data;
      WriteBeatsAppend(memory, addr, head, tail);
      if n < |data| {
        assert next == addr + 4 * n;
        DrainIsLinear(cfg, WriteBeats(memory, addr, head), next, tail);
      } else {
        assert tail == [];
        DrainNothing(cfg, next);
      }
    }
  }

  // --- The ring ---------------------------------------------------------------

  // The abstract buffer: beat i of the stream goes to slot i mod capacity.
  function Ring(base: nat, capacity: nat, stream: seq<int>): map<int, int>
    requires capacity > 0
  {
    if stream == [] then map[] else
    var last := |stream| - 1;
    Ring(base, capacity, stream[..last])[base + 4 * (last % capacity) := stream[last]]
  }

  // The index of the newest stream element held by slot k.
  function Newest(k: nat, capacity: nat, count: nat): nat
    requires k < capacity && k < count
  {
    ((count - 1 - k) / capacity) * capacity + k
  }

  lemma NewestIsLatest(k: nat, capacity: nat, count: nat)
    requires k < capacity && k < count
    ensures Newest(k, capacity, count) < count <= Newest(k, capacity, count) + capacity
    ensures Newest(k, capacity, count) % capacity == k
  {
    var q := (count - 1 - k) / capacity;
    DivBounds(count - 1 - k, capacity);
    ModOfSum(k, capacity, q);
  }

  // Those two facts single it out.
  lemma NewestIsUnique(k: nat, capacity: nat, count: nat, m: nat)
    requires k < capacity && k < count
    requires m < count <= m + capacity && m % capacity == k
    ensures Newest(k, capacity, count) == m
  {
    var q := m / capacity;
    assert m == q * capacity + k;
    UniqueDivMod(count - 1 - k, capacity, q, count - 1 - m);
  }

  // Appending element `last` moves only the slot it lands in.
  lemma NewestStep(k: nat, capacity: nat, last: nat)
    requires k < capacity && k <= last
    ensures k == last % capacity ==> Newest(k, capacity, last + 1) == last
    ensures k != last % capacity ==>
      k < last && Newest(k, capacity, last + 1) == Newest(k, capacity, last)
  {
    hide Newest;
    if k == last % capacity {
      NewestIsUnique(k, capacity, last + 1, last);
    } else {
      ModSmall(last, capacity);
      NewestIsLatest(k, capacity, last + 1);
      NewestIsUnique(k, capacity, last, Newest(k, capacity, last + 1));
    }
  }

  lemma {:induction false} RingSlot(base: nat, capacity: nat, stream: seq<int>, k: nat)
    requires k < capacity && k < |stream|
    ensures base + 4 * k in Ring(base, capacity, stream)
    ensures 0 <= Newest(k, capacity, |stream|) < |stream|
    ensures Ring(base, capacity, stream)[base + 4 * k] == stream[Newest(k, capacity, |stream|)]
    decreases |stream|
  {
    var last := |stream| - 1;
    NewestIsLatest(k, capacity, |stream|);
    NewestStep(k, capacity, last);
    if k == last % capacity {
    } else {
      RingSlot(base, capacity, stream[..last], k);
    }
  }

  lemma {:induction false} RingKeys(base: nat, capacity: nat, stream: seq<int>, x: int)
    requires capacity > 0 && x in Ring(base, capacity, stream)
    ensures base <= x && (x - base) % 4 == 0 && (x - base) / 4 < capacity && (x - base) / 4 < |stream|
    decreases |stream|
  {
    var last := |stream| - 1;
    var slot := last % capacity;
    ModSmall(last, capacity);
    if x == base + 4 * slot {
    } else {
      RingKeys(base, capacity, stream[..last], x);
    }
  }

  // Every slot of the ring holds the newest beat with its residue; slots that no
  // beat has reached are absent, and so is every other address.
  lemma RingContents(base: nat, capacity: nat, stream: seq<int>)
    requires capacity > 0
    ensures forall k: nat :: k < capacity && k < |stream| ==>
      base + 4 * k in Ring(base, capacity, stream) &&
      Newest(k, capacity, |stream|) < |stream| &&
      Newest(k, capacity, |stream|) + capacity >= |stream| &&
      Newest(k, capacity, |stream|) % capacity == k &&
      Ring(base, capacity, stream)[base + 4 * k] == stream[Newest(k, capacity, |stream|)]
    ensures forall x <- Ring(base, capacity, stream) ::
      base <= x && (x - base) % 4 == 0 && (x - base) / 4 < Min(capacity, |stream|)
  {
    hide Ring, Newest;
    forall k: nat | k < capacity && k < |stream|
      ensures base + 4 * k in Ring(base, capacity, stream)
      ensures Newest(k, capacity, |stream|) < |stream|
      ensures Newest(k, capacity, |stream|) + capacity >= |stream|
      ensures Newest(k, capacity, |stream|) % capacity == k
      ensures Ring(base, capacity, stream)[base + 4 * k] == stream[Newest(k, capacity, |stream|)]
    {
      RingSlot(base, capacity, stream, k);
      NewestIsLatest(k, capacity, |stream|);
    }
    forall x | x in Ring(base, capacity, stream)
      ensures base <= x && (x - base) % 4 == 0 && (x - base) / 4 < Min(capacity, |stream|)
    {
      RingKeys(base, capacity, stream, x);
    }
  }

  lemma RingPush(base: nat, capacity: nat, stream: seq<int>, beat: int)
    requires capacity > 0
    ensures Ring(base, capacity, stream + [beat])
         == Ring(base, capacity, stream)[base + 4 * (|stream| % capacity) := beat]
  {
    assert (stream + [beat])[..|stream|] == stream;
  }

  // One burst that stays inside the buffer advances the ring by its beats.
  lemma {:induction false} BurstIntoRing(base: nat, capacity: nat, stream: seq<int>, data: seq<int>)
    requires capacity > 0
    requires |stream| % capacity + |data| <= capacity
    ensures WriteBeats(Ring(base, capacity, stream), base + 4 * (|stream| % capacity), data)
         == Ring(base, capacity, stream + data)
    decreases |data|
  {
    hide Ring;
    if data == [] {
      assert stream + data == stream;
    } else {
      var last := |data| - 1;
      BurstIntoRing(base, capacity, stream, data[..last]);
      ModAdvance(|stream|, last, capacity);
      RingPush(base, capacity, stream + data[..last], data[last]);
      assert stream + data[..last] + [data[last]] == stream + data;
    }
  }

  predicate InBuffer(cfg: Config, t: Txn) {
    cfg.baseAddr <= t.address && t.EndAddress() <= cfg.End()
  }

  function RingAddress(cfg: Config, count: nat): nat
    requires cfg.EndsOnPage()
  {
    cfg.baseAddr + 4 * (count % cfg.Capacity())
  }

  lemma PageMultiple(x: nat)
    requires x % 4096 == 0
    ensures Aligned(x) && x == 4 * (x / 4)
  {
    assert x == 4 * (1024 * (x / 4096));
  }

  lemma WholeWords(cfg: Config)
    requires cfg.EndsOnPage()
    ensures Aligned(cfg.baseAddr) && cfg.bufferSize == 4 * cfg.Capacity() && cfg.Capacity() > 0
  {
    PageMultiple(cfg.End());
    var last := cfg.End() / 4;
    assert cfg.baseAddr == 4 * (last - cfg.Capacity());
  }

  lemma RingAddressInBuffer(cfg: Config, count: nat)
    requires cfg.EndsOnPage()
    ensures cfg.baseAddr <= RingAddress(cfg, count) < cfg.End()
    ensures Aligned(cfg.baseAddr) && Aligned(RingAddress(cfg, count))
    ensures cfg.bufferSize == 4 * cfg.Capacity()
  {
    WholeWords(cfg);
    AlignedAdd(cfg.baseAddr, count % cfg.Capacity());
    hide Aligned;
  }

  // A burst that ends by the page end stays inside a buffer that ends on a page.
  lemma BurstStaysInside(cfg: Config, addr: nat, n: nat)
    requires cfg.EndsOnPage() && cfg.baseAddr <= addr < cfg.End()
    requires n <= BeatsToPage(addr)
    ensures addr + 4 * n <= cfg.End()
  {
    assert 4 * n <= 4096 - addr % 4096;
    PageGap(addr, cfg.End());
  }

  lemma PageGap(addr: nat, end: nat)
    requires addr < end && end % 4096 == 0
    ensures addr - addr % 4096 + 4096 <= end
  {
  }

  // One planned burst of a buffer that ends on a page: it stays inside, and the wrap
  // check leaves the write address on the ring.
  lemma RingStep(cfg: Config, count: nat, pending: nat)
    requires cfg.EndsOnPage() && pending > 0
    ensures var n := BurstLength(RingAddress(cfg, count), pending, cfg.maxBurstLen);
      && 1 <= n <= pending
      && count % cfg.Capacity() + n <= cfg.Capacity()
      && NextAddress(cfg, RingAddress(cfg, count), n) == RingAddress(cfg, count + n)
  {
    hide BurstLength, BeatsToPage, Aligned;
    var cap := cfg.Capacity();
    var addr := RingAddress(cfg, count);
    var n := BurstLength(addr, pending, cfg.maxBurstLen);
    RingAddressInBuffer(cfg, count);
    BurstFacts(cfg, addr, pending);
    BurstStaysInside(cfg, addr, n);
    ModAdvance(count, n, cap);
  }

  // Main result: draining into a buffer that ends on a page refines the abstract ring,
  // inside the buffer, whatever was written before.
  lemma {:induction false} DrainRefinesRing(cfg: Config, stream: seq<int>, data: seq<int>)
    requires cfg.EndsOnPage()
    ensures var cap, txns := cfg.Capacity(), Drain(cfg, RingAddress(cfg, |stream|), data);
      && Store(Ring(cfg.baseAddr, cap, stream), txns) == Ring(cfg.baseAddr, cap, stream + data)
      && DrainAddress(cfg, RingAddress(cfg, |stream|), |data|) == RingAddress(cfg, |stream + data|)
      && forall i :: 0 <= i < |txns| ==> InBuffer(cfg, txns[i])
    decreases |data|
  {
    hide Drain, DrainAddress, BurstLength, Ring;
    var addr := RingAddress(cfg, |stream|);
    if data == [] {
      assert stream + data == stream;
      DrainNothing(cfg, addr);
    } else {
      var n := BurstLength(addr, |data|, cfg.maxBurstLen);
      hide Store, WriteBeats;
      RingStep(cfg, |stream|, |data|);
      DrainStep(cfg, addr, data);
      var head, tail := data[..n], data[n..];
      var rest := Drain(cfg, RingAddress(cfg, |stream| + n), tail);
      BurstIntoRing(cfg.baseAddr, cfg.Capacity(), stream, head);
      StoreCons(Ring(cfg.baseAddr, cfg.Capacity(), stream), Txn(addr, head, n), rest);
      assert |stream + head| == |stream| + n;
      DrainRefinesRing(cfg, stream + head, tail);
      assert stream + head + tail == stream + data;
      assert InBuffer(cfg, Txn(addr, head, n));
    }
  }

  // --- Buffers that end anywhere -------------------------------------------------------

  // The address after bursts made with these numbers of words at hand, from a reset.
  function AddressAfter(cfg: Config, counts: seq<nat>): nat
  {
    if counts == [] then cfg.baseAddr else
    var addr := AddressAfter(cfg, counts[..|counts| - 1]);
    NextAddress(cfg, addr, BurstLength(addr, counts[|counts| - 1], cfg.maxBurstLen))
  }

  predicate BurstEndsInside(cfg: Config, addr: nat, count: nat)
  {
    addr + 4 * BurstLength(addr, count, cfg.maxBurstLen) <= cfg.End()
  }

  // Every write address is a whole number of words past the base, and inside a buffer that is
  // not empty.
  lemma {:induction false} AddressInside(cfg: Config, counts: seq<nat>)
    ensures cfg.baseAddr <= AddressAfter(cfg, counts) && Aligned(AddressAfter(cfg, counts) - cfg.baseAddr)
    ensures cfg.bufferSize > 0 ==> AddressAfter(cfg, counts) < cfg.End()
  {
    hide BurstLength;
    if counts == [] {
    } else {
      var n := |counts| - 1;
      AddressInside(cfg, counts[..n]);
      var addr := AddressAfter(cfg, counts[..n]);
      AlignedAdd(addr - cfg.baseAddr, BurstLength(addr, counts[n], cfg.maxBurstLen));
    }
  }

  // From a base between two words the last address of its page that bursts can reach: there
  // less than a word is left to the page end, so no burst has a beat any more.
  function StuckAddress(base: nat): (stuck: nat)
    ensures base <= stuck && Aligned(stuck - base)
  {
    base - base % 4096 + 4092 + base % 4
  }

  lemma BeatsToStuck(base: nat, addr: nat)
    requires base % 4 != 0 && base <= addr <= StuckAddress(base) && Aligned(addr - base)
    ensures 4 * BeatsToPage(addr) == StuckAddress(base) - addr
  {
    var page, offset := base / 4096, addr - (base - base % 4096);
    assert addr == page * 4096 + offset && 0 <= offset < 4096;
    UniqueDivMod(addr, 4096, page, offset);
    var k := (StuckAddress(base) - addr) / 4;
    assert 4096 - offset == 4 * k + (4 - base % 4);
  }

  lemma {:induction false} StuckIsNotPassed(cfg: Config, counts: seq<nat>)
    requires cfg.baseAddr % 4 != 0
    ensures AddressAfter(cfg, counts) <= StuckAddress(cfg.baseAddr)
  {
    if counts == [] {
    } else {
      var n := |counts| - 1;
      StuckIsNotPassed(cfg, counts[..n]);
      AddressInside(cfg, counts[..n]);
      BeatsToStuck(cfg.baseAddr, AddressAfter(cfg, counts[..n]));
      hide BeatsToPage, Aligned;
    }
  }

  // There are no bursts, or the buffer is a whole number of words written one by one, or it ends
  // where bursts end.
  predicate StaysInside(cfg: Config)
  {
    || cfg.maxBurstLen == 0
    || (cfg.maxBurstLen == 1 && cfg.bufferSize > 0 && cfg.bufferSize % 4 == 0)
    || EndsWithBursts(cfg)
  }

  // On a page, or not before the address where the writer gets stuck.
  predicate EndsWithBursts(cfg: Config)
  {
    if Aligned(cfg.baseAddr) then cfg.bufferSize > 0 && cfg.End() % 4096 == 0
    else StuckAddress(cfg.baseAddr) <= cfg.End()
  }

  // Main result: this is exactly when the bursts of every run stay inside the buffer, for every
  // configuration.
  lemma StaysInsideIff(cfg: Config)
    ensures (forall counts: seq<nat>, count: nat :: BurstEndsInside(cfg, AddressAfter(cfg, counts), count))
      <==> StaysInside(cfg)
  {
    hide AddressAfter, BurstEndsInside, EndsWithBursts;
    if StaysInside(cfg) {
      forall counts: seq<nat>, count: nat
        ensures BurstEndsInside(cfg, AddressAfter(cfg, counts), count)
      {
        EndsInside(cfg, counts, count);
      }
    } else {
      LeavesBuffer(cfg);
    }
  }

  lemma EndsInside(cfg: Config, counts: seq<nat>, count: nat)
    requires StaysInside(cfg)
    ensures BurstEndsInside(cfg, AddressAfter(cfg, counts), count)
  {
    var addr := AddressAfter(cfg, counts);
    var n := BurstLength(addr, count, cfg.maxBurstLen);
    AddressInside(cfg, counts);
    assert n <= cfg.maxBurstLen && n <= BeatsToPage(addr);
    if cfg.maxBurstLen == 0 {
      assert n == 0;
      NoBursts(cfg, counts);
    } else if cfg.maxBurstLen == 1 && cfg.bufferSize > 0 && cfg.bufferSize % 4 == 0 {
      hide BeatsToPage, BurstLength, AddressAfter;
      WordGap(cfg.baseAddr, addr, cfg.bufferSize);
    } else if Aligned(cfg.baseAddr) {
      PageGap(addr, cfg.End());
      assert 4 * BeatsToPage(addr) <= 4096 - addr % 4096;
      hide BeatsToPage, BurstLength, AddressAfter;
    } else {
      StuckIsNotPassed(cfg, counts);
      BeatsToStuck(cfg.baseAddr, addr);
      hide BeatsToPage, BurstLength, AddressAfter;
    }
  }

  lemma {:induction false} NoBursts(cfg: Config, counts: seq<nat>)
    requires cfg.maxBurstLen == 0
    ensures AddressAfter(cfg, counts) == cfg.baseAddr
  {
    if counts == [] {
    } else {
      NoBursts(cfg, counts[..|counts| - 1]);
      hide BeatsToPage;
    }
  }

  lemma WordGap(base: nat, addr: nat, size: nat)
    requires base <= addr && (addr - base) % 4 == 0 && size % 4 == 0 && addr < base + size
    ensures addr + 4 <= base + size
  {
    var a, c := (addr - base) / 4, size / 4;
    assert addr == base + 4 * a && size == 4 * c;
  }

  lemma RoomForABeat(cfg: Config, k: nat)
    requires !EndsWithBursts(cfg) && (k == 0 || 4 * k < cfg.bufferSize)
    ensures BeatsToPage(cfg.baseAddr + 4 * k) >= 1
    ensures 4 * k + 4 == cfg.bufferSize ==> BeatsToPage(cfg.baseAddr + 4 * k) >= 2
  {
    var addr := cfg.baseAddr + 4 * k;
    if Aligned(cfg.baseAddr) {
      AlignedAdd(cfg.baseAddr, k);
      BeatsToPageFacts(addr);
      if BeatsToPage(addr) == 1 {
        PageEnd(addr);
      }
      hide BeatsToPage;
    } else {
      BeatsToStuck(cfg.baseAddr, addr);
      hide BeatsToPage;
    }
  }

  lemma {:induction false} SingleBeats(cfg: Config, k: nat)
    requires cfg.maxBurstLen >= 1 && !EndsWithBursts(cfg) && (k == 0 || 4 * k < cfg.bufferSize)
    ensures AddressAfter(cfg, seq(k, _ => 1)) == cfg.baseAddr + 4 * k
  {
    hide EndsWithBursts;
    if k == 0 {
    } else {
      var counts := seq(k, _ => 1);
      assert counts[..k - 1] == seq(k - 1, _ => 1);
      SingleBeats(cfg, k - 1);
      RoomForABeat(cfg, k - 1);
      hide BeatsToPage;
    }
  }

  // A run that leaves any other buffer: word by word to the last one that starts inside, then
  // two words at once.
  lemma LeavesBuffer(cfg: Config)
    requires !StaysInside(cfg)
    ensures exists counts: seq<nat> :: !BurstEndsInside(cfg, AddressAfter(cfg, counts), 2)
  {
    hide EndsWithBursts, AddressAfter, BeatsToPage;
    var k := LastWord(cfg.bufferSize);
    SingleBeats(cfg, k);
    RoomForABeat(cfg, k);
    assert !BurstEndsInside(cfg, AddressAfter(cfg, seq(k, _ => 1)), 2);
  }

  function LastWord(size: nat): (k: nat)
    ensures size <= 4 * k + 4 && (k == 0 || 4 * k < size)
    ensures size > 0 && size % 4 == 0 ==> 4 * k + 4 == size
  {
    if size == 0 then 0 else (size - 1) / 4
  }

  // A buffer of 250 words on a page: one full burst ends six words behind it.
  lemma BurstLeavesBuffer()
    ensures var cfg := Config(true, 4096, 1000, 256);
      AddressAfter(cfg, []) == 4096 && BurstLength(4096, 256, 256) == 256 && !BurstEndsInside(cfg, 4096, 256)
  {
  }

  lemma PageEnd(addr: nat)
    requires Aligned(addr) && BeatsToPage(addr) == 1
    ensures (addr + 4) % 4096 == 0
  {
    BeatsToPageFacts(addr);
    UniqueDivMod(addr + 4, 4096, addr / 4096 + 1, 0);
  }

  // --- Greedy optimality --------------------------------------------------------

  // The number of bursts that the greedy plan uses for n contiguous beats.
  function BurstCount(addr: nat, n: nat, maxLen: nat): nat
    decreases n
  {
    var b := BurstLength(addr, n, maxLen);
    if b == 0 then 0 else 1 + BurstCount(addr + 4 * b, n - b, maxLen)
  }

  // Any legal way of cutting n contiguous beats from addr.
  predicate LegalSplit(addr: nat, n: nat, maxLen: nat, lens: seq<nat>)
    decreases |lens|
  {
    if lens == [] then n == 0 else
    && 1 <= lens[0] <= maxLen
    && lens[0] <= n
    && addr / 4096 == (addr + 4 * lens[0] - 1) / 4096
    && LegalSplit(addr + 4 * lens[0], n - lens[0], maxLen, lens[1..])
  }

  lemma LegalBurstIsNoLonger(addr: nat, len: nat)
    requires len >= 1 && addr / 4096 == (addr + 4 * len - 1) / 4096
    ensures len <= BeatsToPage(addr)
  {
    var page := addr / 4096;
    assert addr + 4 * len - 1 < page * 4096 + 4096;
    assert addr == page * 4096 + addr % 4096;
  }

  lemma PageOffset(addr: nat, d: nat)
    requires Aligned(addr) && d < BeatsToPage(addr)
    ensures BeatsToPage(addr + 4 * d) == BeatsToPage(addr) - d
  {
    BeatsToPageFacts(addr);
    AlignedAdd(addr, d);
    BeatsToPageFacts(addr + 4 * d);
    hide Aligned, BeatsToPage;
    var page := addr / 4096;
    assert addr == page * 4096 + addr % 4096;
    assert addr % 4096 + 4 * d < 4096;
    UniqueDivMod(addr + 4 * d, 4096, page, addr % 4096 + 4 * d);
  }

  lemma BurstCountStep(addr: nat, n: nat, maxLen: nat)
    requires Aligned(addr) && maxLen >= 1 && n >= 1
    ensures var b := BurstLength(addr, n, maxLen);
      && Aligned(addr + 4 * b)
      && 1 <= b <= n && b <= maxLen && b <= BeatsToPage(addr)
      && (b == n || b == maxLen || b == BeatsToPage(addr))
      && BurstCount(addr, n, maxLen) == 1 + BurstCount(addr + 4 * b, n - b, maxLen)
  {
    BeatsToPageFacts(addr);
    AlignedAdd(addr, BurstLength(addr, n, maxLen));
    hide Aligned, BeatsToPage;
  }

  // Being d beats further along never costs an extra burst.
  lemma {:induction false} FurtherIsNoWorse(addr: nat, n: nat, d: nat, maxLen: nat)
    requires Aligned(addr) && maxLen >= 1 && d <= n
    ensures BurstCount(addr + 4 * d, n - d, maxLen) <= BurstCount(addr, n, maxLen)
    decreases n
  {
    hide BurstCount, BurstLength, BeatsToPage, Aligned;
    if 0 < d < n {
      var b := BurstLength(addr, n, maxLen);
      BurstCountStep(addr, n, maxLen);
      if d >= b {
        FurtherIsNoWorse(addr + 4 * b, n - b, d - b, maxLen);
        assert addr + 4 * b + 4 * (d - b) == addr + 4 * d;
      } else {
        PageOffset(addr, d);
        AlignedAdd(addr, d);
        BurstCountStep(addr + 4 * d, n - d, maxLen);
        var c := BurstLength(addr + 4 * d, n - d, maxLen);
        FurtherIsNoWorse(addr + 4 * b, n - b, d + c - b, maxLen);
        assert addr + 4 * b + 4 * (d + c - b) == addr + 4 * d + 4 * c;
      }
    } else if d == n {
      NoBeatsNoBursts(addr + 4 * d, maxLen);
    }
  }

  lemma NoBeatsNoBursts(addr: nat, maxLen: nat)
    ensures BurstCount(addr, 0, maxLen) == 0
  {
  }

  // Main result: no legal split of the run uses fewer bursts than the greedy plan.
  lemma {:induction false} GreedyIsOptimal(addr: nat, n: nat, maxLen: nat, lens: seq<nat>)
    requires Aligned(addr) && LegalSplit(addr, n, maxLen, lens)
    ensures BurstCount(addr, n, maxLen) <= |lens|
    decreases |lens|
  {
    hide BurstCount, BurstLength, BeatsToPage, Aligned;
    if lens == [] {
      NoBeatsNoBursts(addr, maxLen);
    } else {
      var len := lens[0];
      LegalBurstIsNoLonger(addr, len);
      var b := BurstLength(addr, n, maxLen);
      BurstCountStep(addr, n, maxLen);
      AlignedAdd(addr, len);
      GreedyIsOptimal(addr + 4 * len, n - len, maxLen, lens[1..]);
      FurtherIsNoWorse(addr + 4 * len, n - len, b - len, maxLen);
      assert addr + 4 * len + 4 * (b - len) == addr + 4 * b;
    }
  }

  lemma KilobyteFacts(addr: nat)
    requires addr % 1024 == 0
    ensures Aligned(addr) && addr % 4096 <= 3072 && (addr + 1024) % 1024 == 0
  {
    var k := addr / 1024;
    assert addr == 4 * (256 * k);
    assert addr == (k / 4) * 4096 + 1024 * (k % 4);
    UniqueDivMod(addr, 4096, k / 4, 1024 * (k % 4));
  }

  // From a 1 KB boundary, with the AXI4 limit of 256 beats, the plan is perfect.
  lemma {:induction false} AlignedBurstCount(addr: nat, n: nat)
    requires addr % 1024 == 0
    ensures BurstCount(addr, n, 256) == (n + 255) / 256
    decreases n
  {
    hide BurstCount, BeatsToPage, Aligned;
    if n == 0 {
      NoBeatsNoBursts(addr, 256);
    } else {
      KilobyteFacts(addr);
      BeatsToPageFacts(addr);
      BurstCountStep(addr, n, 256);
      var b := BurstLength(addr, n, 256);
      assert b == Min(n, 256);
      if n >= 256 {
        AlignedBurstCount(addr + 4 * b, n - b);
      } else {
        NoBeatsNoBursts(addr + 4 * b, 256);
      }
    }
  }

  function Lengths(txns: seq<Txn>): seq<nat> { seq(|txns|, i requires 0 <= i < |txns| => txns[i].burstLen) }

  lemma LengthsCons(t: Txn, rest: seq<Txn>)
    ensures Lengths([t] + rest) == [t.burstLen] + Lengths(rest)
  {
  }

  // Two write addresses at the same place of their pages stay so after a burst,
  // because the buffer wraps on a page boundary.
  lemma SameOffsetStep(cfg: Config, here: nat, addr: nat, n: nat)
    requires cfg.PageAligned() && cfg.baseAddr <= here < cfg.End()
    requires addr % 4096 == here % 4096
    requires n <= BeatsToPage(here)
    ensures (addr + 4 * n) % 4096 == NextAddress(cfg, here, n) % 4096
  {
    hide BeatsToPage;
    BurstStaysInside(cfg, here, n);
    SameResidue(addr, here, 4 * n);
  }

  lemma SameResidue(a: nat, b: nat, d: nat)
    requires a % 4096 == b % 4096
    ensures (a + d) % 4096 == (b + d) % 4096
  {
  }

  lemma SameOffsetSameBurst(a: nat, b: nat, n: nat, maxLen: nat)
    requires a % 4096 == b % 4096
    ensures BurstLength(a, n, maxLen) == BurstLength(b, n, maxLen) <= BeatsToPage(b) == BeatsToPage(a)
    ensures Aligned(a) == Aligned(b)
  {
    assert a - b == 4 * (1024 * (a / 4096 - b / 4096));
  }

  lemma LegalSplitCons(addr: nat, n: nat, maxLen: nat, len: nat, rest: seq<nat>)
    requires 1 <= len <= maxLen && len <= n && len <= BeatsToPage(addr)
    requires LegalSplit(addr + 4 * len, n - len, maxLen, rest)
    ensures LegalSplit(addr, n, maxLen, [len] + rest)
  {
    SamePage(addr, len);
    assert ([len] + rest)[1..] == rest;
  }

  // In a page-aligned buffer a drain cuts the stream as if memory went on for ever:
  // its lengths are a legal split of the contiguous run, of BurstCount bursts.
  lemma {:induction false} DrainUsesBurstCount(cfg: Config, count: nat, data: seq<int>, addr: nat)
    requires cfg.PageAligned() && addr % 4096 == RingAddress(cfg, count) % 4096
    ensures |Drain(cfg, RingAddress(cfg, count), data)| == BurstCount(addr, |data|, cfg.maxBurstLen)
    ensures LegalSplit(addr, |data|, cfg.maxBurstLen, Lengths(Drain(cfg, RingAddress(cfg, count), data)))
    decreases |data|
  {
    hide Drain, BurstCount, BurstLength, BeatsToPage, RingAddress, NextAddress, Aligned;
    var here := RingAddress(cfg, count);
    if data == [] {
      DrainNothing(cfg, here);
      NoBeatsNoBursts(addr, cfg.maxBurstLen);
    } else {
      RingAddressInBuffer(cfg, count);
      var n := BurstLength(here, |data|, cfg.maxBurstLen);
      RingStep(cfg, count, |data|);
      SameOffsetSameBurst(addr, here, |data|, cfg.maxBurstLen);
      BurstCountStep(addr, |data|, cfg.maxBurstLen);
      DrainStep(cfg, here, data);
      SameOffsetStep(cfg, here, addr, n);
      var rest := Drain(cfg, RingAddress(cfg, count + n), data[n..]);
      DrainUsesBurstCount(cfg, count + n, data[n..], addr + 4 * n);
      LengthsCons(Txn(here, data[..n], n), rest);
      LegalSplitCons(addr, |data|, cfg.maxBurstLen, n, Lengths(rest));
    }
  }

  // Main result: a drain into a page-aligned buffer needs no more bursts than any
  // legal split of the same beats.
  lemma DrainIsOptimal(cfg: Config, count: nat, data: seq<int>, lens: seq<nat>)
    requires cfg.PageAligned()
    requires LegalSplit(RingAddress(cfg, count), |data|, cfg.maxBurstLen, lens)
    ensures |Drain(cfg, RingAddress(cfg, count), data)| <= |lens|
  {
    var addr := RingAddress(cfg, count);
    RingAddressInBuffer(cfg, count);
    DrainUsesBurstCount(cfg, count, data, addr);
    GreedyIsOptimal(addr, |data|, cfg.maxBurstLen, lens);
  }
}

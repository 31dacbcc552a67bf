/** The FIFO between the AXI-Stream port and the burst builder: a bounded queue of
    words, with the positions of the words that end a packet kept on the side. */
module Fifo {

  // One queued word together with its TLAST mark.
  datatype Entry = Entry(data: int, last: bool)

  function Words(q: seq<Entry>): seq<int>
  {
    seq(|q|, i requires 0 <= i < |q| => q[i].data)
  }

  function MarkedPositions(q: seq<Entry>): (r: seq<nat>)
    ensures forall i :: 0 <= i < |r| ==> r[i] < |q|
  {
    if q == [] then [] else
    var n := |q| - 1;
    MarkedPositions(q[..n]) + (if q[n].last then [n] else [])
  }

  // The positions kept on the side are strictly increasing, and are exactly the
  // queue positions whose word ends a packet.
  lemma {:induction false} MarkedPositionsExact(q: seq<Entry>)
    ensures forall i, j :: 0 <= i < j < |MarkedPositions(q)| ==> MarkedPositions(q)[i] < MarkedPositions(q)[j]
    ensures forall p: nat :: p in MarkedPositions(q) <==> p < |q| && q[p].last
  {
    if q == [] {
    } else {
      var n := |q| - 1;
      var before := MarkedPositions(q[..n]);
      MarkedPositionsExact(q[..n]);
      assert forall p: nat :: p < n ==> q[..n][p] == q[p];
      assert forall p: nat :: p in MarkedPositions(q) <==> p in before || (q[n].last && p == n);
    }
  }

  // The positions after the front word has left: all one lower, a mark at 0 gone.
  function ShiftDown(positions: seq<nat>): seq<nat>
  {
    if positions == [] then [] else
    var n := |positions| - 1;
    ShiftDown(positions[..n]) + (if positions[n] > 0 then [positions[n] - 1] else [])
  }

  lemma ShiftDownSnoc(positions: seq<nat>, p: nat)
    ensures ShiftDown(positions + [p]) == ShiftDown(positions) + (if p > 0 then [p - 1] else [])
  {
    assert (positions + [p])[..|positions|] == positions;
  }

  lemma MarkedPositionsSnoc(q: seq<Entry>, e: Entry)
    ensures MarkedPositions(q + [e]) == MarkedPositions(q) + (if e.last then [|q|] else [])
  {
    assert (q + [e])[..|q|] == q;
  }

  lemma {:induction false} ShiftDownMarks(q: seq<Entry>)
    requires q != []
    ensures ShiftDown(MarkedPositions(q)) == MarkedPositions(q[1..])
    decreases |q|
  {
    var n := |q| - 1;
    var front, e := q[..n], q[n];
    assert q == front + [e];
    MarkedPositionsSnoc(front, e);
    ShiftDownSnoc(MarkedPositions(front), n);
    if n > 0 {
      hide MarkedPositions, ShiftDown;
      ShiftDownMarks(front);
      MarkedPositionsSnoc(front[1..], e);
      assert q[1..] == front[1..] + [e];
      if !e.last {
        assert MarkedPositions(q) == MarkedPositions(front);
        assert MarkedPositions(q[1..]) == MarkedPositions(front[1..]);
      }
    } else {
      assert front == [] && q[1..] == [];
    }
  }

  class FifoModel {
    const depth: nat
    var data: seq<int>
    var tlastPositions: seq<nat>
    var writeCount: nat

    // What the fields stand for, and the whole traffic since the last reset.
    ghost var queue: seq<Entry>
    ghost var accepted: seq<Entry>
    ghost var delivered: seq<Entry>

    ghost predicate Valid()
      reads this
    {
      && data == Words(queue)
      && tlastPositions == MarkedPositions(queue)
      && |queue| <= depth
      && accepted == delivered + queue
      && writeCount == |accepted|
    }

    constructor (depth: nat)
      ensures Valid() && this.depth == depth
      ensures queue == [] && accepted == [] && delivered == []
    {
      this.depth := depth;
      data, tlastPositions, writeCount := [], [], 0;
      queue, accepted, delivered := [], [], [];
    }

    method Reset()
      modifies this
      ensures Valid() && queue == [] && accepted == [] && delivered == []
    {
      data, tlastPositions, writeCount := [], [], 0;
      queue, accepted, delivered := [], [], [];
    }

    predicate IsFull()
      reads this
    {
      |data| >= depth
    }

    // A full FIFO refuses the word and keeps everything; otherwise it joins the back.
    method Write(word: int, tlast: bool) returns (ok: bool)
      requires Valid()
      modifies this
      ensures Valid()
      ensures ok <==> old(|queue|) < depth
      ensures queue == if ok then old(queue) + [Entry(word, tlast)] else old(queue)
      ensures accepted == if ok then old(accepted) + [Entry(word, tlast)] else old(accepted)
      ensures delivered == old(delivered)
    {
      if IsFull() {
        return false;
      }
      data := data + [word];
      writeCount := writeCount + 1;
      if tlast {
        tlastPositions := tlastPositions + [|data| - 1];
      }
      assert (queue + [Entry(word, tlast)])[..|queue|] == queue;
      queue := queue + [Entry(word, tlast)];
      accepted := accepted + [Entry(word, tlast)];
      ok := true;
    }

    // Words leave from the front, in the order they came.
    method Read() returns (empty: bool, word: int)
      requires Valid()
      modifies this
      ensures Valid()
      ensures empty <==> old(queue) == []
      ensures empty ==> queue == old(queue) && delivered == old(delivered)
      ensures !empty ==> old(queue) == [old(queue)[0]] + queue && word == old(queue)[0].data
      ensures !empty ==> delivered == old(delivered) + [old(queue)[0]]
      ensures accepted == old(accepted)
    {
      if |data| == 0 {
        return true, 0;
      }
      empty, word := false, data[0];
      data := data[1..];
      tlastPositions := ShiftDown(tlastPositions);
      ShiftDownMarks(queue);
      delivered := delivered + [queue[0]];
      queue := queue[1..];
    }

    method ReadBurst(count: nat) returns (words: seq<int>)
      requires Valid()
      modifies this
      ensures Valid() && accepted == old(accepted)
      ensures |words| == if count <= old(|queue|) then count else old(|queue|)
      ensures queue == old(queue)[|words|..]
      ensures words == Words(old(queue)[..|words|])
    {
      words := [];
      var n := if count <= |data| then count else |data|;
      for i := 0 to n
        invariant Valid() && accepted == old(accepted)
        invariant |words| == i && n <= old(|queue|)
        invariant queue == old(queue)[i..]
        invariant words == Words(old(queue)[..i])
      {
        var empty, word := Read();
        if !empty {
          words := words + [word];
        }
      }
    }

    // A complete packet is queued exactly when some queued word carries a mark.
    method HasCompletePacket() returns (r: bool)
      requires Valid()
      ensures r <==> exists i :: 0 <= i < |queue| && queue[i].last
    {
      MarkedPositionsExact(queue);
      r := |tlastPositions| > 0;
      if r {
        assert tlastPositions[0] in tlastPositions;
      }
    }
  }
}

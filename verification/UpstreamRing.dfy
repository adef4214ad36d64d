/** The upstream ring as an object (internal/client/upstream_ring.go): wrapping 64-bit counters, masked
    slot choice, packets updated in place. Each method is one turn of the corresponding operation, taken
    to run undisturbed; seen that way the ring is a queue that remembers everything put into it. The
    interleaving of the operations' single loads and stores is module RingMachine's subject. */
module UpstreamRings {
  import opened Bytes
  import opened Division
  import opened RingWords

  class UpstreamPacket {
    const size: nat            // length of the packet's buffer
    var data: seq<Byte>        // the part of it in use

    constructor (size: nat)
      ensures this.size == size && data == []
    {
      this.size := size;
      data := [];
    }
  }

  datatype AcquireResult = AcquireClosed | Full | Acquired(packet: UpstreamPacket)
  datatype PopResult = PopClosed | Empty | Popped(packet: UpstreamPacket)
  datatype SendResult = Sent | RingClosed | RingFull | TooLarge

  class UpstreamRing {
    const slots: seq<UpstreamPacket>
    const mask: nat
    const capacity: nat
    var tail: U64
    var freeHead: U64
    var closed: bool
    var readHead: U64

    ghost var history: seq<seq<Byte>>   // everything ever submitted
    ghost var readCount: nat            // how much of it has been popped
    ghost var freeCount: nat            // how much of it has been released

    ghost predicate Valid()
      reads this, slots
    {
      && |slots| == capacity && IsPowerOfTwo(capacity) && capacity == mask + 1
      && (forall i, j :: 0 <= i < j < |slots| ==> slots[i] != slots[j])
      && freeCount <= readCount <= |history| <= freeCount + capacity
      && tail == |history| % WORD && readHead == readCount % WORD && freeHead == freeCount % WORD
      && (forall i :: freeCount <= i < |history| ==> slots[i % capacity].data == history[i])
    }

    /** The packet at a position of the history. */
    ghost function At(i: nat): UpstreamPacket
      requires |slots| == capacity > 0
    {
      slots[i % capacity]
    }

    /** What an open ring's history becomes when packets are offered to it one after another and nothing is
        released meanwhile: a packet is taken while there is a slot for it that it fits. */
    ghost function Accepted(history: seq<seq<Byte>>, free: nat, packets: seq<seq<Byte>>): seq<seq<Byte>>
      requires |slots| == capacity > 0
    {
      if |packets| == 0 then history else
      var before := Accepted(history, free, packets[..|packets| - 1]);
      var last := packets[|packets| - 1];
      if |before| < free + capacity && |last| <= At(|before|).size then before + [last] else before
    }

    lemma SlotsThere()
      requires Valid()
      ensures |slots| == capacity > 0 && |history| <= freeCount + capacity
    {
    }

    lemma NothingAccepted(history: seq<seq<Byte>>, free: nat)
      requires |slots| == capacity > 0
      ensures Accepted(history, free, []) == history
    {
    }

    constructor (capacity: int, packetSize: nat)
      requires capacity <= 0x4000_0000_0000_0000
      ensures Valid() && fresh(slots) && !closed
      ensures history == [] && readCount == 0 && freeCount == 0
      ensures capacity <= this.capacity && IsPowerOfTwo(this.capacity)
      ensures forall j: nat :: capacity <= Pow2(j) ==> this.capacity <= Pow2(j)
      ensures forall i :: 0 <= i < |slots| ==> slots[i].size == packetSize
    {
      var n := NextPowerOfTwo(if capacity <= 0 then 1 else capacity);
      var made: seq<UpstreamPacket> := [];
      while |made| < n
        invariant |made| <= n && fresh(made)
        invariant forall i :: 0 <= i < |made| ==> made[i].size == packetSize
        invariant forall i, j :: 0 <= i < j < |made| ==> made[i] != made[j]
      {
        var p := new UpstreamPacket(packetSize);
        made := made + [p];
      }
      slots, mask, this.capacity := made, n - 1, n;
      tail, freeHead, readHead, closed := 0, 0, 0, false;
      history, readCount, freeCount := [], 0, 0;
    }

    /** What the three counters say, in true distances. */
    lemma CountersMean()
      requires Valid()
      ensures (tail - freeHead) % WORD == |history| - freeCount
      ensures readHead != tail <==> readCount < |history|
      ensures BitAnd(tail, mask) == |history| % capacity
      ensures BitAnd(readHead, mask) == readCount % capacity
    {
      hide BitAnd;
      var k: nat :| k <= 62 && capacity == Pow2(k);
      Pow2Monotone(k, 62);
      Pow2Of62();
      DistanceOfWrapped(|history|, freeCount);
      EqualWhenWrapped(readCount, |history|);
      SlotOfWrapped(|history|, k);
      SlotOfWrapped(readCount, k);
    }

    /** acquire, one turn: closed, no free slot yet, or the slot behind tail with its data emptied. */
    method Acquire() returns (r: AcquireResult)
      requires Valid()
      modifies slots
      ensures Valid()
      ensures r.AcquireClosed? <==> closed
      ensures r.Full? <==> !closed && |history| == freeCount + capacity
      ensures r.Acquired? ==> r.packet == At(|history|) && r.packet.data == []
    {
      hide BitAnd;
      if closed {
        return AcquireClosed;
      }
      CountersMean();
      if (tail - freeHead) % WORD < capacity {
        var p := slots[BitAnd(tail, mask)];
        FreeSlot(|history|);
        p.data := [];
        return Acquired(p);
      }
      return Full;
    }

    /** The slot behind tail is none of those in use. */
    lemma FreeSlot(n: nat)
      requires Valid() && n == |history| < freeCount + capacity
      ensures forall i :: freeCount <= i < n ==> slots[i % capacity] != slots[n % capacity]
    {
      forall i: nat | freeCount <= i < n ensures slots[i % capacity] != slots[n % capacity] {
        RemaindersDiffer(i, n, capacity);
      }
    }

    /** submit: makes the acquired packet visible to the consumer unless the ring has been closed. */
    method Submit(p: UpstreamPacket) returns (ok: bool)
      requires Valid() && |history| < freeCount + capacity && p == At(|history|)
      modifies this
      ensures Valid() && ok == !closed && closed == old(closed)
      ensures history == if ok then old(history) + [p.data] else old(history)
      ensures readCount == old(readCount) && freeCount == old(freeCount)
    {
      if closed {
        return false;
      }
      IncrementWrapped(|history|);
      tail := (tail + 1) % WORD;
      history := history + [p.data];
      return true;
    }

    /** discard: the acquired packet goes back unused. */
    method Discard(p: UpstreamPacket)
      requires Valid() && |history| < freeCount + capacity && p == At(|history|)
      modifies p
      ensures Valid() && p.data == []
    {
      FreeSlot(|history|);
      p.data := [];
    }

    /** tryPop. */
    method TryPop() returns (r: PopResult)
      requires Valid()
      modifies this
      ensures Valid() && history == old(history) && freeCount == old(freeCount) && closed == old(closed)
      ensures !r.PopClosed? && (r.Popped? <==> old(readCount) < |history|)
      ensures readCount == old(readCount) + if r.Popped? then 1 else 0
      ensures r.Popped? ==> r.packet == At(old(readCount)) && r.packet.data == history[old(readCount)]
    {
      hide BitAnd;
      CountersMean();
      if readHead == tail {
        return Empty;
      }
      var p := slots[BitAnd(readHead, mask)];
      IncrementWrapped(readCount);
      readHead := (readHead + 1) % WORD;
      readCount := readCount + 1;
      return Popped(p);
    }

    /** pop, one turn: a packet if there is one, otherwise closed or wait on. */
    method Pop() returns (r: PopResult)
      requires Valid()
      modifies this
      ensures Valid() && history == old(history) && freeCount == old(freeCount) && closed == old(closed)
      ensures r.Popped? <==> old(readCount) < |history|
      ensures r.PopClosed? <==> old(readCount) == |history| && closed
      ensures readCount == old(readCount) + if r.Popped? then 1 else 0
      ensures r.Popped? ==> r.packet == At(old(readCount)) && r.packet.data == history[old(readCount)]
    {
      r := TryPop();
      if r.Empty? && closed {
        r := PopClosed;
      }
    }

    /** release: gives the oldest popped packet back to the producer. */
    method Release(p: UpstreamPacket)
      requires Valid() && freeCount < readCount && p == At(freeCount)
      modifies this, p
      ensures Valid() && history == old(history) && readCount == old(readCount) && closed == old(closed)
      ensures freeCount == old(freeCount) + 1 && p.data == []
      ensures forall i :: freeCount <= i < |history| ==> At(i).data == old(At(i).data)
    {
      forall i: nat | freeCount < i < |history| ensures slots[i % capacity] != p {
        RemaindersDiffer(freeCount, i, capacity);
      }
      p.data := [];
      IncrementWrapped(freeCount);
      freeHead := (freeHead + 1) % WORD;
      freeCount := freeCount + 1;
    }

    method Close()
      requires Valid()
      modifies this
      ensures Valid() && closed
      ensures history == old(history) && readCount == old(readCount) && freeCount == old(freeCount)
    {
      closed := true;
    }

    /** inflight: packets submitted and not yet released; its cap at the capacity never takes effect. */
    method Inflight() returns (n: nat)
      requires Valid()
      ensures n == |history| - freeCount
    {
      CountersMean();
      n := (tail - freeHead) % WORD;
      if n > capacity {
        n := capacity;
      }
    }

    /** The part of sendToUpstream that deals with the ring, one turn: the packet is queued, or, when
        the ring is closed or full or the packet larger than a slot, it is not. */
    method Send(packet: seq<Byte>) returns (r: SendResult)
      requires Valid()
      modifies this, slots
      ensures Valid() && closed == old(closed)
      ensures readCount == old(readCount) && freeCount == old(freeCount)
      ensures r.RingClosed? <==> closed
      ensures r.RingFull? <==> !closed && old(|history|) == freeCount + capacity
      ensures r.Sent? ==> |packet| <= At(old(|history|)).size
      ensures r.TooLarge? ==> |packet| > At(old(|history|)).size
      ensures history == if r.Sent? then old(history) + [packet] else old(history)
    {
      var a := Acquire();
      match a {
        case AcquireClosed => return RingClosed;
        case Full => return RingFull;
        case Acquired(p) =>
          if |packet| > p.size {
            Discard(p);
            return TooLarge;
          }
          FreeSlot(|history|);
          p.data := packet;
          var ok := Submit(p);
          return Sent;
      }
    }
  }

  lemma AcceptedOne(ring: UpstreamRing, history: seq<seq<Byte>>, free: nat, packets: seq<seq<Byte>>, i: nat)
    requires |ring.slots| == ring.capacity > 0 && i < |packets|
    ensures var before := ring.Accepted(history, free, packets[..i]);
            ring.Accepted(history, free, packets[..i + 1])
            == if |before| < free + ring.capacity && |packets[i]| <= ring.At(|before|).size then before + [packets[i]] else before
  {
    assert packets[..i + 1][..i] == packets[..i];
  }

  /** Producers trying one packet after another. */
  method SendAll(ring: UpstreamRing, packets: seq<seq<Byte>>)
    requires ring.Valid()
    modifies ring, ring.slots
    ensures ring.Valid() && old(ring.history) <= ring.history && ring.closed == old(ring.closed)
    ensures ring.history ==
              if ring.closed then old(ring.history)
              else ring.Accepted(old(ring.history), ring.freeCount, packets)
    ensures ring.readCount == old(ring.readCount) && ring.freeCount == old(ring.freeCount)
  {
    hide UpstreamRing.Valid, UpstreamRing.Accepted, UpstreamRing.At;
    ring.SlotsThere();
    ring.NothingAccepted(ring.history, ring.freeCount);
    assert packets[..0] == [];
    var i := 0;
    while i < |packets|
      invariant 0 <= i <= |packets|
      invariant ring.Valid() && old(ring.history) <= ring.history && ring.closed == old(ring.closed)
      invariant ring.history ==
                  if ring.closed then old(ring.history)
                  else ring.Accepted(old(ring.history), ring.freeCount, packets[..i])
      invariant ring.readCount == old(ring.readCount) && ring.freeCount == old(ring.freeCount)
      modifies ring, ring.slots
    {
      AcceptedOne(ring, old(ring.history), ring.freeCount, packets, i);
      ring.SlotsThere();
      var _ := ring.Send(packets[i]);
      i := i + 1;
    }
    assert packets[..|packets|] == packets;
  }

  /** Everything submitted before the close comes out after it, in order; the ring's users need no more
      than that close happens between two operations. */
  method DrainAfterClose(ring: UpstreamRing) returns (packets: seq<seq<Byte>>)
    requires ring.Valid()
    modifies ring, ring.slots
    ensures ring.Valid() && ring.closed && ring.history == old(ring.history)
    ensures packets == old(ring.history[ring.readCount..])
    ensures ring.readCount == |ring.history|
  {
    ring.Close();
    packets := [];
    var r := ring.Pop();
    while r.Popped?
      invariant ring.Valid() && ring.closed && ring.history == old(ring.history)
      invariant old(ring.readCount) + |packets| + (if r.Popped? then 1 else 0) == ring.readCount
      invariant packets == ring.history[old(ring.readCount)..old(ring.readCount) + |packets|]
      invariant r.Popped? ==> r.packet.data == ring.history[ring.readCount - 1]
      invariant !r.Popped? ==> ring.readCount == |ring.history|
      decreases |ring.history| - ring.readCount, r.Popped?
      modifies ring
    {
      packets := packets + [r.packet.data];
      r := ring.Pop();
    }
  }
}

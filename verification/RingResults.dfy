/** What the ring's invariant gives its users, in every interleaving of one producer, one consumer and
    a closer: exclusive slots, first in first out byte for byte, bounded batches, and what closing
    may and may not lose. */
module RingResults {
  import opened Bytes
  import opened RingMachine
  import opened RingSafety

  /** A state some interleaving leads to. */
  ghost predicate Reaches(l: Limits, capacity: nat, packetSize: nat, actions: seq<Action>) {
    capacity > 0 && Run(Unbounded, l, Initial(capacity, packetSize), actions).Some?
  }

  function After(l: Limits, capacity: nat, packetSize: nat, actions: seq<Action>): State
    requires Reaches(l, capacity, packetSize, actions)
  {
    Run(Unbounded, l, Initial(capacity, packetSize), actions).value
  }

  lemma ReachableInv(l: Limits, capacity: nat, packetSize: nat, actions: seq<Action>)
    requires Reaches(l, capacity, packetSize, actions)
    ensures Inv(l, After(l, capacity, packetSize, actions))
  {
    InitialInv(l, capacity, packetSize);
    RunKeepsInv(l, Initial(capacity, packetSize), actions);
  }

  /** The counters never cross: freeHead <= readHead <= tail <= freeHead + capacity. */
  lemma CountersInOrder(l: Limits, capacity: nat, packetSize: nat, actions: seq<Action>)
    requires Reaches(l, capacity, packetSize, actions)
    ensures var s := After(l, capacity, packetSize, actions);
            s.freeHead <= s.readHead <= s.tail <= s.freeHead + s.Capacity()
  {
    ReachableInv(l, capacity, packetSize, actions);
  }

  predicate HoldsSlot(p: Producer) {
    p.Acquired? || p.CheckSize? || p.Fill? || p.Submit? || p.Bump? || p.Discard?
  }

  /** From acquire to submit the producer's slot is none the consumer may still read: it is neither
      waiting between readHead and tail nor an unreleased member of the batch. */
  lemma SlotExclusive(l: Limits, capacity: nat, packetSize: nat, actions: seq<Action>)
    requires Reaches(l, capacity, packetSize, actions)
    requires HoldsSlot(After(l, capacity, packetSize, actions).producer)
    ensures var s := After(l, capacity, packetSize, actions);
            && s.Capacity() > 0
            && (forall i: nat :: s.readHead <= i < s.tail ==> i % s.Capacity() != s.producer.slot)
            && (forall j :: Released(s.consumer) <= j < |s.batch| ==> s.batch[j] != s.producer.slot)
  {
    ReachableInv(l, capacity, packetSize, actions);
    ExclusiveByInv(After(l, capacity, packetSize, actions));
  }

  lemma ExclusiveByInv(s: State)
    requires Counters(s) && ProducerInv(s) && HoldsSlot(s.producer)
    ensures forall i: nat :: s.readHead <= i < s.tail ==> i % s.Capacity() != s.producer.slot
    ensures forall j :: Released(s.consumer) <= j < |s.batch| ==> s.batch[j] != s.producer.slot
  {
    OwnedApart(s, s.producer.slot);
    forall j | Released(s.consumer) <= j < |s.batch| ensures s.batch[j] != s.producer.slot {
      var i: nat := s.readHead - |s.batch| + j;
      assert s.freeHead <= i < s.tail && s.batch[j] == i % s.Capacity();
    }
  }

  /** At every moment every packet that is waiting, or batched and not yet given back, is byte for
      byte what was submitted, so writeUpstreamBatch finds the right bytes however long it takes. */
  lemma BytesStable(l: Limits, capacity: nat, packetSize: nat, actions: seq<Action>, i: nat)
    requires Reaches(l, capacity, packetSize, actions)
    requires var s := After(l, capacity, packetSize, actions); Low(s) <= i < s.tail
    ensures var s := After(l, capacity, packetSize, actions);
            && |s.submitted| == s.tail && s.Capacity() > 0
            && s.slots[i % s.Capacity()].Fits() && s.slots[i % s.Capacity()].Data() == s.submitted[i]
  {
    ReachableInv(l, capacity, packetSize, actions);
  }

  /** First in, first out: what has been handed to writeUpstreamBatch is a prefix of what was submitted. */
  lemma WrittenIsPrefix(l: Limits, capacity: nat, packetSize: nat, actions: seq<Action>)
    requires Reaches(l, capacity, packetSize, actions)
    ensures var s := After(l, capacity, packetSize, actions);
            s.written <= s.submitted && (s.batch == [] ==> |s.written| == s.readHead == s.freeHead)
  {
    ReachableInv(l, capacity, packetSize, actions);
  }

  /** Every batch holds at most max(1, maxPackets) packets, and without its last packet it stays below
      maxBytes; between flushes every popped slot has been given back. */
  lemma BatchesBounded(l: Limits, capacity: nat, packetSize: nat, actions: seq<Action>)
    requires Reaches(l, capacity, packetSize, actions)
    ensures var s := After(l, capacity, packetSize, actions);
            && |s.batch| <= (if l.maxPackets > 1 then l.maxPackets else 1)
            && 0 <= Base(s) <= s.readHead <= |s.submitted|
            && s.batchBytes == TotalSize(s.submitted[Base(s)..s.readHead])
            && (|s.batch| > 1 ==> TotalSize(s.submitted[Base(s)..s.readHead - 1]) < l.maxBytes)
            && (s.consumer.Pop? ==> s.batch == [] && s.freeHead == s.readHead)
  {
    ReachableInv(l, capacity, packetSize, actions);
  }

  // Closing.

  /** Closed, nobody between the closed test and the increment of tail, and the consumer has no stale
      view of an empty ring. */
  ghost predicate Quiet(s: State) {
    && s.closed && !s.producer.Bump?
    && (s.consumer.PopClosed? || s.consumer == Exited(false) ==> s.readHead == s.tail)
  }

  lemma ApplyKeepsQuiet(l: Limits, s: State, a: Action)
    requires Quiet(s) && Apply(Unbounded, l, s, a).Some?
    ensures Quiet(Apply(Unbounded, l, s, a).value)
  {
    hide StepProducer, StepConsumer;
    if a.ProducerStep? {
      ProducerLeaves(s);
      NoBumpWhenClosed(s);
    } else if a.ConsumerStep? {
      QuietConsumer(l, s, a.cancel);
    }
  }

  lemma NoBumpWhenClosed(s: State)
    requires s.closed && !s.producer.Bump? && StepProducer(Unbounded, s).Some?
    ensures !StepProducer(Unbounded, s).value.producer.Bump?
  {
  }

  lemma QuietConsumer(l: Limits, s: State, cancel: bool)
    requires Quiet(s) && StepConsumer(Unbounded, l, s, cancel).Some?
    ensures Quiet(StepConsumer(Unbounded, l, s, cancel).value)
  {
  }

  lemma {:induction false} RunKeepsQuiet(l: Limits, s: State, actions: seq<Action>)
    requires Quiet(s) && Run(Unbounded, l, s, actions).Some?
    ensures Quiet(Run(Unbounded, l, s, actions).value)
  {
    hide Quiet, Apply;
    if |actions| > 0 {
      RunKeepsQuiet(l, s, actions[..|actions| - 1]);
      ApplyKeepsQuiet(l, Run(Unbounded, l, s, actions[..|actions| - 1]).value, actions[|actions| - 1]);
    }
  }

  /** Once the ring is closed with no submit half done, a consumer that ends because of it has handed
      over every submitted packet. */
  lemma DrainedAfterClose(l: Limits, capacity: nat, packetSize: nat, before: seq<Action>, rest: seq<Action>)
    requires Reaches(l, capacity, packetSize, before) && Quiet(After(l, capacity, packetSize, before))
    requires Run(Unbounded, l, After(l, capacity, packetSize, before), rest).Some?
    ensures var end := Run(Unbounded, l, After(l, capacity, packetSize, before), rest).value;
            end.consumer == Exited(false) ==> end.written == end.submitted
  {
    ReachableInv(l, capacity, packetSize, before);
    RunKeepsQuiet(l, After(l, capacity, packetSize, before), rest);
    RunKeepsInv(l, After(l, capacity, packetSize, before), rest);
  }
}

/** What every interleaving of the ring keeps. */
module RingSafety {
  import opened Bytes
  import opened Division
  import opened RingMachine

  /** How many packets of the batch have been given back to the producer. */
  function Released(c: Consumer): nat {
    match c
    case Releasing(k, _) => k
    case Bumping(k, _) => k
    case _ => 0
  }

  /** The first counter of the batch. */
  function Base(s: State): int {
    s.readHead - |s.batch|
  }

  ghost predicate Counters(s: State) {
    && s.Capacity() > 0
    && s.freeHead <= s.readHead <= s.tail <= s.freeHead + s.Capacity()
    && |s.submitted| == s.tail
    && Released(s.consumer) <= |s.batch|
    && (s.consumer.Bumping? ==> s.consumer.k < |s.batch|)
    && (s.consumer.Writing? ==> s.consumer.k <= |s.batch|)
    && s.freeHead == Base(s) + Released(s.consumer)
    && (s.consumer.Pop? || s.consumer.PopClosed? || s.consumer.Exited? ==> s.batch == [])
    && (forall j :: 0 <= j < |s.batch| ==> s.batch[j] == (Base(s) + j) % s.Capacity())
  }

  /** From here up to tail the slots still hold what was submitted. */
  function Low(s: State): int {
    if s.consumer.Bumping? then s.freeHead + 1 else s.freeHead
  }

  ghost predicate Contents(s: State)
    requires s.Capacity() > 0
  {
    && (forall i :: 0 <= i < |s.slots| ==> s.slots[i].Fits())
    && (forall i :: Low(s) <= i < s.tail && 0 <= i < |s.submitted| ==>
          s.slots[i % s.Capacity()].Data() == s.submitted[i])
  }

  ghost predicate ProducerInv(s: State)
    requires s.Capacity() > 0
  {
    match s.producer
    case LoadFree(_, tail) => tail == s.tail
    case Acquired(_, slot) => Owns(s, slot)
    case CheckSize(_, slot) => Owns(s, slot)
    case Fill(packet, slot, done) =>
      && Owns(s, slot) && done <= |packet| <= |s.slots[slot].buf|
      && s.slots[slot].buf[..done] == packet[..done]
    case Submit(packet, slot) => Owns(s, slot) && s.slots[slot].Fits() && s.slots[slot].Data() == packet
    case Bump(packet, slot) => Owns(s, slot) && s.slots[slot].Fits() && s.slots[slot].Data() == packet
    case Discard(slot) => Owns(s, slot)
    case _ => true
  }

  /** The producer holds the slot behind tail, and there is room for it. */
  ghost predicate Owns(s: State, slot: nat)
    requires s.Capacity() > 0
  {
    slot == s.tail % s.Capacity() && s.tail < s.freeHead + s.Capacity()
  }

  /** How much of what was submitted has been handed to writeUpstreamBatch. */
  function WrittenCount(s: State): int {
    match s.consumer
    case Writing(k, _) => Base(s) + k
    case Releasing(_, _) => s.readHead
    case Bumping(_, _) => s.readHead
    case _ => Base(s)
  }

  ghost predicate WrittenInv(s: State) {
    0 <= WrittenCount(s) <= |s.submitted| && s.written == s.submitted[..WrittenCount(s)]
  }

  /** The batch respects both limits: beyond one packet the count is within the limit and the bytes
      before the last packet are below the other. */
  ghost predicate BatchInv(l: Limits, s: State) {
    && 0 <= Base(s) <= s.readHead <= |s.submitted|
    && s.batchBytes == TotalSize(s.submitted[Base(s)..s.readHead])
    && (|s.batch| > 1 ==> |s.batch| <= l.maxPackets && TotalSize(s.submitted[Base(s)..s.readHead - 1]) < l.maxBytes)
    && (s.consumer.Delay? || s.consumer.More? || s.consumer.Writing? ==> |s.batch| >= 1)
  }

  ghost predicate Inv(l: Limits, s: State) {
    Counters(s) && Contents(s) && ProducerInv(s) && WrittenInv(s) && BatchInv(l, s)
  }

  lemma InitialInv(l: Limits, capacity: nat, packetSize: nat)
    requires capacity > 0
    ensures Inv(l, Initial(capacity, packetSize))
  {
  }

  /** The slot the producer owns is none of those between freeHead and tail. */
  lemma OwnedApart(s: State, slot: nat)
    requires Counters(s) && Owns(s, slot)
    ensures forall i: nat :: s.freeHead <= i < s.tail ==> i % s.Capacity() != slot
  {
    forall i: nat | s.freeHead <= i < s.tail ensures i % s.Capacity() != slot {
      RemaindersDiffer(i, s.tail, s.Capacity());
    }
  }

  /** A producer step leaves the consumer's things alone and only extends what was submitted. */
  lemma ProducerLeaves(s: State)
    requires StepProducer(Unbounded, s).Some?
    ensures var t := StepProducer(Unbounded, s).value;
            && t.consumer == s.consumer && t.batch == s.batch && t.batchBytes == s.batchBytes
            && t.readHead == s.readHead && t.freeHead == s.freeHead && t.written == s.written
            && t.closed == s.closed && |t.slots| == |s.slots|
            && (if s.producer.Bump? then t.tail == s.tail + 1 && t.submitted == s.submitted + [s.producer.packet]
                else t.tail == s.tail && t.submitted == s.submitted)
  {
  }

  lemma ProducerKeepsCounters(s: State)
    requires Counters(s) && ProducerInv(s) && StepProducer(Unbounded, s).Some?
    ensures Counters(StepProducer(Unbounded, s).value)
  {
    hide StepProducer;
    ProducerLeaves(s);
  }

  /** Changing a slot that holds nothing waiting. */
  lemma OtherSlotContents(s: State, t: State, slot: nat)
    requires s.Capacity() > 0 && Contents(s) && slot < |s.slots| && |t.slots| == |s.slots|
    requires t.slots == s.slots[slot := t.slots[slot]] && t.slots[slot].Fits()
    requires t.submitted == s.submitted && t.tail == s.tail && Low(t) >= Low(s) >= 0
    requires forall i: nat :: Low(t) <= i < s.tail ==> i % s.Capacity() != slot
    ensures Contents(t)
  {
  }

  lemma ProducerKeepsContents(s: State)
    requires Counters(s) && Contents(s) && ProducerInv(s) && StepProducer(Unbounded, s).Some?
    ensures StepProducer(Unbounded, s).value.Capacity() > 0 && Contents(StepProducer(Unbounded, s).value)
  {
    hide Contents, Counters;
    var t := StepProducer(Unbounded, s).value;
    ContentsFacts(s);
    if s.producer.Acquired? || s.producer.Fill? || s.producer.Discard? {
      OwnedApart(s, s.producer.slot);
      OtherSlotContents(s, t, s.producer.slot);
    } else if s.producer.Bump? {
      BumpContents(s, t);
    } else {
      SameContents(s, t);
    }
  }

  lemma ContentsFacts(s: State)
    requires Counters(s) && Contents(s)
    ensures s.Capacity() > 0 && 0 <= s.freeHead <= Low(s) <= s.tail && |s.submitted| == s.tail
    ensures forall i :: 0 <= i < |s.slots| ==> s.slots[i].Fits()
  {
  }

  lemma SameContents(s: State, t: State)
    requires s.Capacity() > 0 && Contents(s)
    requires t.slots == s.slots && t.submitted == s.submitted && t.tail == s.tail && Low(t) >= Low(s)
    ensures Contents(t)
  {
  }

  lemma BumpContents(s: State, t: State)
    requires s.Capacity() > 0 && Contents(s) && ProducerInv(s) && s.producer.Bump? && |s.submitted| == s.tail
    requires t.slots == s.slots && t.submitted == s.submitted + [s.producer.packet]
    requires t.tail == s.tail + 1 && Low(t) == Low(s)
    ensures Contents(t)
  {
  }

  lemma ProducerKeepsProducer(s: State)
    requires Counters(s) && Contents(s) && ProducerInv(s) && StepProducer(Unbounded, s).Some?
    ensures StepProducer(Unbounded, s).value.Capacity() > 0 && ProducerInv(StepProducer(Unbounded, s).value)
  {
  }

  lemma SlicesKept<T>(a: seq<T>, b: seq<T>, lo: int, hi: int)
    requires a <= b && 0 <= lo <= hi <= |a|
    ensures b[lo..hi] == a[lo..hi]
  {
  }

  lemma ProducerKeepsConsumer(l: Limits, s: State)
    requires Counters(s) && WrittenInv(s) && BatchInv(l, s) && StepProducer(Unbounded, s).Some?
    ensures WrittenInv(StepProducer(Unbounded, s).value) && BatchInv(l, StepProducer(Unbounded, s).value)
  {
    hide StepProducer;
    ProducerLeaves(s);
    var t := StepProducer(Unbounded, s).value;
    SlicesKept(s.submitted, t.submitted, 0, WrittenCount(s));
    SlicesKept(s.submitted, t.submitted, Base(s), s.readHead);
    if |s.batch| > 1 {
      SlicesKept(s.submitted, t.submitted, Base(s), s.readHead - 1);
    }
  }

  lemma ProducerKeepsInv(l: Limits, s: State)
    requires Inv(l, s) && StepProducer(Unbounded, s).Some?
    ensures Inv(l, StepProducer(Unbounded, s).value)
  {
    hide StepProducer, Counters, Contents, ProducerInv, WrittenInv, BatchInv;
    ProducerKeepsCounters(s);
    ProducerKeepsContents(s);
    ProducerKeepsProducer(s);
    ProducerKeepsConsumer(l, s);
  }

  // Consumer steps.

  predicate Takes(l: Limits, s: State) {
    s.readHead != s.tail && (s.consumer.Pop? || (s.consumer.More? && RoomInBatch(l, s)))
  }

  /** A step that takes a packet into the batch. */
  lemma TakeStep(l: Limits, s: State, cancel: bool)
    requires Counters(s) && Contents(s) && Takes(l, s)
    ensures var next := if s.consumer.Pop? then Delay else More;
            StepConsumer(Unbounded, l, s, cancel)
            == Some(s.(readHead := s.readHead + 1, batch := s.batch + [s.readHead % s.Capacity()],
                       batchBytes := s.batchBytes + |s.submitted[s.readHead]|, consumer := next))
  {
    assert s.slots[s.readHead % s.Capacity()].Data() == s.submitted[s.readHead];
  }

  /** A step that does not: tail, readHead and what was submitted stay, and the batch stays or, at the
      end of a flush, becomes empty. */
  lemma OtherStep(l: Limits, s: State, cancel: bool)
    requires !Takes(l, s) && StepConsumer(Unbounded, l, s, cancel).Some?
    ensures var t := StepConsumer(Unbounded, l, s, cancel).value;
            && t.submitted == s.submitted && t.tail == s.tail && t.readHead == s.readHead
            && |t.slots| == |s.slots| && t.closed == s.closed && t.producer == s.producer
            && (if s.consumer.Releasing? && s.consumer.k >= |s.batch|
                then t.batch == [] && t.batchBytes == 0 && (t.consumer.Pop? || t.consumer.Exited?)
                else t.batch == s.batch && t.batchBytes == s.batchBytes)
            && t.freeHead == s.freeHead + (if s.consumer.Bumping? then 1 else 0)
  {
  }

  lemma TakeKeepsCounters(s: State, t: State)
    requires Counters(s) && s.readHead != s.tail && (s.consumer.Pop? || s.consumer.More?)
    requires t.consumer.Delay? || t.consumer.More?
    requires t == s.(readHead := s.readHead + 1, batch := s.batch + [s.readHead % s.Capacity()],
                     batchBytes := t.batchBytes, consumer := t.consumer)
    ensures Counters(t)
  {
  }

  /** Where the consumer goes when it does not take a packet. */
  lemma WhereNext(l: Limits, s: State, cancel: bool)
    requires !Takes(l, s) && StepConsumer(Unbounded, l, s, cancel).Some?
    ensures var c, d, n := s.consumer, StepConsumer(Unbounded, l, s, cancel).value.consumer, |s.batch|;
            match c
            case Pop => d.PopClosed?
            case PopClosed => d.Pop? || d.Exited?
            case Delay => d.More? || (d.Writing? && d.k == 0)
            case More => d.Writing? && d.k == 0
            case Writing(k, _) => if k < n then d.Writing? && d.k == k + 1 else d.Releasing? && d.k == 0
            case Releasing(k, _) => if k < n then d.Bumping? && d.k == k else d.Pop? || d.Exited?
            case Bumping(k, _) => d.Releasing? && d.k == k + 1
            case Exited(_) => false
  {
  }

  lemma OtherKeepsCounters(l: Limits, s: State, cancel: bool)
    requires Counters(s) && !Takes(l, s) && StepConsumer(Unbounded, l, s, cancel).Some?
    requires s.consumer.More? || s.consumer.Delay? ==> s.batch != []
    ensures Counters(StepConsumer(Unbounded, l, s, cancel).value)
  {
    hide StepConsumer;
    OtherStep(l, s, cancel);
    WhereNext(l, s, cancel);
  }

  lemma ConsumerKeepsCounters(l: Limits, s: State, cancel: bool)
    requires Counters(s) && Contents(s) && BatchInv(l, s) && StepConsumer(Unbounded, l, s, cancel).Some?
    ensures Counters(StepConsumer(Unbounded, l, s, cancel).value)
  {
    hide StepConsumer, Counters, Contents;
    if Takes(l, s) {
      TakeStep(l, s, cancel);
      TakeKeepsCounters(s, StepConsumer(Unbounded, l, s, cancel).value);
    } else {
      OtherKeepsCounters(l, s, cancel);
    }
  }

  lemma ConsumerKeepsContents(l: Limits, s: State, cancel: bool)
    requires Counters(s) && Contents(s) && StepConsumer(Unbounded, l, s, cancel).Some?
    ensures StepConsumer(Unbounded, l, s, cancel).value.Capacity() > 0
    ensures Contents(StepConsumer(Unbounded, l, s, cancel).value)
  {
    var t := StepConsumer(Unbounded, l, s, cancel).value;
    if s.consumer.Releasing? && s.consumer.k < |s.batch| {
      FreedApart(s);
      OtherSlotContents(s, t, s.batch[s.consumer.k]);
    } else {
      SameContents(s, t);
    }
  }

  /** The slot being released is none of the later ones. */
  lemma FreedApart(s: State)
    requires Counters(s)
    ensures forall i: nat :: s.freeHead < i < s.tail ==> i % s.Capacity() != s.freeHead % s.Capacity()
  {
    forall i: nat | s.freeHead < i < s.tail ensures i % s.Capacity() != s.freeHead % s.Capacity() {
      RemaindersDiffer(s.freeHead, i, s.Capacity());
    }
  }

  /** Only a release writes a slot. */
  lemma ConsumerSlots(l: Limits, s: State, cancel: bool)
    requires Counters(s) && StepConsumer(Unbounded, l, s, cancel).Some?
    ensures var t := StepConsumer(Unbounded, l, s, cancel).value;
            && t.producer == s.producer && t.tail == s.tail && s.freeHead <= t.freeHead
            && (forall i :: 0 <= i < |s.slots| && t.slots[i] != s.slots[i] ==>
                  i == s.freeHead % s.Capacity() && s.freeHead < s.tail)
  {
  }

  lemma ConsumerKeepsProducer(l: Limits, s: State, cancel: bool)
    requires Counters(s) && ProducerInv(s) && StepConsumer(Unbounded, l, s, cancel).Some?
    ensures StepConsumer(Unbounded, l, s, cancel).value.Capacity() > 0
    ensures ProducerInv(StepConsumer(Unbounded, l, s, cancel).value)
  {
    hide StepConsumer;
    ConsumerSlots(l, s, cancel);
    OtherSizes(l, s, cancel);
    if s.freeHead < s.tail < s.freeHead + s.Capacity() {
      RemaindersDiffer(s.freeHead, s.tail, s.Capacity());
    }
  }

  lemma OtherSizes(l: Limits, s: State, cancel: bool)
    requires StepConsumer(Unbounded, l, s, cancel).Some?
    ensures |StepConsumer(Unbounded, l, s, cancel).value.slots| == |s.slots|
  {
  }

  /** A batched packet about to be written is still in its slot. */
  lemma BatchedData(s: State)
    requires Counters(s) && Contents(s) && s.consumer.Writing? && s.consumer.k < |s.batch|
    ensures 0 <= Base(s) && Base(s) + s.consumer.k < |s.submitted|
    ensures s.batch[s.consumer.k] < |s.slots| && s.slots[s.batch[s.consumer.k]].Fits()
    ensures s.slots[s.batch[s.consumer.k]].Data() == s.submitted[Base(s) + s.consumer.k]
  {
  }

  lemma ConsumerKeepsWritten(l: Limits, s: State, cancel: bool)
    requires Counters(s) && Contents(s) && WrittenInv(s) && StepConsumer(Unbounded, l, s, cancel).Some?
    ensures WrittenInv(StepConsumer(Unbounded, l, s, cancel).value)
  {
    hide Contents;
    if s.consumer.Writing? && s.consumer.k < |s.batch| {
      BatchedData(s);
    } else if Takes(l, s) {
      TakeStep(l, s, cancel);
    } else {
      OtherStep(l, s, cancel);
    }
  }

  lemma TakeKeepsBatch(l: Limits, s: State, t: State)
    requires BatchInv(l, s) && s.readHead < |s.submitted|
    requires (s.consumer.Pop? && s.batch == []) || (s.consumer.More? && RoomInBatch(l, s))
    requires t.submitted == s.submitted && t.readHead == s.readHead + 1 && |t.batch| == |s.batch| + 1
    requires t.batchBytes == s.batchBytes + |s.submitted[s.readHead]|
    ensures BatchInv(l, t)
  {
    TotalSizeSnoc(s.submitted, Base(s), s.readHead);
  }

  lemma TotalSizeSnoc(packets: seq<seq<Byte>>, b: nat, r: nat)
    requires b <= r < |packets|
    ensures TotalSize(packets[b..r + 1]) == TotalSize(packets[b..r]) + |packets[r]|
  {
    assert packets[b..r + 1][..r - b] == packets[b..r];
  }

  lemma ConsumerKeepsBatch(l: Limits, s: State, cancel: bool)
    requires Counters(s) && Contents(s) && BatchInv(l, s) && StepConsumer(Unbounded, l, s, cancel).Some?
    ensures BatchInv(l, StepConsumer(Unbounded, l, s, cancel).value)
  {
    hide Contents;
    var t := StepConsumer(Unbounded, l, s, cancel).value;
    if Takes(l, s) {
      TakeStep(l, s, cancel);
      TakeKeepsBatch(l, s, t);
    } else {
      OtherStep(l, s, cancel);
      assert s.submitted[s.readHead..s.readHead] == [];
    }
  }

  lemma ConsumerKeepsInv(l: Limits, s: State, cancel: bool)
    requires Inv(l, s) && StepConsumer(Unbounded, l, s, cancel).Some?
    ensures Inv(l, StepConsumer(Unbounded, l, s, cancel).value)
  {
    hide StepConsumer, Counters, Contents, ProducerInv, WrittenInv, BatchInv;
    ConsumerKeepsCounters(l, s, cancel);
    ConsumerKeepsContents(l, s, cancel);
    ConsumerKeepsProducer(l, s, cancel);
    ConsumerKeepsWritten(l, s, cancel);
    ConsumerKeepsBatch(l, s, cancel);
  }

  /** The counters, slots and batch do not mention the producer's program counter or the closed flag. */
  lemma KeepsCounters(s: State, producer: Producer, closed: bool)
    requires Counters(s)
    ensures Counters(s.(producer := producer, closed := closed))
  {
  }

  lemma KeepsBatch(l: Limits, s: State, producer: Producer, closed: bool)
    requires WrittenInv(s) && BatchInv(l, s)
    ensures WrittenInv(s.(producer := producer, closed := closed)) && BatchInv(l, s.(producer := producer, closed := closed))
  {
  }

  /** A new packet for an idle producer, or Stop: no counter and no slot moves. */
  lemma SendOrCloseKeepsInv(l: Limits, s: State, producer: Producer, closed: bool)
    requires Inv(l, s)
    requires producer == s.producer || producer.LoadClosed?
    ensures Inv(l, s.(producer := producer, closed := closed))
  {
    hide Counters, Contents, WrittenInv, BatchInv;
    KeepsCounters(s, producer, closed);
    KeepsBatch(l, s, producer, closed);
    ContentsFacts(s);
    SameContents(s, s.(producer := producer, closed := closed));
    KeepsProducer(s, producer, closed);
  }

  lemma KeepsProducer(s: State, producer: Producer, closed: bool)
    requires s.Capacity() > 0 && ProducerInv(s)
    requires producer == s.producer || producer.LoadClosed?
    ensures ProducerInv(s.(producer := producer, closed := closed))
  {
  }

  lemma ApplyKeepsInv(l: Limits, s: State, a: Action)
    requires Inv(l, s) && Apply(Unbounded, l, s, a).Some?
    ensures Inv(l, Apply(Unbounded, l, s, a).value)
  {
    hide Inv, StepProducer, StepConsumer;
    match a
    case Send(packet) => SendOrCloseKeepsInv(l, s, LoadClosed(packet), s.closed);
    case Close => SendOrCloseKeepsInv(l, s, s.producer, true);
    case ProducerStep => ProducerKeepsInv(l, s);
    case ConsumerStep(cancel) => ConsumerKeepsInv(l, s, cancel);
  }

  /** Every state of every interleaving satisfies the invariant. */
  lemma {:induction false} RunKeepsInv(l: Limits, s: State, actions: seq<Action>)
    requires Inv(l, s) && Run(Unbounded, l, s, actions).Some?
    ensures Inv(l, Run(Unbounded, l, s, actions).value)
  {
    hide Apply, Inv;
    if |actions| > 0 {
      RunKeepsInv(l, s, actions[..|actions| - 1]);
      ApplyKeepsInv(l, Run(Unbounded, l, s, actions[..|actions| - 1]).value, actions[|actions| - 1]);
    }
  }
}

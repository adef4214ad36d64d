/** The ring gets things done: an open ring is emptied, a packet that fits goes in, a writer whose timer is cut short
    ends after the packets it has, and no batch is flushed before it has to be. */
module RingProgress {
  import opened Bytes
  import opened RingMachine
  import opened RingSafety
  import opened RingResults
  import opened RingClosing

  // The consumer.

  /** The consumer is neither ending nor ended. */
  predicate AtWork(c: Consumer) {
    !Cancelled(c) && !c.Exited?
  }

  /** Everything popped has been written and released, and nothing is left to pop. */
  predicate Emptied(s: State) {
    s.consumer.Pop? && s.readHead == s.tail
  }

  /** How far the consumer of an open ring is from looking for the first packet of a batch. */
  function OpenPhase(s: State): int {
    if s.consumer.PopClosed? then 3 else Phase(s)
  }

  lemma OpenPhaseNatural(l: Limits, s: State)
    requires Inv(l, s)
    ensures OpenPhase(s) >= 0 && s.readHead <= s.tail
  {
  }

  lemma OpenConsumerAdvances(l: Limits, s: State)
    requires Inv(l, s) && !s.closed && AtWork(s.consumer) && !Emptied(s)
    ensures StepConsumer(Unbounded, l, s, false).Some?
    ensures var t := StepConsumer(Unbounded, l, s, false).value;
            && t.producer == s.producer && t.submitted == s.submitted && t.tail == s.tail && t.closed == s.closed
            && AtWork(t.consumer)
            && s.readHead <= t.readHead && (t.readHead == s.readHead ==> OpenPhase(t) < OpenPhase(s))
  {
    hide ProducerInv, WrittenInv, BatchInv;
    if Takes(l, s) {
      TakeStep(l, s, false);
    } else {
      ConsumerReady(l, s);
      OtherStep(l, s, false);
    }
  }

  predicate AllConsumer(actions: seq<Action>, cancel: bool) {
    forall i :: 0 <= i < |actions| ==> actions[i] == ConsumerStep(cancel)
  }

  /** In an open ring the consumer, left to itself, hands over everything that has been submitted and gives every slot
      back, without ending. */
  lemma {:induction false} ConsumerEmpties(l: Limits, s: State) returns (actions: seq<Action>)
    requires Inv(l, s) && !s.closed && AtWork(s.consumer)
    ensures AllConsumer(actions, false) && Run(Unbounded, l, s, actions).Some?
    ensures var t := Run(Unbounded, l, s, actions).value;
            && Inv(l, t) && t.consumer.Pop? && t.producer == s.producer && !t.closed
            && t.submitted == s.submitted && t.written == t.submitted && t.freeHead == t.readHead == t.tail == s.tail
    decreases s.tail - s.readHead, OpenPhase(s)
  {
    OpenPhaseNatural(l, s);
    if Emptied(s) {
      actions := [];
      EmptiedWritten(l, s);
    } else {
      hide Inv, StepConsumer, OpenPhase, AtWork, Emptied;
      OpenConsumerAdvances(l, s);
      var a := ConsumerStep(false);
      ApplyKeepsInv(l, s, a);
      var t := Apply(Unbounded, l, s, a).value;
      OpenPhaseNatural(l, t);
      var more := ConsumerEmpties(l, t);
      RunFirst(l, s, a, more);
      actions := [a] + more;
    }
  }

  lemma EmptiedWritten(l: Limits, s: State)
    requires Inv(l, s) && Emptied(s)
    ensures s.written == s.submitted && s.freeHead == s.readHead == s.tail && Run(Unbounded, l, s, []) == Some(s)
  {
  }

  /** ctx.Done cuts the timer of a batch that is not full yet: the writer ends after it has handed over and given back
      exactly the packets popped so far. */
  lemma TimerCutShort(l: Limits, s: State) returns (actions: seq<Action>)
    requires Inv(l, s) && s.consumer.Delay? && RoomInBatch(l, s)
    ensures |actions| > 0 && AllConsumer(actions, true) && Run(Unbounded, l, s, actions).Some?
    ensures var t := Run(Unbounded, l, s, actions).value;
            && t.consumer == Exited(true) && t.readHead == s.readHead == t.freeHead
            && t.submitted == s.submitted && |s.submitted| >= s.readHead && t.written == s.submitted[..s.readHead]
  {
    var t := Apply(Unbounded, l, s, ConsumerStep(true)).value;
    ApplyKeepsInv(l, s, ConsumerStep(true));
    var more := CancelledEnds(l, t);
    hide Inv;
    RunFirst(l, s, ConsumerStep(true), more);
    actions := [ConsumerStep(true)] + more;
  }

  lemma CancelledAdvances(l: Limits, s: State)
    requires Inv(l, s) && Cancelled(s.consumer) && !s.consumer.Exited?
    ensures StepConsumer(Unbounded, l, s, true).Some?
    ensures var t := StepConsumer(Unbounded, l, s, true).value;
            && t.submitted == s.submitted && t.readHead == s.readHead && Cancelled(t.consumer) && Phase(t) < Phase(s)
  {
    hide ProducerInv, WrittenInv, BatchInv;
    CancelledReady(l, s);
    OtherStep(l, s, true);
  }

  lemma CancelledReady(l: Limits, s: State)
    requires Counters(s) && Contents(s) && Cancelled(s.consumer) && !s.consumer.Exited?
    ensures StepConsumer(Unbounded, l, s, true).Some? && !Takes(l, s)
  {
    if s.consumer.Writing? && s.consumer.k < |s.batch| {
      BatchedData(s);
    }
  }

  lemma {:induction false} CancelledEnds(l: Limits, s: State) returns (actions: seq<Action>)
    requires Inv(l, s) && Cancelled(s.consumer)
    ensures AllConsumer(actions, true) && Run(Unbounded, l, s, actions).Some?
    ensures var t := Run(Unbounded, l, s, actions).value;
            && t.consumer == Exited(true) && t.readHead == s.readHead == t.freeHead
            && t.submitted == s.submitted && |s.submitted| >= s.readHead && t.written == s.submitted[..s.readHead]
    decreases Phase(s)
  {
    PhaseNatural(l, s);
    if s.consumer.Exited? {
      actions := [];
      CancelledWritten(l, s);
    } else {
      hide Inv, StepConsumer, Phase, Cancelled;
      CancelledAdvances(l, s);
      ApplyKeepsInv(l, s, ConsumerStep(true));
      var t := Apply(Unbounded, l, s, ConsumerStep(true)).value;
      PhaseNatural(l, t);
      var more := CancelledEnds(l, t);
      RunFirst(l, s, ConsumerStep(true), more);
      actions := [ConsumerStep(true)] + more;
    }
  }

  lemma CancelledWritten(l: Limits, s: State)
    requires Inv(l, s) && s.consumer.Exited?
    ensures s.freeHead == s.readHead <= |s.submitted| && s.written == s.submitted[..s.readHead]
    ensures Run(Unbounded, l, s, []) == Some(s)
  {
  }

  /** A batch is flushed only when it is full, when the ring is seen empty, or when the timer is cut short, and a writer
      is ended only by a cut timer or by the close. */
  lemma FlushedForCause(l: Limits, s: State, cancel: bool)
    requires StepConsumer(Unbounded, l, s, cancel).Some?
    ensures var t := StepConsumer(Unbounded, l, s, cancel).value;
            && (!s.consumer.Writing? && t.consumer.Writing? ==>
                  !RoomInBatch(l, s) || s.readHead == s.tail || (s.consumer.Delay? && cancel))
            && (Cancelled(t.consumer) && !Cancelled(s.consumer) ==> s.consumer.Delay? && cancel && RoomInBatch(l, s))
            && (t.consumer == Exited(false) ==> s.closed)
  {
  }

  // The producer.

  /** In an open ring with a free slot a packet that fits is submitted, by the producer alone. */
  lemma ProducerSubmits(l: Limits, s: State, packet: seq<Byte>) returns (actions: seq<Action>)
    requires Inv(l, s) && !s.closed && s.tail < s.freeHead + s.Capacity()
    requires Carrying(s.producer, packet) && SlotsHold(s, |packet|)
    ensures forall i :: 0 <= i < |actions| ==> actions[i].ProducerStep?
    ensures Run(Unbounded, l, s, actions).Some?
    ensures var t := Run(Unbounded, l, s, actions).value;
            t.producer.Idle? && t.submitted == s.submitted + [packet] && t.consumer == s.consumer && t.closed == s.closed
  {
    hide Run, Inv;
    var before := ProducerReachesBump(l, s, packet);
    var t := Run(Unbounded, l, s, before).value;
    RunLast(l, s, before, ProducerStep);
    actions := before + [ProducerStep];
    assert StepProducer(Unbounded, t).value.producer.Idle?;
  }

  /** A producer lets go of its packet only when it has submitted it, when the ring is closed, or when the packet is
      larger than the slot. */
  lemma GivesUpForCause(s: State)
    requires StepProducer(Unbounded, s).Some?
    ensures var t := StepProducer(Unbounded, s).value;
            (t.producer.Idle? || t.producer.Discard?) && !s.producer.Discard? ==>
              || s.closed
              || (s.producer.Bump? && t.submitted == s.submitted + [s.producer.packet])
              || (s.producer.CheckSize? && s.producer.slot < |s.slots| && |s.producer.packet| > |s.slots[s.producer.slot].buf|)
  {
  }
}

/** What closing the ring may lose: exactly in which states a close is safe, and how a packet of any size, in a
    ring of any capacity, is missed in the others. */
module RingClosing {
  import opened Bytes
  import opened RingMachine
  import opened RingSafety
  import opened RingResults

  /** Whatever follows, a consumer that ends because of the close has handed over everything submitted. */
  ghost predicate AlwaysDrains(l: Limits, s: State) {
    forall rest :: Run(Unbounded, l, s, rest).Some? ==> Drained(Run(Unbounded, l, s, rest).value)
  }

  predicate Drained(s: State) {
    s.consumer == Exited(false) ==> s.written == s.submitted
  }

  /** ctx.Done has already cut the consumer's timer short: it ends after this flush, without another look. */
  predicate Cancelled(c: Consumer) {
    match c
    case Writing(_, last) => last
    case Releasing(_, last) => last
    case Bumping(_, last) => last
    case Exited(cancelled) => cancelled
    case _ => false
  }

  lemma {:induction false} StaysCancelled(l: Limits, s: State, actions: seq<Action>)
    requires Cancelled(s.consumer) && Run(Unbounded, l, s, actions).Some?
    ensures Cancelled(Run(Unbounded, l, s, actions).value.consumer)
  {
    hide StepProducer;
    if |actions| > 0 {
      StaysCancelled(l, s, actions[..|actions| - 1]);
      var t := Run(Unbounded, l, s, actions[..|actions| - 1]).value;
      if actions[|actions| - 1].ProducerStep? {
        ProducerLeaves(t);
      }
    }
  }

  lemma {:induction false} RunFirst(l: Limits, s: State, a: Action, rest: seq<Action>)
    requires Apply(Unbounded, l, s, a).Some?
    ensures Run(Unbounded, l, s, [a] + rest) == Run(Unbounded, l, Apply(Unbounded, l, s, a).value, rest)
    decreases |rest|
  {
    hide Apply;
    if |rest| == 0 {
      assert [a] + rest == [a] && [a][..0] == [];
      assert Run(Unbounded, l, s, [a][..0]) == Some(s);
    } else {
      RunFirst(l, s, a, rest[..|rest| - 1]);
      assert ([a] + rest)[..|rest|] == [a] + rest[..|rest| - 1];
    }
  }

  lemma RunLast(l: Limits, s: State, actions: seq<Action>, a: Action)
    requires Run(Unbounded, l, s, actions).Some?
    ensures Run(Unbounded, l, s, actions + [a]) == Apply(Unbounded, l, Run(Unbounded, l, s, actions).value, a)
  {
    assert (actions + [a])[..|actions|] == actions;
  }

  // The consumer left to itself.

  /** How far the consumer is from looking at tail again. */
  function Phase(s: State): int {
    match s.consumer
    case Exited(_) => 0
    case PopClosed => 1
    case Pop => 2
    case Releasing(k, _) => 3 + 2 * (|s.batch| - k)
    case Bumping(k, _) => 2 + 2 * (|s.batch| - k)
    case Writing(k, _) => 4 + 3 * |s.batch| - k
    case More => 5 + 3 * |s.batch|
    case Delay => 6 + 3 * |s.batch|
  }

  lemma ConsumerAdvances(l: Limits, s: State)
    requires Inv(l, s) && s.closed && !s.consumer.Exited?
    ensures StepConsumer(Unbounded, l, s, false).Some?
    ensures var t := StepConsumer(Unbounded, l, s, false).value;
            && t.producer == s.producer && t.submitted == s.submitted && t.tail == s.tail && t.closed
            && s.readHead <= t.readHead && (t.readHead == s.readHead ==> Phase(t) < Phase(s))
            && (!Cancelled(s.consumer) ==> !Cancelled(t.consumer))
  {
    hide ProducerInv, WrittenInv, BatchInv;
    if Takes(l, s) {
      TakeStep(l, s, false);
    } else {
      ConsumerReady(l, s);
      OtherStep(l, s, false);
    }
  }

  lemma ConsumerReady(l: Limits, s: State)
    requires Counters(s) && Contents(s) && !Takes(l, s) && !s.consumer.Exited?
    ensures StepConsumer(Unbounded, l, s, false).Some?
  {
    if s.consumer.Writing? && s.consumer.k < |s.batch| {
      BatchedData(s);
    }
  }

  lemma PhaseNatural(l: Limits, s: State)
    requires Inv(l, s)
    ensures Phase(s) >= 0 && s.readHead <= s.tail
  {
  }

  /** With the ring closed, the consumer alone gets to its end, and by way of the close unless it was cut short. */
  lemma {:induction false} ConsumerEnds(l: Limits, s: State) returns (actions: seq<Action>)
    requires Inv(l, s) && s.closed && !Cancelled(s.consumer)
    ensures Run(Unbounded, l, s, actions).Some?
    ensures var t := Run(Unbounded, l, s, actions).value;
            Inv(l, t) && t.consumer == Exited(false) && t.producer == s.producer && t.submitted == s.submitted
    decreases s.tail - s.readHead, Phase(s)
  {
    PhaseNatural(l, s);
    if s.consumer.Exited? {
      actions := [];
    } else {
      hide Inv, StepConsumer, Phase, Cancelled;
      ConsumerAdvances(l, s);
      var a := ConsumerStep(false);
      ApplyKeepsInv(l, s, a);
      var t := Apply(Unbounded, l, s, a).value;
      PhaseNatural(l, t);
      var more := ConsumerEnds(l, t);
      RunFirst(l, s, a, more);
      actions := [a] + more;
    }
  }

  /** A submit that passed its closed test goes through after the consumer has ended. */
  lemma LateSubmit(l: Limits, s: State) returns (actions: seq<Action>)
    requires Inv(l, s) && s.closed && s.producer.Bump? && !Cancelled(s.consumer)
    ensures Run(Unbounded, l, s, actions).Some?
    ensures var t := Run(Unbounded, l, s, actions).value;
            && t.consumer == Exited(false) && t.written <= s.submitted
            && t.submitted == s.submitted + [s.producer.packet]
  {
    hide Run, Inv, Cancelled;
    var before := ConsumerEnds(l, s);
    var t := Run(Unbounded, l, s, before).value;
    EndedWritten(l, t);
    RunLast(l, s, before, ProducerStep);
    actions := before + [ProducerStep];
  }

  lemma EndedWritten(l: Limits, s: State)
    requires Inv(l, s) && s.consumer.Exited?
    ensures |s.submitted| == s.tail && s.readHead <= s.tail && s.written == s.submitted[..s.readHead]
    ensures s.written == s.submitted ==> s.readHead == s.tail
  {
  }

  lemma ClosingInv(l: Limits, s: State)
    requires Inv(l, s) && s.closed
    ensures AlwaysDrains(l, s) <==> Quiet(s) || Cancelled(s.consumer)
  {
    hide Run, Inv, Apply;
    if Quiet(s) || Cancelled(s.consumer) {
      forall rest | Run(Unbounded, l, s, rest).Some? ensures Drained(Run(Unbounded, l, s, rest).value) {
        if Cancelled(s.consumer) {
          StaysCancelled(l, s, rest);
        } else {
          RunKeepsQuiet(l, s, rest);
          RunKeepsInv(l, s, rest);
          QuietDrained(l, Run(Unbounded, l, s, rest).value);
        }
      }
    } else if s.producer.Bump? {
      var rest := LateSubmit(l, s);
      assert !Drained(Run(Unbounded, l, s, rest).value);
    } else {
      LookedTooSoon(l, s);
    }
  }

  lemma QuietDrained(l: Limits, s: State)
    requires Inv(l, s) && Quiet(s)
    ensures Drained(s)
  {
  }

  /** A consumer that has seen the ring empty before the last packet came, and the ring closed after, ends. */
  lemma LookedTooSoon(l: Limits, s: State)
    requires Inv(l, s) && s.closed && s.readHead != s.tail && (s.consumer.PopClosed? || s.consumer == Exited(false))
    ensures exists rest :: Run(Unbounded, l, s, rest).Some? && !Drained(Run(Unbounded, l, s, rest).value)
  {
    hide Inv;
    if s.consumer.PopClosed? {
      var u := s.(consumer := Exited(false));
      RunLast(l, s, [], ConsumerStep(false));
      assert [] + [ConsumerStep(false)] == [ConsumerStep(false)];
      ApplyKeepsInv(l, s, ConsumerStep(false));
      EndedWritten(l, u);
      assert !Drained(Run(Unbounded, l, s, [ConsumerStep(false)]).value);
    } else {
      EndedWritten(l, s);
      assert Run(Unbounded, l, s, []) == Some(s);
    }
  }

  /** A closed ring is sure to be drained exactly when, in the state it is in, no submit is between its closed
      test and its increment of tail and the consumer holds no view of an empty ring that has become untrue,
      or the consumer has already been cut short by ctx.Done. */
  lemma ClosingExactly(l: Limits, capacity: nat, packetSize: nat, before: seq<Action>)
    requires Reaches(l, capacity, packetSize, before) && After(l, capacity, packetSize, before).closed
    ensures var s := After(l, capacity, packetSize, before);
            AlwaysDrains(l, s) <==> Quiet(s) || Cancelled(s.consumer)
  {
    hide Run, Inv, AlwaysDrains, Quiet, Cancelled;
    ReachableInv(l, capacity, packetSize, before);
    ClosingInv(l, After(l, capacity, packetSize, before));
  }

  // Every packet can be missed.

  /** How far the producer is from incrementing tail. */
  function Ahead(p: Producer): int {
    match p
    case LoadClosed(packet) => 8 + |packet|
    case LoadTail(packet) => 7 + |packet|
    case LoadFree(packet, _) => 6 + |packet|
    case Acquired(packet, _) => 5 + |packet|
    case CheckSize(packet, _) => 4 + |packet|
    case Fill(packet, _, done) => 3 + |packet| - done
    case Submit(_, _) => 1
    case _ => 0
  }

  /** The producer is on its way with this packet. */
  predicate Carrying(p: Producer, packet: seq<Byte>) {
    !p.Idle? && !p.Discard? && p.packet == packet
  }

  predicate SlotsHold(s: State, size: nat) {
    forall i :: 0 <= i < |s.slots| ==> size <= |s.slots[i].buf|
  }

  lemma ProducerAdvances(l: Limits, s: State, packet: seq<Byte>)
    requires Inv(l, s) && !s.closed && s.tail < s.freeHead + s.Capacity()
    requires Carrying(s.producer, packet) && !s.producer.Bump? && SlotsHold(s, |packet|)
    ensures StepProducer(Unbounded, s).Some?
    ensures var t := StepProducer(Unbounded, s).value;
            && Carrying(t.producer, packet) && Ahead(t.producer) < Ahead(s.producer) && SlotsHold(t, |packet|)
            && !t.closed && t.tail == s.tail && t.freeHead == s.freeHead && t.submitted == s.submitted
            && t.consumer == s.consumer && |t.slots| == |s.slots|
  {
    hide WrittenInv, BatchInv;
  }

  lemma {:induction false} ProducerReachesBump(l: Limits, s: State, packet: seq<Byte>) returns (actions: seq<Action>)
    requires Inv(l, s) && !s.closed && s.tail < s.freeHead + s.Capacity()
    requires Carrying(s.producer, packet) && SlotsHold(s, |packet|)
    ensures Run(Unbounded, l, s, actions).Some?
    ensures var t := Run(Unbounded, l, s, actions).value;
            Inv(l, t) && t.producer.Bump? && t.producer.packet == packet
            && t.submitted == s.submitted && t.consumer == s.consumer && !t.closed
    ensures forall i :: 0 <= i < |actions| ==> actions[i].ProducerStep?
    decreases |packet|, Ahead(s.producer)
  {
    if s.producer.Bump? {
      actions := [];
    } else {
      AheadNatural(l, s);
      hide Inv, StepProducer, Ahead, SlotsHold;
      ProducerAdvances(l, s, packet);
      ApplyKeepsInv(l, s, ProducerStep);
      var t := Apply(Unbounded, l, s, ProducerStep).value;
      AheadNatural(l, t);
      var more := ProducerReachesBump(l, t, packet);
      RunFirst(l, s, ProducerStep, more);
      actions := [ProducerStep] + more;
    }
  }

  lemma AheadNatural(l: Limits, s: State)
    requires Inv(l, s)
    ensures Ahead(s.producer) >= 0
  {
  }

  /** For every capacity and every packet that fits its slot there is an interleaving in which the packet is
      submitted beside a close and never handed over. */
  lemma LateSubmitMissed(l: Limits, capacity: nat, packetSize: nat, packet: seq<Byte>) returns (actions: seq<Action>)
    requires capacity > 0 && |packet| <= packetSize
    ensures Reaches(l, capacity, packetSize, actions)
    ensures var s := After(l, capacity, packetSize, actions);
            s.consumer == Exited(false) && s.submitted == [packet] && s.written == []
  {
    hide Inv, Run, Apply, Cancelled;
    var s0 := Initial(capacity, packetSize);
    InitialInv(l, capacity, packetSize);
    SendApplies(l, s0, packet);
    var s1 := Apply(Unbounded, l, s0, Send(packet)).value;
    ApplyKeepsInv(l, s0, Send(packet));
    var a := ProducerReachesBump(l, s1, packet);
    var s2 := Run(Unbounded, l, s1, a).value;
    CloseApplies(l, s2);
    var s3 := Apply(Unbounded, l, s2, Close).value;
    ApplyKeepsInv(l, s2, Close);
    var b := LateSubmit(l, s3);
    RunFirst(l, s2, Close, b);
    RunFirst(l, s0, Send(packet), a);
    RunJoin(l, s0, [Send(packet)] + a, [Close] + b);
    actions := [Send(packet)] + a + ([Close] + b);
    assert s3.submitted + [packet] == [packet];
  }

  lemma SendApplies(l: Limits, s: State, packet: seq<Byte>)
    requires s.producer.Idle?
    ensures Apply(Unbounded, l, s, Send(packet)) == Some(s.(producer := LoadClosed(packet)))
  {
  }

  lemma CloseApplies(l: Limits, s: State)
    ensures Apply(Unbounded, l, s, Close) == Some(s.(closed := true))
    ensures s.consumer.Pop? ==> !Cancelled(s.consumer)
  {
  }

  lemma {:induction false} RunJoin(l: Limits, s: State, a: seq<Action>, b: seq<Action>)
    requires Run(Unbounded, l, s, a).Some?
    ensures Run(Unbounded, l, s, a + b) == Run(Unbounded, l, Run(Unbounded, l, s, a).value, b)
    decreases |b|
  {
    hide Apply;
    if |b| == 0 {
      assert a + b == a;
    } else {
      RunJoin(l, s, a, b[..|b| - 1]);
      assert (a + b)[..|a + b| - 1] == a + b[..|b| - 1];
    }
  }
}

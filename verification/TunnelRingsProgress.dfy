/** With the rings in place the upstream path does not get stuck either. */
module TunnelRingsProgress {
  import opened Bytes
  import opened Packet
  import opened ServerFraming
  import opened Tunnel
  import opened TunnelSafety
  import opened TunnelRings
  import M = RingMachine
  import S = RingSafety
  import C = RingClosing
  import P = RingProgress

  // One ring.

  /** A ring at work whose writer is neither ending nor ended. */
  ghost predicate Going(limits: M.Limits, ring: M.State, size: nat) {
    Working(limits, ring, size) && P.AtWork(ring.consumer)
  }

  /** Reader's and writer's steps only, and no timer cut short. */
  predicate Local(actions: seq<M.Action>) {
    forall i :: 0 <= i < |actions| ==> actions[i].ProducerStep? || actions[i] == M.ConsumerStep(false)
  }

  lemma LocalStepGoes(limits: M.Limits, ring: M.State, size: nat, a: M.Action)
    requires Going(limits, ring, size) && Local([a]) && M.Apply(M.Unbounded, limits, ring, a).Some?
    ensures Going(limits, M.Apply(M.Unbounded, limits, ring, a).value, size)
    ensures ring.written <= M.Apply(M.Unbounded, limits, ring, a).value.written
    ensures a.ProducerStep? ==>
              var t := M.Apply(M.Unbounded, limits, ring, a).value;
              t.written == ring.written && !(ring.producer.CheckSize? && t.producer.Discard?)
  {
    hide S.Inv, Queue;
    assert [a][0] == a;
    if a.ProducerStep? {
      ProducerStutters(limits, ring, size);
      ProducerApart(ring);
    } else {
      ConsumerDequeues(limits, ring, size, false);
      ConsumerKeeps(limits, ring, false);
      P.FlushedForCause(limits, ring, false);
    }
  }

  lemma ProducerApart(ring: M.State)
    requires M.StepProducer(M.Unbounded, ring).Some?
    ensures M.StepProducer(M.Unbounded, ring).value.consumer == ring.consumer
    ensures M.StepProducer(M.Unbounded, ring).value.written == ring.written
  {
  }

  lemma {:induction false} LocalRunGoes(limits: M.Limits, ring: M.State, size: nat, actions: seq<M.Action>)
    requires Going(limits, ring, size) && Local(actions) && M.Run(M.Unbounded, limits, ring, actions).Some?
    ensures Going(limits, M.Run(M.Unbounded, limits, ring, actions).value, size)
  {
    if |actions| > 0 {
      hide Going, M.Apply;
      LocalRunGoes(limits, ring, size, actions[..|actions| - 1]);
      LocalStepGoes(limits, M.Run(M.Unbounded, limits, ring, actions[..|actions| - 1]).value, size, actions[|actions| - 1]);
    }
  }

  lemma GoingFacts(limits: M.Limits, ring: M.State, size: nat)
    requires Going(limits, ring, size)
    ensures S.Inv(limits, ring) && !ring.closed && P.AtWork(ring.consumer) && ring.Capacity() > 0
    ensures !ring.producer.Idle? ==> C.Carrying(ring.producer, ring.producer.packet) && C.SlotsHold(ring, |ring.producer.packet|)
  {
  }

  /** Reader and writer left to themselves finish what they have in hand. */
  lemma RingFinishes(limits: M.Limits, ring: M.State, size: nat) returns (actions: seq<M.Action>)
    requires Going(limits, ring, size)
    ensures Local(actions) && M.Run(M.Unbounded, limits, ring, actions).Some?
    ensures var t := M.Run(M.Unbounded, limits, ring, actions).value; t.producer.Idle? && t.written == t.submitted
  {
    hide M.Run, Going, S.Inv, P.AtWork;
    GoingFacts(limits, ring, size);
    actions := P.ConsumerEmpties(limits, ring);
    var t := M.Run(M.Unbounded, limits, ring, actions).value;
    if !t.producer.Idle? {
      LocalRunGoes(limits, ring, size, actions);
      GoingFacts(limits, t, size);
      var b := P.ProducerSubmits(limits, t, t.producer.packet);
      C.RunJoin(limits, ring, actions, b);
      actions := actions + b;
      LocalRunGoes(limits, ring, size, actions);
      t := M.Run(M.Unbounded, limits, ring, actions).value;
      GoingFacts(limits, t, size);
      var c := P.ConsumerEmpties(limits, t);
      C.RunJoin(limits, ring, actions, c);
      actions := actions + c;
    }
  }

  // Every lane.

  ghost predicate AllGoing(u: Setup, limits: M.Limits, s: RingState) {
    |s.lanes| == u.lanes && forall l :: 0 <= l < |s.lanes| ==> Going(limits, s.lanes[l].ring, u.SlotSize())
  }

  /** No writer's timer is cut short, which only Stop does. */
  predicate NoneCancelled(actions: seq<RingAction>) {
    forall i :: 0 <= i < |actions| && actions[i].Consumer? ==> !actions[i].cancel
  }

  lemma StepGoes(u: Setup, limits: M.Limits, s: RingState, a: RingAction)
    requires Sane(u) && AllGoing(u, limits, s) && Step(u, limits, s, a).Some? && (a.Consumer? ==> !a.cancel)
    ensures AllGoing(u, limits, Step(u, limits, s, a).value)
  {
    hide Sane, Going, M.StepProducer, M.StepConsumer, Send, EncodeFrame, FeedServer, ParseServer, Carry, TooLarge;
    match a {
      case Read(session, datagram) =>
        ReadGoes(u, limits, s, a);
      case Producer(lane) =>
        LocalStepGoes(limits, s.lanes[lane].ring, u.SlotSize(), M.ProducerStep);
      case Consumer(lane, cancel) =>
        LocalStepGoes(limits, s.lanes[lane].ring, u.SlotSize(), M.ConsumerStep(false));
      case Arrive(lane, bytes, now) =>
    }
  }

  lemma ReadGoes(u: Setup, limits: M.Limits, s: RingState, a: RingAction)
    requires Sane(u) && AllGoing(u, limits, s) && a.Read? && Step(u, limits, s, a).Some?
    ensures AllGoing(u, limits, Step(u, limits, s, a).value)
  {
    hide Sane, Queue, Send, EncodeFrame, TooLarge, S.Inv;
    var d := Datagram(a.session, Cut(a.datagram, u.maxPacket));
    SendFits(u, s.fed, d);
    FrameFits(u, Send(u, s.fed, d).frame);
    var c := Send(u, s.fed, d);
    SendQueues(limits, s.lanes[c.lane].ring, u.SlotSize(), EncodeFrame(c.frame));
  }

  lemma InitialGoing(u: Setup, limits: M.Limits, capacity: nat)
    requires capacity > 0
    ensures AllGoing(u, limits, RingInitial(u, capacity))
  {
    S.InitialInv(limits, capacity, u.SlotSize());
    hide S.Inv;
  }

  lemma {:induction false} RunGoes(u: Setup, limits: M.Limits, capacity: nat, actions: seq<RingAction>)
    requires Sane(u) && capacity > 0 && RingRun(u, limits, capacity, actions).Some? && NoneCancelled(actions)
    ensures AllGoing(u, limits, RingRun(u, limits, capacity, actions).value)
  {
    hide Sane, AllGoing, Step;
    if |actions| == 0 {
      InitialGoing(u, limits, capacity);
    } else {
      RunGoes(u, limits, capacity, actions[..|actions| - 1]);
      StepGoes(u, limits, RingRun(u, limits, capacity, actions[..|actions| - 1]).value, actions[|actions| - 1]);
    }
  }

  /** While nobody is cut short, the reader can take the next datagram whenever it is done with the one before. */
  lemma ReadPossible(u: Setup, limits: M.Limits, s: RingState, session: U32, datagram: seq<Byte>)
    requires Sane(u) && AllGoing(u, limits, s) && ReaderFree(s)
    ensures var t := Step(u, limits, s, Read(session, datagram));
            t.Some? && t.value.fed == s.fed + [Datagram(session, Cut(datagram, u.maxPacket))]
  {
    hide Queue, Send, EncodeFrame, TooLarge, S.Inv;
    var d := Datagram(session, Cut(datagram, u.maxPacket));
    SendFits(u, s.fed, d);
    FrameFits(u, Send(u, s.fed, d).frame);
    var c := Send(u, s.fed, d);
    SendQueues(limits, s.lanes[c.lane].ring, u.SlotSize(), EncodeFrame(c.frame));
  }

  /** Only lane l has changed, and nothing has been read. */
  predicate OnlyLane(s: RingState, t: RingState, l: nat) {
    && t.fed == s.fed && |t.lanes| == |s.lanes|
    && forall k :: 0 <= k < |s.lanes| && k != l ==> t.lanes[k] == s.lanes[k]
  }

  /** More actions, none of them a read or a cut timer. */
  predicate Onward(actions: seq<RingAction>, longer: seq<RingAction>) {
    && actions <= longer
    && forall i :: |actions| <= i < |longer| ==> !longer[i].Read? && (longer[i].Consumer? ==> !longer[i].cancel)
  }

  lemma Further(u: Setup, limits: M.Limits, capacity: nat, actions: seq<RingAction>, a: RingAction)
    requires RingRun(u, limits, capacity, actions).Some?
    ensures RingRun(u, limits, capacity, actions + [a]) == Step(u, limits, RingRun(u, limits, capacity, actions).value, a)
    ensures !a.Read? ==> RingReads(u, actions + [a]) == RingReads(u, actions)
  {
    assert (actions + [a])[..|actions|] == actions;
  }

  /** What a lane's ring can do on its own, it can do as part of the whole. */
  lemma {:induction false} Lifted(
    u: Setup, limits: M.Limits, capacity: nat, actions: seq<RingAction>, l: nat, local: seq<M.Action>)
    returns (longer: seq<RingAction>)
    requires Sane(u) && capacity > 0 && RingRun(u, limits, capacity, actions).Some? && NoneCancelled(actions) && l < u.lanes
    requires AllGoing(u, limits, RingRun(u, limits, capacity, actions).value)
    requires Local(local)
    requires M.Run(M.Unbounded, limits, RingRun(u, limits, capacity, actions).value.lanes[l].ring, local).Some?
    ensures Onward(actions, longer) && RingRun(u, limits, capacity, longer).Some? && NoneCancelled(longer)
    ensures RingReads(u, longer) == RingReads(u, actions)
    ensures var s, t := RingRun(u, limits, capacity, actions).value, RingRun(u, limits, capacity, longer).value;
            OnlyLane(s, t, l) && AllGoing(u, limits, t)
            && Some(t.lanes[l].ring) == M.Run(M.Unbounded, limits, s.lanes[l].ring, local)
    decreases |local|
  {
    hide Sane, RingRun, RingReads, M.Apply, Step, Going;
    if |local| == 0 {
      longer := actions;
    } else {
      var init, a := local[..|local| - 1], local[|local| - 1];
      longer := Lifted(u, limits, capacity, actions, l, init);
      var t := RingRun(u, limits, capacity, longer).value;
      var b := LiftedStep(u, limits, t, l, a);
      StepGoes(u, limits, t, b);
      Further(u, limits, capacity, longer, b);
      longer := longer + [b];
    }
  }

  lemma LiftedStep(u: Setup, limits: M.Limits, s: RingState, l: nat, a: M.Action) returns (b: RingAction)
    requires AllGoing(u, limits, s) && l < |s.lanes| && Local([a])
    requires M.Apply(M.Unbounded, limits, s.lanes[l].ring, a).Some?
    ensures !b.Read? && (b.Consumer? ==> !b.cancel)
    ensures Step(u, limits, s, b).Some? && OnlyLane(s, Step(u, limits, s, b).value, l)
    ensures Step(u, limits, s, b).value.lanes[l].ring == M.Apply(M.Unbounded, limits, s.lanes[l].ring, a).value
  {
    hide Going, M.StepProducer, M.StepConsumer, FeedServer, ParseServer, Carry, Send, EncodeFrame, Flatten;
    assert [a][0] == a;
    LocalStepGoes(limits, s.lanes[l].ring, u.SlotSize(), a);
    b := if a.ProducerStep? then Producer(l) else Consumer(l, false);
  }

  lemma ArriveAll(u: Setup, limits: M.Limits, s: RingState, l: nat, now: int) returns (a: RingAction)
    requires AllGoing(u, limits, s) && l < |s.lanes|
    ensures !a.Read? && !a.Consumer?
    ensures var t := Step(u, limits, s, a);
            && t.Some? && OnlyLane(s, t.value, l) && AllGoing(u, limits, t.value)
            && t.value.lanes[l].ring == s.lanes[l].ring && t.value.lanes[l].stream == []
  {
    hide Going, FeedServer, ParseServer, Carry;
    a := Arrive(l, |s.lanes[l].stream|, now);
  }

  lemma LaneFinishes(u: Setup, limits: M.Limits, capacity: nat, actions: seq<RingAction>, l: nat, now: int)
    returns (longer: seq<RingAction>)
    requires Sane(u) && capacity > 0 && RingRun(u, limits, capacity, actions).Some? && NoneCancelled(actions) && l < u.lanes
    requires AllGoing(u, limits, RingRun(u, limits, capacity, actions).value)
    ensures Onward(actions, longer) && RingRun(u, limits, capacity, longer).Some? && NoneCancelled(longer)
    ensures RingReads(u, longer) == RingReads(u, actions)
    ensures var s, t := RingRun(u, limits, capacity, actions).value, RingRun(u, limits, capacity, longer).value;
            OnlyLane(s, t, l) && AllGoing(u, limits, t) && RingIdle(t.lanes[l])
  {
    hide Sane, RingRun, RingReads, Step, Going, M.Run;
    var s := RingRun(u, limits, capacity, actions).value;
    var local := RingFinishes(limits, s.lanes[l].ring, u.SlotSize());
    longer := Lifted(u, limits, capacity, actions, l, local);
    var t := RingRun(u, limits, capacity, longer).value;
    var a := ArriveAll(u, limits, t, l, now);
    Further(u, limits, capacity, longer, a);
    longer := longer + [a];
  }

  lemma {:induction false} LanesFinish(u: Setup, limits: M.Limits, capacity: nat, actions: seq<RingAction>, n: nat, now: int)
    returns (longer: seq<RingAction>)
    requires Sane(u) && capacity > 0 && RingRun(u, limits, capacity, actions).Some? && NoneCancelled(actions) && n <= u.lanes
    ensures Onward(actions, longer) && RingRun(u, limits, capacity, longer).Some? && NoneCancelled(longer)
    ensures RingReads(u, longer) == RingReads(u, actions)
    ensures var t := RingRun(u, limits, capacity, longer).value;
            AllGoing(u, limits, t) && forall l :: 0 <= l < n ==> RingIdle(t.lanes[l])
  {
    hide Sane, RingRun, RingReads, RingIdle, Going;
    if n == 0 {
      longer := actions;
      RunGoes(u, limits, capacity, actions);
    } else {
      var before := LanesFinish(u, limits, capacity, actions, n - 1, now);
      longer := LaneFinishes(u, limits, capacity, before, n - 1, now);
    }
  }

  /** From any moment of any run without striping in which no writer has been cut short, and without another datagram
      coming in, the path can be run empty, load by load and store by store; then every session's backend has
      received all the session's packets. */
  lemma EverythingArrivesRings(u: Setup, limits: M.Limits, capacity: nat, actions: seq<RingAction>, now: int)
    returns (longer: seq<RingAction>)
    requires Sane(u) && !u.striped && capacity > 0 && RingRun(u, limits, capacity, actions).Some?
    requires Harmless(u, RingReads(u, actions)) && NoneCancelled(actions)
    ensures Onward(actions, longer) && RingRun(u, limits, capacity, longer).Some?
    ensures forall session: U32 ::
              Received(u, Abstract(RingRun(u, limits, capacity, longer).value), session) == Inputs(RingReads(u, actions), session)
  {
    hide Sane, RingRun, RingReads, RingIdle, AllGoing, Harmless, Received, Inputs, Abstract;
    longer := LanesFinish(u, limits, capacity, actions, u.lanes, now);
    LanesPositive(u);
    forall session: U32
      ensures Received(u, Abstract(RingRun(u, limits, capacity, longer).value), session) == Inputs(RingReads(u, actions), session)
    {
      EndToEndRings(u, limits, capacity, longer, session);
    }
  }

  lemma LanesPositive(u: Setup)
    requires Sane(u)
    ensures u.lanes > 0
  {
  }
}

/** The upstream path with the ring machine in it: every lane's ring is stepped load by load and store by store,
    by the one reader of the UDP socket and by the lane's writer. It does nothing that the path with a queue in
    the ring's place does not do, so what holds for that path holds for this one. */
module TunnelRings {
  import opened Bytes
  import opened Packet
  import opened ServerFraming
  import opened Tunnel
  import opened TunnelSafety
  import M = RingMachine
  import S = RingSafety
  import T = TunnelStriped
  import R = Reorder
  import RO = ReorderSafety
  import RS = ReorderStates
  import C = ReorderCompleteness
  import SP = Striping

  datatype RingLane = RingLane(ring: M.State, stream: seq<Byte>, inbound: seq<Byte>)

  datatype RingState = RingState(
    fed: seq<Datagram>, lanes: seq<RingLane>, handled: seq<Carried>, times: seq<int>, tooLarge: nat, discarded: nat)

  datatype RingAction =
    | Read(session: U32, datagram: seq<Byte>)         // the reader takes the next datagram
    | Producer(lane: nat)                             // one step of the reader at the lane's ring
    | Consumer(lane: nat, cancel: bool)               // one step of the lane's writer
    | Arrive(lane: nat, bytes: nat, now: int)         // bytes reach the server

  /** There is one reader: it takes a datagram only when it is done with the one before. */
  predicate ReaderFree(s: RingState) {
    forall l :: 0 <= l < |s.lanes| ==> s.lanes[l].ring.producer.Idle?
  }

  function Step(u: Setup, limits: M.Limits, s: RingState, a: RingAction): Option<RingState> {
    match a
    case Read(session, datagram) =>
      var d := Datagram(session, Cut(datagram, u.maxPacket));
      if u.lanes == 0 || !ReaderFree(s) || Send(u, s.fed, d).lane >= |s.lanes| then None
      else
        var c := Send(u, s.fed, d);
        var l := s.lanes[c.lane];
        var ring := M.Apply(M.Unbounded, limits, l.ring, M.Send(EncodeFrame(c.frame)));
        if ring.None? then None
        else Some(s.(fed := s.fed + [d], lanes := s.lanes[c.lane := l.(ring := ring.value)]))
    case Producer(lane) =>
      if lane >= |s.lanes| then None
      else
        var l := s.lanes[lane];
        var ring := M.StepProducer(M.Unbounded, l.ring);
        if ring.None? then None
        else
          Some(s.(lanes := s.lanes[lane := l.(ring := ring.value)],
                  tooLarge := s.tooLarge + if l.ring.producer.CheckSize? && ring.value.producer.Discard? then 1 else 0))
    case Consumer(lane, cancel) =>
      if lane >= |s.lanes| then None
      else
        var l := s.lanes[lane];
        var ring := M.StepConsumer(M.Unbounded, limits, l.ring, cancel);
        if ring.None? || |ring.value.written| < |l.ring.written| then None
        else
          Some(s.(lanes := s.lanes[lane :=
            l.(ring := ring.value, stream := l.stream + Flatten(ring.value.written[|l.ring.written|..]))]))
    case Arrive(lane, bytes, now) =>
      if lane >= |s.lanes| || bytes > |s.lanes[lane].stream| then None
      else
        var l := s.lanes[lane];
        var taken := FeedServer(l.inbound, l.stream[..bytes], u.ServerLimit(), u.zero);
        Some(s.(lanes := s.lanes[lane := l.(stream := l.stream[bytes..], inbound := taken.rest)],
                handled := s.handled + Carry(lane, taken.frames),
                times := s.times + seq(|taken.frames|, _ => now),
                discarded := s.discarded
                  + if ParseServer(l.inbound + l.stream[..bytes], u.ServerLimit(), u.zero).malformed then 1 else 0))
  }

  function RingInitial(u: Setup, capacity: nat): RingState {
    RingState([], seq(u.lanes, _ => RingLane(M.Initial(capacity, u.SlotSize()), [], [])), [], [], 0, 0)
  }

  function RingRun(u: Setup, limits: M.Limits, capacity: nat, actions: seq<RingAction>): (r: Option<RingState>)
    ensures r.Some? ==> |r.value.times| == |r.value.handled|
  {
    if |actions| == 0 then Some(RingInitial(u, capacity))
    else
      match RingRun(u, limits, capacity, actions[..|actions| - 1])
      case None => None
      case Some(s) => Step(u, limits, s, actions[|actions| - 1])
  }

  /** The datagrams read. */
  function RingReads(u: Setup, actions: seq<RingAction>): seq<Datagram> {
    if |actions| == 0 then []
    else
      var a := actions[|actions| - 1];
      RingReads(u, actions[..|actions| - 1])
      + (if a.Read? then [Datagram(a.session, Cut(a.datagram, u.maxPacket))] else [])
  }

  // The abstraction.

  /** The packet the producer is putting into the ring. */
  function InFlight(p: M.Producer): seq<seq<Byte>> {
    if p.Idle? || p.Discard? then [] else [p.packet]
  }

  /** What has been handed to the ring and not yet to the connection. */
  function Queue(ring: M.State): seq<seq<Byte>>
    requires |ring.written| <= |ring.submitted|
  {
    ring.submitted[|ring.written|..] + InFlight(ring.producer)
  }

  function AsLane(l: RingLane): Lane {
    Lane(if |l.ring.written| <= |l.ring.submitted| then Queue(l.ring) else [], l.stream, l.inbound)
  }

  function Abstract(s: RingState): State {
    State(s.fed, seq(|s.lanes|, i requires 0 <= i < |s.lanes| => AsLane(s.lanes[i])),
          s.handled, s.times, s.tooLarge, s.discarded)
  }

  /** A ring at work: open, its slots of one size, and the packet on its way of no more than that. */
  ghost predicate Working(limits: M.Limits, ring: M.State, size: nat) {
    && S.Inv(limits, ring) && !ring.closed
    && (forall i :: 0 <= i < |ring.slots| ==> |ring.slots[i].buf| == size)
    && !ring.producer.Discard? && (!ring.producer.Idle? ==> |ring.producer.packet| <= size)
  }

  ghost predicate RingInv(u: Setup, limits: M.Limits, s: RingState) {
    |s.lanes| == u.lanes && forall l :: 0 <= l < |s.lanes| ==> Working(limits, s.lanes[l].ring, u.SlotSize())
  }

  lemma WorkingQueue(limits: M.Limits, ring: M.State, size: nat)
    requires Working(limits, ring, size)
    ensures ring.written <= ring.submitted
  {
  }

  lemma SendQueues(limits: M.Limits, ring: M.State, size: nat, packet: seq<Byte>)
    requires Working(limits, ring, size) && ring.producer.Idle? && |packet| <= size
    ensures M.Apply(M.Unbounded, limits, ring, M.Send(packet)).Some?
    ensures var t := M.Apply(M.Unbounded, limits, ring, M.Send(packet)).value;
            && Working(limits, t, size) && |ring.written| <= |ring.submitted| && |t.written| <= |t.submitted|
            && Queue(t) == Queue(ring) + [packet]
  {
    hide S.Inv;
    WorkingQueue(limits, ring, size);
    S.ApplyKeepsInv(limits, ring, M.Send(packet));
  }

  /** Putting the packet in, step by step, changes nothing to the outside. */
  lemma ProducerStutters(limits: M.Limits, ring: M.State, size: nat)
    requires Working(limits, ring, size) && M.StepProducer(M.Unbounded, ring).Some?
    ensures var t := M.StepProducer(M.Unbounded, ring).value;
            && Working(limits, t, size) && |ring.written| <= |ring.submitted| && |t.written| <= |t.submitted|
            && Queue(t) == Queue(ring)
  {
    hide S.Inv;
    WorkingQueue(limits, ring, size);
    S.ApplyKeepsInv(limits, ring, M.ProducerStep);
    var t := M.StepProducer(M.Unbounded, ring).value;
    WrittenWithin(limits, t);
    if ring.producer.Bump? {
      assert (ring.submitted + [ring.producer.packet])[|ring.written|..]
          == ring.submitted[|ring.written|..] + [ring.producer.packet];
    }
  }

  lemma WrittenWithin(limits: M.Limits, ring: M.State)
    requires S.Inv(limits, ring)
    ensures ring.written <= ring.submitted
  {
  }

  lemma ConsumerKeeps(limits: M.Limits, ring: M.State, cancel: bool)
    requires M.StepConsumer(M.Unbounded, limits, ring, cancel).Some?
    ensures var t := M.StepConsumer(M.Unbounded, limits, ring, cancel).value;
            && t.submitted == ring.submitted && t.producer == ring.producer && t.closed == ring.closed
            && ring.written <= t.written
            && |t.slots| == |ring.slots|
            && forall i :: 0 <= i < |t.slots| ==> t.slots[i].buf == ring.slots[i].buf
  {
  }

  /** What the writer hands over comes off the front of the queue. */
  lemma ConsumerDequeues(limits: M.Limits, ring: M.State, size: nat, cancel: bool)
    requires Working(limits, ring, size) && M.StepConsumer(M.Unbounded, limits, ring, cancel).Some?
    ensures var t := M.StepConsumer(M.Unbounded, limits, ring, cancel).value;
            && Working(limits, t, size)
            && |ring.written| <= |t.written| <= |t.submitted| && |ring.written| <= |ring.submitted|
            && Queue(ring) == t.written[|ring.written|..] + Queue(t)
  {
    hide S.Inv, M.StepConsumer;
    ConsumerKeeps(limits, ring, cancel);
    S.ApplyKeepsInv(limits, ring, M.ConsumerStep(cancel));
    WrittenWithin(limits, ring);
    WrittenWithin(limits, M.StepConsumer(M.Unbounded, limits, ring, cancel).value);
  }

  // Steps.

  /** Every step is one step of the path with queues, or none. */
  ghost predicate Mirrors(u: Setup, s: RingState, t: RingState, a: Option<Action>) {
    if a.None? then Abstract(t) == Abstract(s) else Apply(u, Abstract(s), a.value) == Some(Abstract(t))
  }

  lemma ReadMirrors(u: Setup, limits: M.Limits, s: RingState, a: RingAction)
    requires Sane(u) && RingInv(u, limits, s) && a.Read? && Step(u, limits, s, a).Some?
    ensures RingInv(u, limits, Step(u, limits, s, a).value)
    ensures Mirrors(u, s, Step(u, limits, s, a).value, Some(Input(a.session, a.datagram)))
  {
    hide Sane, Working, Queue, Send, EncodeFrame, TooLarge, M.Apply;
    var d := Datagram(a.session, Cut(a.datagram, u.maxPacket));
    SendFits(u, s.fed, d);
    var c := Send(u, s.fed, d);
    FrameFits(u, c.frame);
    SendQueues(limits, s.lanes[c.lane].ring, u.SlotSize(), EncodeFrame(c.frame));
    LanesMirror(s, Step(u, limits, s, a).value, c.lane);
  }

  lemma FrameFits(u: Setup, f: Frame)
    requires !TooLarge(u, f)
    ensures |EncodeFrame(f)| <= u.SlotSize()
  {
  }

  /** Changing one lane changes that lane of the abstraction. */
  lemma LanesMirror(s: RingState, t: RingState, lane: nat)
    requires lane < |s.lanes| && |t.lanes| == |s.lanes| && t.lanes == s.lanes[lane := t.lanes[lane]]
    ensures Abstract(t).lanes == Abstract(s).lanes[lane := AsLane(t.lanes[lane])]
  {
  }

  lemma ProducerMirrors(u: Setup, limits: M.Limits, s: RingState, a: RingAction)
    requires RingInv(u, limits, s) && a.Producer? && Step(u, limits, s, a).Some?
    ensures RingInv(u, limits, Step(u, limits, s, a).value)
    ensures Mirrors(u, s, Step(u, limits, s, a).value, None)
  {
    hide Queue, M.StepProducer, S.Inv;
    ProducerStutters(limits, s.lanes[a.lane].ring, u.SlotSize());
    LanesMirror(s, Step(u, limits, s, a).value, a.lane);
  }

  lemma ConsumerMirrors(u: Setup, limits: M.Limits, s: RingState, a: RingAction) returns (k: nat)
    requires RingInv(u, limits, s) && a.Consumer? && Step(u, limits, s, a).Some?
    ensures RingInv(u, limits, Step(u, limits, s, a).value)
    ensures Mirrors(u, s, Step(u, limits, s, a).value, Some(Flush(a.lane, k)))
  {
    hide Queue, Working, M.StepConsumer;
    var l, t := s.lanes[a.lane], Step(u, limits, s, a).value;
    ConsumerDequeues(limits, l.ring, u.SlotSize(), a.cancel);
    var handed := t.lanes[a.lane].ring.written[|l.ring.written|..];
    k := |handed|;
    assert Queue(l.ring)[..k] == handed && Queue(l.ring)[k..] == Queue(t.lanes[a.lane].ring);
    LanesMirror(s, t, a.lane);
  }

  lemma ArriveMirrors(u: Setup, limits: M.Limits, s: RingState, a: RingAction)
    requires RingInv(u, limits, s) && a.Arrive? && Step(u, limits, s, a).Some?
    ensures RingInv(u, limits, Step(u, limits, s, a).value)
    ensures Mirrors(u, s, Step(u, limits, s, a).value, Some(Traffic(a.lane, a.bytes, a.now)))
  {
    hide Queue, Working, FeedServer, ParseServer;
    LanesMirror(s, Step(u, limits, s, a).value, a.lane);
  }

  lemma InitialWorking(u: Setup, limits: M.Limits, capacity: nat)
    requires capacity > 0
    ensures RingInv(u, limits, RingInitial(u, capacity)) && Abstract(RingInitial(u, capacity)) == Initial(u)
  {
    S.InitialInv(limits, capacity, u.SlotSize());
    hide S.Inv;
    assert Queue(M.Initial(capacity, u.SlotSize())) == [];
  }

  lemma ReadsSnoc(u: Setup, actions: seq<Action>, a: Action)
    ensures Reads(u, actions + [a])
         == Reads(u, actions) + if a.Input? then [Datagram(a.session, Cut(a.datagram, u.maxPacket))] else []
  {
    assert (actions + [a])[..|actions|] == actions;
  }

  lemma RunSnoc(u: Setup, actions: seq<Action>, a: Action)
    requires Run(u, actions).Some?
    ensures Run(u, actions + [a]) == Apply(u, Run(u, actions).value, a)
  {
    assert (actions + [a])[..|actions|] == actions;
  }

  /** Every interleaving of the reader, the writers and the server with the ring machines is a run of the path
      with queues that reads the same datagrams. */
  lemma {:induction false} RingsRefineQueues(u: Setup, limits: M.Limits, capacity: nat, actions: seq<RingAction>)
    returns (mirror: seq<Action>)
    requires Sane(u) && capacity > 0 && RingRun(u, limits, capacity, actions).Some?
    ensures RingInv(u, limits, RingRun(u, limits, capacity, actions).value)
    ensures Run(u, mirror) == Some(Abstract(RingRun(u, limits, capacity, actions).value))
    ensures Reads(u, mirror) == RingReads(u, actions)
  {
    hide Sane, RingInv, Step, Abstract, Apply, Run, Cut;
    if |actions| == 0 {
      InitialWorking(u, limits, capacity);
      mirror := [];
      RunNothing(u);
    } else {
      var a := actions[|actions| - 1];
      var before := RingsRefineQueues(u, limits, capacity, actions[..|actions| - 1]);
      var s := RingRun(u, limits, capacity, actions[..|actions| - 1]).value;
      var b: Option<Action> := None;
      match a {
        case Read(session, datagram) =>
          ReadMirrors(u, limits, s, a);
          b := Some(Input(session, datagram));
        case Producer(lane) =>
          ProducerMirrors(u, limits, s, a);
        case Consumer(lane, cancel) =>
          var k := ConsumerMirrors(u, limits, s, a);
          b := Some(Flush(lane, k));
        case Arrive(lane, bytes, now) =>
          ArriveMirrors(u, limits, s, a);
          b := Some(Traffic(lane, bytes, now));
      }
      if b.Some? {
        RunSnoc(u, before, b.value);
        ReadsSnoc(u, before, b.value);
        mirror := before + [b.value];
      } else {
        mirror := before;
      }
    }
  }

  lemma RunNothing(u: Setup)
    ensures Run(u, []) == Some(Initial(u))
  {
  }

  /** Reader and writer are done with the lane, and nothing is on its way. */
  predicate RingIdle(l: RingLane) {
    l.ring.producer.Idle? && l.ring.written == l.ring.submitted && l.stream == []
  }

  /** End to end with the rings in place, striping off: in every interleaving of single loads and stores no packet
      is too large, the server discards nothing, a session's backend has at every moment the beginning of that
      session's packets, and all of them once its lane is idle. */
  lemma EndToEndRings(u: Setup, limits: M.Limits, capacity: nat, actions: seq<RingAction>, session: U32)
    requires Sane(u) && !u.striped && capacity > 0 && RingRun(u, limits, capacity, actions).Some?
    requires Harmless(u, RingReads(u, actions))
    ensures var s := RingRun(u, limits, capacity, actions).value;
            && s.fed == RingReads(u, actions)
            && s.tooLarge == 0 && s.discarded == 0
            && Received(u, Abstract(s), session) <= Inputs(s.fed, session)
            && |s.lanes| == u.lanes
            && (RingIdle(s.lanes[session % u.lanes]) ==> Received(u, Abstract(s), session) == Inputs(s.fed, session))
  {
    hide Sane, RingInv, Step, Apply, Run, RingRun, Received, Inputs, Harmless, Reads, RingReads;
    var mirror := RingsRefineQueues(u, limits, capacity, actions);
    EndToEnd(u, mirror, session);
    var s := RingRun(u, limits, capacity, actions).value;
  }

  /** With striping on and the rings in place: at every moment the backend has packets of its session only, each
      undamaged, in strictly increasing order of their numbers. */
  lemma StripedAlwaysRings(u: Setup, limits: M.Limits, capacity: nat, cfg: R.Config, actions: seq<RingAction>,
                           session: U32, writes: R.Writes)
    requires Sane(u) && u.striped && capacity > 0 && RingRun(u, limits, capacity, actions).Some?
    requires Harmless(u, RingReads(u, actions)) && |Inputs(RingReads(u, actions), session)| < R.MAX_NUMBER
    ensures var s := RingRun(u, limits, capacity, actions).value;
            && s.fed == RingReads(u, actions)
            && var delivered := R.Run(cfg, T.Arrivals(u.cipher, s.handled, s.times, session), writes).ledger.delivered;
               && RO.Increasing(delivered)
               && forall i :: 0 <= i < |delivered| ==> T.Genuine(delivered[i], Inputs(s.fed, session))
  {
    hide Sane, RingInv, Step, Apply, Run, RingRun, Inputs, Harmless, Reads, RingReads, R.Run, T.Arrivals;
    var mirror := RingsRefineQueues(u, limits, capacity, actions);
    RunReads(u, mirror);
    T.StripedAlways(u, cfg, mirror, session, writes);
  }

  /** And once nothing is left on the way, under the conditions of EndToEndStriped, all of the session's packets in
      order. */
  lemma EndToEndStripedRings(u: Setup, limits: M.Limits, capacity: nat, cfg: R.Config, actions: seq<RingAction>,
                             session: U32, skew: nat, writes: R.Writes)
    requires Sane(u) && u.striped && capacity > 0 && RingRun(u, limits, capacity, actions).Some?
    requires Harmless(u, RingReads(u, actions)) && |Inputs(RingReads(u, actions), session)| < R.MAX_NUMBER
    requires forall l :: 0 <= l < |RingRun(u, limits, capacity, actions).value.lanes| ==>
               RingIdle(RingRun(u, limits, capacity, actions).value.lanes[l])
    requires var lanes := T.ArrivalLanes(RingRun(u, limits, capacity, actions).value.handled, session);
             && SP.BoundedSkew(lanes, |Inputs(RingReads(u, actions), session)|, u.lanes, skew)
             && (|lanes| > 0 ==> lanes[0] == 1 % u.lanes)
    requires (skew + 1) * u.lanes <= cfg.Window() && C.WindowFits(cfg) && R.AllSucceed(writes)
    requires var s := RingRun(u, limits, capacity, actions).value;
             C.Timely(cfg, T.Arrivals(u.cipher, s.handled, s.times, session), writes)
    ensures var s := RingRun(u, limits, capacity, actions).value;
            RS.Payloads(R.Run(cfg, T.Arrivals(u.cipher, s.handled, s.times, session), writes).ledger.delivered)
            == Inputs(s.fed, session)
  {
    hide Sane, RingInv, Step, Apply, Run, RingRun, Inputs, Harmless, Reads, RingReads, R.Run, T.Arrivals,
      T.ArrivalLanes, C.Timely, SP.BoundedSkew, R.AllSucceed;
    var mirror := RingsRefineQueues(u, limits, capacity, actions);
    RunReads(u, mirror);
    T.EndToEndStriped(u, cfg, mirror, session, skew, writes);
  }
}

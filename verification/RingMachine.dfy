/** The upstream ring between its producer (sendToUpstream), its consumer (handleUpstreamWrites) and
    Stop, one atomic step at a time: every load, store and slot access of the three threads is a step
    of its own, and a run is any interleaving of such steps. */
module RingMachine {
  import opened Bytes
  import opened RingWords

  /** Counters either count forever, with slots chosen by remainder, or are 64-bit words that wrap,
      with slots chosen by masking, as in the code. */
  datatype Mode = Unbounded | Wrapping

  function Inc(m: Mode, x: nat): nat {
    if m.Unbounded? then x + 1 else (x + 1) % WORD
  }

  function Distance(m: Mode, t: nat, f: nat): int {
    if m.Unbounded? then t - f else (t - f) % WORD
  }

  function SlotOf(m: Mode, x: nat, capacity: nat): nat
    requires capacity > 0
  {
    if m.Unbounded? then x % capacity else BitAnd(x, capacity - 1)
  }

  /** upstreamPacket: its buffer, and the length of the part of it that is data. */
  datatype Slot = Slot(buf: seq<Byte>, size: nat) {
    predicate Fits() {
      size <= |buf|
    }

    function Data(): seq<Byte>
      requires Fits()
    {
      buf[..size]
    }
  }

  datatype Producer =
    | Idle
    | LoadClosed(packet: seq<Byte>)                    // acquire: about to load closed
    | LoadTail(packet: seq<Byte>)
    | LoadFree(packet: seq<Byte>, tail: nat)           // has loaded tail, about to load freeHead
    | Acquired(packet: seq<Byte>, slot: nat)           // about to empty the slot's data
    | CheckSize(packet: seq<Byte>, slot: nat)
    | Fill(packet: seq<Byte>, slot: nat, done: nat)    // copying the packet into the slot, byte by byte
    | Submit(packet: seq<Byte>, slot: nat)             // about to load closed
    | Bump(packet: seq<Byte>, slot: nat)               // about to add 1 to tail
    | Discard(slot: nat)

  datatype Consumer =
    | Pop                                  // batch empty, about to load tail
    | PopClosed                            // saw the ring empty, about to load closed
    | Delay                                // first packet in the batch: the timer
    | More                                 // about to try for another packet
    | Writing(k: nat, last: bool)          // about to hand batch[k] to writeUpstreamBatch
    | Releasing(k: nat, last: bool)        // about to empty batch[k]
    | Bumping(k: nat, last: bool)          // about to add 1 to freeHead
    | Exited(cancelled: bool)

  datatype State = State(
    slots: seq<Slot>, tail: nat, freeHead: nat, readHead: nat, closed: bool,
    producer: Producer, consumer: Consumer, batch: seq<nat>, batchBytes: nat,
    submitted: seq<seq<Byte>>, written: seq<seq<Byte>>)
  {
    function Capacity(): nat {
      |slots|
    }
  }

  datatype Limits = Limits(maxPackets: int, maxBytes: int)

  /** What the scheduler picks: a new packet for the producer, a producer step, a consumer step (told
      whether the timer is cut short by ctx.Done), or Stop closing the ring. */
  datatype Action = Send(packet: seq<Byte>) | ProducerStep | ConsumerStep(cancel: bool) | Close

  function Initial(capacity: nat, packetSize: nat): State {
    State(seq(capacity, _ => Slot(seq(packetSize, _ => 0), 0)), 0, 0, 0, false, Idle, Pop, [], 0, [], [])
  }

  function SetSize(s: State, slot: nat, size: nat): State
    requires slot < |s.slots|
  {
    s.(slots := s.slots[slot := s.slots[slot].(size := size)])
  }

  function StepProducer(m: Mode, s: State): Option<State> {
    match s.producer
    case Idle => None
    case LoadClosed(packet) =>
      Some(s.(producer := if s.closed then Idle else LoadTail(packet)))
    case LoadTail(packet) =>
      Some(s.(producer := LoadFree(packet, s.tail)))
    case LoadFree(packet, tail) =>
      if s.Capacity() == 0 then None
      else if Distance(m, tail, s.freeHead) < s.Capacity() then
        Some(s.(producer := Acquired(packet, SlotOf(m, tail, s.Capacity()))))
      else Some(s.(producer := LoadClosed(packet)))
    case Acquired(packet, slot) =>
      if slot >= |s.slots| then None
      else Some(SetSize(s, slot, 0).(producer := CheckSize(packet, slot)))
    case CheckSize(packet, slot) =>
      if slot >= |s.slots| then None
      else Some(s.(producer := if |packet| > |s.slots[slot].buf| then Discard(slot) else Fill(packet, slot, 0)))
    case Fill(packet, slot, done) =>
      if slot >= |s.slots| then None
      else if done >= |packet| then Some(SetSize(s, slot, |packet|).(producer := Submit(packet, slot)))
      else if done >= |s.slots[slot].buf| then None
      else
        var filled := s.slots[slot].(buf := s.slots[slot].buf[done := packet[done]]);
        Some(s.(slots := s.slots[slot := filled], producer := Fill(packet, slot, done + 1)))
    case Submit(packet, slot) =>
      Some(s.(producer := if s.closed then Discard(slot) else Bump(packet, slot)))
    case Bump(packet, slot) =>
      Some(s.(tail := Inc(m, s.tail), producer := Idle, submitted := s.submitted + [packet]))
    case Discard(slot) =>
      if slot >= |s.slots| then None
      else Some(SetSize(s, slot, 0).(producer := Idle))
  }

  predicate RoomInBatch(l: Limits, s: State) {
    |s.batch| < l.maxPackets && s.batchBytes < l.maxBytes
  }

  /** Takes the slot at readHead into the batch. */
  function Take(m: Mode, s: State, next: Consumer): Option<State> {
    if s.Capacity() == 0 || SlotOf(m, s.readHead, s.Capacity()) >= |s.slots| then None
    else
      var slot := SlotOf(m, s.readHead, s.Capacity());
      Some(s.(readHead := Inc(m, s.readHead), batch := s.batch + [slot],
              batchBytes := s.batchBytes + s.slots[slot].size, consumer := next))
  }

  function StepConsumer(m: Mode, l: Limits, s: State, cancel: bool): Option<State> {
    match s.consumer
    case Pop =>
      if s.readHead == s.tail then Some(s.(consumer := PopClosed)) else Take(m, s, Delay)
    case PopClosed =>
      Some(s.(consumer := if s.closed then Exited(false) else Pop))
    case Delay =>
      Some(s.(consumer := if RoomInBatch(l, s) && cancel then Writing(0, true) else More))
    case More =>
      if !RoomInBatch(l, s) || s.readHead == s.tail then Some(s.(consumer := Writing(0, false)))
      else Take(m, s, More)
    case Writing(k, last) =>
      if k >= |s.batch| then Some(s.(consumer := Releasing(0, last)))
      else if s.batch[k] >= |s.slots| || !s.slots[s.batch[k]].Fits() then None
      else Some(s.(written := s.written + [s.slots[s.batch[k]].Data()], consumer := Writing(k + 1, last)))
    case Releasing(k, last) =>
      if k >= |s.batch| then Some(s.(batch := [], batchBytes := 0, consumer := if last then Exited(true) else Pop))
      else if s.batch[k] >= |s.slots| then None
      else Some(SetSize(s, s.batch[k], 0).(consumer := Bumping(k, last)))
    case Bumping(k, last) =>
      Some(s.(freeHead := Inc(m, s.freeHead), consumer := Releasing(k + 1, last)))
    case Exited(_) => None
  }

  function Apply(m: Mode, l: Limits, s: State, a: Action): Option<State> {
    match a
    case Send(packet) => if s.producer.Idle? then Some(s.(producer := LoadClosed(packet))) else None
    case ProducerStep => StepProducer(m, s)
    case ConsumerStep(cancel) => StepConsumer(m, l, s, cancel)
    case Close => Some(s.(closed := true))
  }

  /** The state after a run; None if some step of it was not possible. */
  function Run(m: Mode, l: Limits, s: State, actions: seq<Action>): Option<State> {
    if |actions| == 0 then Some(s)
    else
      match Run(m, l, s, actions[..|actions| - 1])
      case None => None
      case Some(t) => Apply(m, l, t, actions[|actions| - 1])
  }
}

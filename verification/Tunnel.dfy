/** The upstream path as a whole: datagrams of many sessions are numbered, encrypted and framed, wait in the
    ring of a lane, go out in batches, cross TCP in arbitrary pieces, and are cut into frames and decrypted by
    the server (internal/client/client.go: handleUDP, sendToUpstream, handleUpstreamWrites,
    writeUpstreamBatch; internal/server/handlers.go: UpstreamHandler.OnTraffic; internal/server/server.go:
    handleUpstreamPacket). Lanes are connected throughout and writes to them succeed. */
module Tunnel {
  import opened Bytes
  import opened Packet
  import opened Framing
  import opened ServerFraming

  /** A cipher: the second argument of encrypt stands for the randomness of that encryption. */
  datatype Cipher = Cipher(encrypt: (seq<Byte>, nat) -> seq<Byte>, decrypt: seq<Byte> -> Option<seq<Byte>>, overhead: nat)

  ghost predicate Sound(c: Cipher) {
    forall p: seq<Byte>, r: nat ::
      |c.encrypt(p, r)| == |p| + c.overhead && c.decrypt(c.encrypt(p, r)) == Some(p)
  }

  /** maxPacket and serverMax are MaxPacketSize in the client's and in the server's configuration; zero is how
      gnet's Next(0) behaves. */
  datatype Setup = Setup(
    lanes: nat, striped: bool, maxPacket: nat, serverMax: nat, cipher: Cipher, zero: NextOfNone) {
    /** The size of a ring slot's buffer. */
    function SlotSize(): nat {
      HEADER_SIZE + maxPacket + cipher.overhead
    }

    /** What the server's OnTraffic loop accepts. */
    function ServerLimit(): Limit {
      AtMost(serverMax + cipher.overhead)
    }
  }

  ghost predicate Sane(u: Setup) {
    && 0 < u.lanes < WRAP
    && u.maxPacket <= u.serverMax && u.maxPacket + u.cipher.overhead < WRAP
    && Sound(u.cipher)
  }

  datatype Datagram = Datagram(session: U32, payload: seq<Byte>)

  /** A frame and the lane it travels on. */
  datatype Carried = Carried(lane: nat, frame: Frame)

  /** One lane: the frames in its ring, the bytes on their way, the server's inbound buffer. */
  datatype Lane = Lane(queue: seq<seq<Byte>>, stream: seq<Byte>, inbound: seq<Byte>)

  datatype State = State(
    fed: seq<Datagram>, lanes: seq<Lane>, handled: seq<Carried>, times: seq<int>, tooLarge: nat, discarded: nat)

  datatype Action =
    | Input(session: U32, datagram: seq<Byte>)  // handleUDP reads a datagram for this session
    | Flush(lane: nat, frames: nat)             // a batch of that many frames is written
    | Traffic(lane: nat, bytes: nat, now: int)  // that many bytes reach the server

  // The client.

  /** ReadFromUDPAddrPort into a buffer of MaxPacketSize bytes cuts longer datagrams. */
  function Cut(datagram: seq<Byte>, max: nat): seq<Byte> {
    if |datagram| <= max then datagram else datagram[..max]
  }

  function Count(fed: seq<Datagram>, session: U32): nat {
    if |fed| == 0 then 0
    else Count(fed[..|fed| - 1], session) + (if fed[|fed| - 1].session == session then 1 else 0)
  }

  /** NextSequenceID after the session's earlier packets. */
  function NextNumber(fed: seq<Datagram>, session: U32): U32 {
    (Count(fed, session) + 1) % WRAP
  }

  /** selectUpstreamLane. */
  function SelectLane(u: Setup, session: U32, number: U32): nat
    requires u.lanes > 0
  {
    if u.striped then number % u.lanes else session % u.lanes
  }

  /** What sendToUpstream makes of a packet after those in fed. */
  function Send(u: Setup, fed: seq<Datagram>, d: Datagram): Carried
    requires u.lanes > 0
  {
    var number := NextNumber(fed, d.session);
    Carried(SelectLane(u, d.session, number),
            DataFrame(d.session, number, u.cipher.encrypt(d.payload, |fed|)))
  }

  predicate TooLarge(u: Setup, f: Frame) {
    HEADER_SIZE + |f.payload| > u.SlotSize()
  }

  /** All that has been put in rings. */
  function Sent(u: Setup, fed: seq<Datagram>): seq<Carried>
    requires u.lanes > 0
  {
    if |fed| == 0 then []
    else
      var c := Send(u, fed[..|fed| - 1], fed[|fed| - 1]);
      Sent(u, fed[..|fed| - 1]) + (if TooLarge(u, c.frame) then [] else [c])
  }

  function OnLane(log: seq<Carried>, lane: nat): seq<Frame> {
    if |log| == 0 then []
    else
      var c := log[|log| - 1];
      OnLane(log[..|log| - 1], lane) + (if c.lane == lane then [c.frame] else [])
  }

  function Carry(lane: nat, frames: seq<Frame>): seq<Carried> {
    seq(|frames|, i requires 0 <= i < |frames| => Carried(lane, frames[i]))
  }

  function Apply(u: Setup, s: State, a: Action): Option<State> {
    match a
    case Input(session, datagram) =>
      var d := Datagram(session, Cut(datagram, u.maxPacket));
      if u.lanes == 0 then None
      else
        var c := Send(u, s.fed, d);
        var after := s.(fed := s.fed + [d]);
        if TooLarge(u, c.frame) then Some(after.(tooLarge := s.tooLarge + 1))
        else if c.lane >= |s.lanes| then None
        else
          var l := s.lanes[c.lane];
          Some(after.(lanes := s.lanes[c.lane := l.(queue := l.queue + [EncodeFrame(c.frame)])]))
    case Flush(lane, frames) =>
      if lane >= |s.lanes| || frames > |s.lanes[lane].queue| then None
      else
        var l := s.lanes[lane];
        Some(s.(lanes := s.lanes[lane :=
          l.(queue := l.queue[frames..], stream := l.stream + Flatten(l.queue[..frames]))]))
    case Traffic(lane, bytes, now) =>
      if lane >= |s.lanes| || bytes > |s.lanes[lane].stream| then None
      else
        var l := s.lanes[lane];
        var taken := FeedServer(l.inbound, l.stream[..bytes], u.ServerLimit(), u.zero);
        Some(s.(lanes := s.lanes[lane := l.(stream := l.stream[bytes..], inbound := taken.rest)],
                handled := s.handled + Carry(lane, taken.frames),
                times := s.times + seq(|taken.frames|, _ => now),
                discarded := s.discarded
                             + if ParseServer(l.inbound + l.stream[..bytes], u.ServerLimit(), u.zero).malformed then 1 else 0))
  }

  function Initial(u: Setup): State {
    State([], seq(u.lanes, _ => Lane([], [], [])), [], [], 0, 0)
  }

  function Run(u: Setup, actions: seq<Action>): (r: Option<State>)
    ensures r.Some? ==> |r.value.times| == |r.value.handled|
  {
    if |actions| == 0 then Some(Initial(u))
    else
      match Run(u, actions[..|actions| - 1])
      case None => None
      case Some(s) => Apply(u, s, actions[|actions| - 1])
  }

  // What the server gets out of the frames.

  function Frames(log: seq<Carried>): seq<Frame> {
    seq(|log|, i requires 0 <= i < |log| => log[i].frame)
  }

  function OfSession(frames: seq<Frame>, session: U32): seq<Frame> {
    if |frames| == 0 then []
    else
      var f := frames[|frames| - 1];
      OfSession(frames[..|frames| - 1], session) + (if f.header.session == session then [f] else [])
  }

  /** Decrypted payloads; what does not decrypt is dropped. */
  function Decrypted(cipher: Cipher, frames: seq<Frame>): seq<seq<Byte>> {
    if |frames| == 0 then []
    else
      var plain := cipher.decrypt(frames[|frames| - 1].payload);
      Decrypted(cipher, frames[..|frames| - 1]) + (if plain.Some? then [plain.value] else [])
  }

  /** What writeUpstreamToBackend writes to the session's backend when striping is off. */
  function Received(u: Setup, s: State, session: U32): seq<seq<Byte>> {
    Decrypted(u.cipher, OfSession(Frames(s.handled), session))
  }

  /** The packets read from the session's peer. */
  function Inputs(fed: seq<Datagram>, session: U32): seq<seq<Byte>> {
    if |fed| == 0 then []
    else
      Inputs(fed[..|fed| - 1], session)
      + (if fed[|fed| - 1].session == session then [fed[|fed| - 1].payload] else [])
  }

  /** The datagrams of a list of actions as they are read. */
  function Reads(u: Setup, actions: seq<Action>): seq<Datagram> {
    if |actions| == 0 then []
    else
      var a := actions[|actions| - 1];
      Reads(u, actions[..|actions| - 1])
      + (if a.Input? then [Datagram(a.session, Cut(a.datagram, u.maxPacket))] else [])
  }

  /** No frame has an empty payload, or Next(0) takes nothing: the server's loop is never made to swallow bytes
      of the next frame. */
  ghost predicate Harmless(u: Setup, fed: seq<Datagram>) {
    TakesNothing(u.zero) || u.cipher.overhead > 0 || forall i :: 0 <= i < |fed| ==> fed[i].payload != []
  }

  // What always holds.

  /** all: the frames put on the lane; done: those the server has handled. The rest of them is exactly the
      bytes on their way, from the inbound buffer back to the ring. */
  ghost predicate LaneInv(all: seq<Frame>, done: seq<Frame>, lane: Lane, limit: Limit) {
    && done <= all && AllAcceptable(all, limit)
    && Incomplete(lane.inbound, limit)
    && lane.inbound + lane.stream + Flatten(lane.queue) == EncodeFrames(all[|done|..])
  }

  ghost predicate Inv(u: Setup, s: State) {
    && u.lanes > 0 && |s.lanes| == u.lanes && |s.times| == |s.handled|
    && s.tooLarge == 0 && s.discarded == 0
    && (forall i :: 0 <= i < |s.fed| ==> |s.fed[i].payload| <= u.maxPacket)
    && (forall i :: 0 <= i < |s.handled| ==> s.handled[i].lane < u.lanes)
    && (forall l :: 0 <= l < u.lanes ==>
          LaneInv(OnLane(Sent(u, s.fed), l), OnLane(s.handled, l), s.lanes[l], u.ServerLimit()))
  }
}

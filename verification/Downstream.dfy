/** The downstream path across lost and replaced connections: datagrams the server reads from its backends are
    encrypted, framed and queued on the session's lane, written in batches to whatever connection the lane
    has, read by the client from the one connection it is reading, and handed to the sessions' peers
    (internal/server/server.go: handleBackendData, sendToDownstream, downstreamWriter.run;
    internal/client/client.go: manageDownstreamConnection, handleDownstream, handleDownstreamPacket). Which
    connection a lane writes to changes at any time and in any way; the lanes protocol is module Lanes. */
module Downstream {
  import opened Bytes
  import opened Packet
  import opened Framing
  import opened Tunnel

  /** serverMax and clientMax are MaxPacketSize in the two configurations. */
  datatype Path = Path(lanes: nat, serverMax: nat, clientMax: nat, cipher: Cipher) {
    /** The payload limit of the client's StreamBuffer. */
    function ClientLimit(): Limit {
      StreamBufferLimit(clientMax + cipher.overhead + 2048)
    }
  }

  ghost predicate Possible(p: Path) {
    0 < p.lanes < WRAP && p.serverMax + p.cipher.overhead < WRAP && Sound(p.cipher)
  }

  ghost predicate Fits(p: Path) {
    Possible(p) && p.serverMax <= p.clientMax + 2048
  }

  /** One lane. Connections are numbered as they are dialled. current: the one the server writes to; reading: the
      one the client reads; stream: the bytes on that one not read yet; unread: what the client's StreamBuffer
      holds. Bytes on any other connection are never read. */
  datatype DownLane = DownLane(
    queue: seq<Frame>, current: Option<nat>, reading: Option<nat>, dialled: nat, stream: seq<Byte>, unread: seq<Byte>)

  /** fed: the datagrams read from backends; sent: the frames that got into a queue; taken: the frames the client
      found; handed: what it wrote to its sessions' peers; resets: how often it met a bad header. */
  datatype DownState = DownState(
    fed: seq<Datagram>, lanes: seq<DownLane>, sent: seq<Carried>, taken: seq<Carried>, handed: seq<Datagram>, resets: nat)

  datatype DownAction =
    | BackendRead(session: U32, number: U32, datagram: seq<Byte>, room: bool)  // room: the lane's queue is not full
    | Write(lane: nat, frames: nat, ok: bool)                                  // a batch; ok: AsyncWritev takes it
    | SetConn(lane: nat, c: nat)
    | ClearConn(lane: nat)
    | Dial(lane: nat)
    | Lose(lane: nat)
    | Receive(lane: nat, bytes: nat, keep: nat -> bool)  // keep(i): the session is known and the peer can be written to

  function DownFrame(p: Path, fed: seq<Datagram>, d: Datagram, number: U32): Frame {
    DataFrame(d.session, number, p.cipher.encrypt(d.payload, |fed|))
  }

  /** What handleDownstream and handleDownstreamPacket write to the peers for these frames. */
  function Handed(cipher: Cipher, frames: seq<Frame>, keep: nat -> bool): seq<Datagram> {
    if |frames| == 0 then []
    else
      var n := |frames| - 1;
      var f := frames[n];
      var plain := cipher.decrypt(f.payload);
      Handed(cipher, frames[..n], keep)
      + (if f.header.kind != TYPE_CONTROL && f.header.kind != TYPE_HEARTBEAT && plain.Some? && keep(n)
         then [Datagram(f.header.session, plain.value)] else [])
  }

  function DownStep(p: Path, s: DownState, a: DownAction): Option<DownState> {
    match a
    case BackendRead(session, number, datagram, room) =>
      if p.lanes == 0 || session % p.lanes >= |s.lanes| then None
      else
        var d := Datagram(session, Cut(datagram, p.serverMax));
        var f, lane := DownFrame(p, s.fed, d, number), session % p.lanes;
        var after := s.(fed := s.fed + [d]);
        var l := s.lanes[lane];
        Some(if !room then after
             else after.(sent := s.sent + [Carried(lane, f)], lanes := s.lanes[lane := l.(queue := l.queue + [f])]))
    case Write(lane, frames, ok) =>
      if lane >= |s.lanes| || frames > |s.lanes[lane].queue| then None
      else
        var l := s.lanes[lane];
        var rest := l.(queue := l.queue[frames..]);
        Some(s.(lanes := s.lanes[lane :=
          if ok && l.current.Some? && l.current == l.reading
          then rest.(stream := l.stream + EncodeFrames(l.queue[..frames])) else rest]))
    case SetConn(lane, c) =>
      if lane >= |s.lanes| || c >= s.lanes[lane].dialled then None
      else Some(s.(lanes := s.lanes[lane := s.lanes[lane].(current := Some(c))]))
    case ClearConn(lane) =>
      if lane >= |s.lanes| then None
      else Some(s.(lanes := s.lanes[lane := s.lanes[lane].(current := None)]))
    case Dial(lane) =>
      if lane >= |s.lanes| || s.lanes[lane].reading.Some? then None
      else
        var l := s.lanes[lane];
        Some(s.(lanes := s.lanes[lane :=
          l.(reading := Some(l.dialled), dialled := l.dialled + 1, stream := [], unread := [])]))
    case Lose(lane) =>
      if lane >= |s.lanes| then None
      else Some(s.(lanes := s.lanes[lane := s.lanes[lane].(reading := None, stream := [], unread := [])]))
    case Receive(lane, bytes, keep) =>
      if lane >= |s.lanes| || s.lanes[lane].reading.None? || bytes > |s.lanes[lane].stream| then None
      else
        var l := s.lanes[lane];
        var chunk := l.stream[..bytes];
        var got := Feed(l.unread, chunk, p.ClientLimit());
        Some(s.(lanes := s.lanes[lane := l.(stream := l.stream[bytes..], unread := got.rest)],
                taken := s.taken + Carry(lane, got.frames),
                handed := s.handed + Handed(p.cipher, got.frames, keep),
                resets := s.resets + if Parse(l.unread + chunk, p.ClientLimit()).malformed then 1 else 0))
  }

  function DownInitial(p: Path): DownState {
    DownState([], seq(p.lanes, _ => DownLane([], None, None, 0, [], [])), [], [], [], 0)
  }

  function DownRun(p: Path, actions: seq<DownAction>): Option<DownState> {
    if |actions| == 0 then Some(DownInitial(p))
    else
      match DownRun(p, actions[..|actions| - 1])
      case None => None
      case Some(s) => DownStep(p, s, actions[|actions| - 1])
  }
}

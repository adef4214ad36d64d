/** Downstream lanes between any number of clients and one server (internal/client/client.go,
    internal/server/handlers.go, internal/server/server.go): sessions are announced over register queues
    and control frames, connections come and go, and the server keeps a connection per lane and a
    session-to-lane cache. Steps of different clients, control loops and connections interleave freely. */
module Lanes {
  import opened Bytes
  import opened Control

  type Conn = nat
  type Client = nat

  const REGISTER_QUEUE: nat := 4096

  /** The server's part of a control frame that is being handled: which lane still has to be pointed at
      the connection, then which sessions still have to be stored. */
  datatype Work = Rest | Attach(lane: nat, ids: seq<U32>) | Store(lane: nat, ids: seq<U32>)

  /** A connection and everything that exists once per connection: who dialled it for which lane, the
      pending set of its control loop, the frames on their way, and the server's context for it. */
  datatype Link = Link(
    client: Client, lane: nat, pending: set<U32>, wire: seq<LaneControl>,
    open: bool, ctxLane: Option<nat>, work: Work)

  datatype ClientLane = ClientLane(conn: Option<Conn>, queue: seq<U32>)

  datatype State = State(
    lanes: map<(Client, nat), ClientLane>, links: map<Conn, Link>,
    writers: seq<Option<Conn>>, sessionLane: map<U32, nat>)

  datatype Action =
    | Announce(client: Client, session: U32)        // registerSessionOnLane
    | Connect(client: Client, lane: nat, c: Conn)   // manageDownstreamConnection got a connection
    | Lose(client: Client, lane: nat)               // the client drops its connection
    | SendHello(c: Conn)
    | SendHeartbeat(c: Conn)
    | RegisterAll(client: Client, lane: nat, ids: seq<U32>)
    | TakeSession(c: Conn)                          // a control loop reads its register queue
    | FlushPending(c: Conn, ids: seq<U32>)
    | Discard(c: Conn)                              // the server drops what it has buffered
    | Serve(c: Conn)                                // the server handles one step of the next frame
    | OnClose(c: Conn)
    | Expire(session: U32)                          // the server forgets a session

  /** laneCounts(client) is the number of downstream lanes of that client. */
  type LaneCounts = Client -> nat

  function LaneOf(s: State, k: (Client, nat)): ClientLane {
    if k in s.lanes then s.lanes[k] else ClientLane(None, [])
  }

  /** downstreamLaneForSession. */
  function ClientChoice(session: U32, laneCount: nat): nat
    requires laneCount > 0
  {
    session % laneCount
  }

  /** The conversion of lane numbers and lane counts to uint16. */
  function Cut(x: nat): U16 {
    x % 0x1_0000
  }

  /** sendLaneControl: the frame goes out on the lane's current connection, if it has one and the payload
      can be marshalled; lane number and count are cut to uint16. */
  function SendControl(counts: LaneCounts, s: State, k: (Client, nat), subtype: Byte, ids: seq<U32>): State {
    var lane := LaneOf(s, k);
    var ctrl := LaneControl(subtype, Cut(k.1), Cut(counts(k.0)), ids);
    if lane.conn.None? || lane.conn.value !in s.links || Marshal(ctrl).Err? then s
    else
      var c := lane.conn.value;
      s.(links := s.links[c := s.links[c].(wire := s.links[c].wire + [ctrl])])
  }

  /** What handleLaneControl decides from the connection's context: the new context lane and the work
      that follows, or nothing. */
  function Admit(laneCount: nat, ctxLane: Option<nat>, ctrl: LaneControl): Option<(nat, Work)> {
    if ctrl.laneCount != laneCount || ctrl.laneId >= laneCount then None
    else if ctrl.subtype == SUBTYPE_HELLO then Some((ctrl.laneId, Attach(ctrl.laneId, [])))
    else if ctrl.subtype == SUBTYPE_REGISTER then
      if ctxLane.Some? && ctxLane.value != ctrl.laneId then None
      else Some((ctrl.laneId, Attach(ctrl.laneId, ctrl.sessions)))
    else if ctrl.subtype == SUBTYPE_HEARTBEAT then
      Some((if ctxLane.Some? then ctxLane.value else ctrl.laneId, Attach(ctrl.laneId, [])))
    else None
  }

  /** One step of the server on a connection: take the next frame, or set the lane's connection, or
      store one session. */
  function StepServe(s: State, c: Conn): Option<State> {
    if c !in s.links || !s.links[c].open then None
    else
      var link := s.links[c];
      match link.work
      case Rest =>
        if |link.wire| == 0 then None
        else
          var next := link.(wire := link.wire[1..]);
          var admitted := Admit(|s.writers|, link.ctxLane, link.wire[0]);
          Some(s.(links := s.links[c :=
            if admitted.None? then next
            else next.(ctxLane := Some(admitted.value.0), work := admitted.value.1)]))
      case Attach(lane, ids) =>
        if lane >= |s.writers| then None
        else
          Some(s.(writers := s.writers[lane := Some(c)],
                  links := s.links[c := link.(work := if |ids| == 0 then Rest else Store(lane, ids))]))
      case Store(lane, ids) =>
        if |ids| == 0 then Some(s.(links := s.links[c := link.(work := Rest)]))
        else
          Some(s.(sessionLane := s.sessionLane[ids[0] := lane],
                  links := s.links[c := link.(work := if |ids| == 1 then Rest else Store(lane, ids[1..]))]))
  }

  /** DownstreamHandler.OnClose: clearConn on the context's lane, if it still has this connection. */
  function StepClose(s: State, c: Conn): Option<State> {
    if c !in s.links || !s.links[c].open || !s.links[c].work.Rest? then None
    else
      var link := s.links[c];
      var closed := s.(links := s.links[c := link.(open := false, wire := [])]);
      Some(
        if link.ctxLane.Some? && link.ctxLane.value < |s.writers| && s.writers[link.ctxLane.value] == Some(c)
        then closed.(writers := s.writers[link.ctxLane.value := None])
        else closed)
  }

  /** The ids may go into a register frame of this lane: registerAllSessionsForLane selects them so. */
  predicate ForLane(counts: LaneCounts, k: (Client, nat), ids: seq<U32>) {
    counts(k.0) > 0 && forall i :: 0 <= i < |ids| ==> ClientChoice(ids[i], counts(k.0)) == k.1
  }

  function Apply(counts: LaneCounts, s: State, a: Action): Option<State> {
    match a
    case Announce(client, session) =>
      if counts(client) == 0 then None
      else
        var k := (client, ClientChoice(session, counts(client)));
        var lane := LaneOf(s, k);
        Some(if |lane.queue| >= REGISTER_QUEUE then s
             else s.(lanes := s.lanes[k := lane.(queue := lane.queue + [session])]))
    case Connect(client, lane, c) =>
      var l := LaneOf(s, (client, lane));
      if l.conn.Some? || c in s.links || lane >= counts(client) then None
      else
        Some(s.(lanes := s.lanes[(client, lane) := l.(conn := Some(c))],
                links := s.links[c := Link(client, lane, {}, [], true, None, Rest)]))
    case Lose(client, lane) =>
      var l := LaneOf(s, (client, lane));
      Some(s.(lanes := s.lanes[(client, lane) := l.(conn := None)]))
    case SendHello(c) =>
      if c !in s.links then None
      else Some(SendControl(counts, s, (s.links[c].client, s.links[c].lane), SUBTYPE_HELLO, []))
    case SendHeartbeat(c) =>
      if c !in s.links then None
      else Some(SendControl(counts, s, (s.links[c].client, s.links[c].lane), SUBTYPE_HEARTBEAT, []))
    case RegisterAll(client, lane, ids) =>
      if !ForLane(counts, (client, lane), ids) then None
      else Some(SendControl(counts, s, (client, lane), SUBTYPE_REGISTER, ids))
    case TakeSession(c) =>
      if c !in s.links then None
      else
        var k := (s.links[c].client, s.links[c].lane);
        var lane := LaneOf(s, k);
        if |lane.queue| == 0 then None
        else
          Some(s.(lanes := s.lanes[k := lane.(queue := lane.queue[1..])],
                  links := s.links[c := s.links[c].(pending := s.links[c].pending + {lane.queue[0]})]))
    case FlushPending(c, ids) =>
      if c !in s.links || s.links[c].pending == {} || (set i | 0 <= i < |ids| :: ids[i]) != s.links[c].pending then None
      else
        var k := (s.links[c].client, s.links[c].lane);
        var t := s.(links := s.links[c := s.links[c].(pending := {})]);
        Some(SendControl(counts, t, k, SUBTYPE_REGISTER, ids))
    case Discard(c) =>
      if c !in s.links || |s.links[c].wire| == 0 then None
      else Some(s.(links := s.links[c := s.links[c].(wire := s.links[c].wire[1..])]))
    case Serve(c) => StepServe(s, c)
    case OnClose(c) => StepClose(s, c)
    case Expire(session) => Some(s.(sessionLane := s.sessionLane - {session}))
  }

  function Initial(laneCount: nat): State {
    State(map[], map[], seq(laneCount, _ => None), map[])
  }

  function Run(counts: LaneCounts, s: State, actions: seq<Action>): Option<State> {
    if |actions| == 0 then Some(s)
    else
      match Run(counts, s, actions[..|actions| - 1])
      case None => None
      case Some(t) => Apply(counts, t, actions[|actions| - 1])
  }

  /** laneForSession on the server. */
  function LaneForSession(s: State, session: U32): nat
    requires |s.writers| > 0
  {
    if session in s.sessionLane && s.sessionLane[session] < |s.writers| then s.sessionLane[session]
    else session % |s.writers|
  }

  // What always holds.

  predicate AllFor(ids: seq<U32>, laneCount: nat, lane: nat) {
    laneCount > 0 && forall i :: 0 <= i < |ids| ==> ids[i] % laneCount == lane
  }

  /** A link in order: everything it carries belongs to its lane, under the number control frames have for
      it, and the server has connected it to no other lane. */
  ghost predicate LinkInv(counts: LaneCounts, laneCount: nat, link: Link) {
    var n := counts(link.client);
    && link.lane < n
    && (forall id :: id in link.pending ==> id % n == link.lane)
    && (forall i :: 0 <= i < |link.wire| ==>
          && link.wire[i].laneId == Cut(link.lane) && link.wire[i].laneCount == Cut(n)
          && AllFor(link.wire[i].sessions, n, link.lane))
    && (link.ctxLane.Some? ==> Cut(n) == laneCount && link.ctxLane.value == Cut(link.lane))
    && (!link.work.Rest? ==>
          && link.open && link.ctxLane.Some?
          && link.work.lane == Cut(link.lane) && link.work.lane < laneCount && AllFor(link.work.ids, n, link.lane))
  }

  /** The connection was dialled for this lane. */
  predicate Carries(s: State, c: Conn, k: (Client, nat)) {
    c in s.links && s.links[c].client == k.0 && s.links[c].lane == k.1
  }

  ghost predicate Inv(counts: LaneCounts, s: State) {
    && |s.writers| > 0
    && (forall k :: k in s.lanes ==> s.lanes[k].queue == [] || AllFor(s.lanes[k].queue, counts(k.0), k.1))
    && (forall k :: k in s.lanes && s.lanes[k].conn.Some? ==> Carries(s, s.lanes[k].conn.value, k))
    && (forall c :: c in s.links ==> LinkInv(counts, |s.writers|, s.links[c]))
    && (forall id :: id in s.sessionLane ==> s.sessionLane[id] == id % |s.writers|)
    && (forall l :: 0 <= l < |s.writers| && s.writers[l].Some? ==>
          && s.writers[l].value in s.links && s.links[s.writers[l].value].open
          && s.links[s.writers[l].value].ctxLane == Some(l))
  }

  /** Every client's lane count fits the 16 bits control frames have for it. */
  ghost predicate CountsFit(counts: LaneCounts) {
    forall client :: 0 < counts(client) <= 0xFFFF
  }

  /** A client of n lanes that can announce this session at all names, in its uint16 fields, the lane the
      server's hash names. */
  predicate CutAgreesFor(n: nat, session: U32) {
    n > 0 && Cut(n) > 0 && Cut(session % n) < Cut(n) ==> session % Cut(n) == Cut(session % n)
  }

  ghost predicate CutAgrees(n: nat) {
    forall session: U32 :: CutAgreesFor(n, session)
  }

  /** Every client the server of laneCount lanes listens to names the lanes the server's hash names. */
  ghost predicate CountsAgree(counts: LaneCounts, laneCount: nat) {
    forall client :: Cut(counts(client)) == laneCount ==> CutAgrees(counts(client))
  }
}

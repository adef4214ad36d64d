/** The server's lane bookkeeping as it keeps it: lane writers, connection contexts and the session-to-lane
    cache, updated in place (internal/server/handlers.go: handleLaneControl, DownstreamHandler.OnClose;
    internal/server/server.go: setConn, clearConn, laneForSession). Each method is several steps of
    module Lanes, taken without interruption. */
module LaneServers {
  import opened Bytes
  import opened Control
  import opened Lanes
  import opened LanesSafety

  /** The server works on until the frame in hand is finished. */
  function Finish(s: State, c: Conn): State
    decreases if c in s.links && !s.links[c].work.Rest? then 1 + |s.links[c].work.ids| else 0,
              if c in s.links && s.links[c].work.Attach? then 1 else 0
  {
    if c !in s.links || s.links[c].work.Rest? then s
    else
      match StepServe(s, c)
      case None => s
      case Some(t) => Finish(t, c)
  }

  /** The next frame of a connection, handled from beginning to end. */
  function HandleFrame(s: State, c: Conn): State
    requires StepServe(s, c).Some?
  {
    Finish(StepServe(s, c).value, c)
  }

  /** The connection is open, idle, and has a frame to be handled. */
  predicate HasFrame(s: State, c: Conn) {
    c in s.links && s.links[c].open && s.links[c].work.Rest? && |s.links[c].wire| > 0
  }

  lemma {:induction false} FinishKeeps(counts: LaneCounts, s: State, c: Conn)
    requires Inv(counts, s) && CountsAgree(counts, |s.writers|)
    ensures Inv(counts, Finish(s, c)) && |Finish(s, c).writers| == |s.writers|
    decreases if c in s.links && !s.links[c].work.Rest? then 1 + |s.links[c].work.ids| else 0,
              if c in s.links && s.links[c].work.Attach? then 1 else 0
  {
    hide Inv, CountsAgree;
    if c in s.links && !s.links[c].work.Rest? && StepServe(s, c).Some? {
      ApplyKeeps(counts, s, Serve(c));
      FinishKeeps(counts, StepServe(s, c).value, c);
    }
  }

  /** The cache after a register message: the listed sessions have this lane, the others what they had. */
  ghost predicate Stored(before: map<U32, nat>, after: map<U32, nat>, ids: seq<U32>, lane: nat) {
    && (forall id :: id in after <==> id in before || id in ids)
    && (forall id :: id in after ==> after[id] == if id in ids then lane else before[id])
  }

  lemma {:induction false} FinishStores(s: State, c: Conn, lane: nat, ids: seq<U32>)
    requires c in s.links && s.links[c].open
    requires s.links[c].work == if |ids| == 0 then Rest else Store(lane, ids)
    ensures var t := Finish(s, c);
            && t.lanes == s.lanes && t.writers == s.writers
            && t.links == s.links[c := s.links[c].(work := Rest)]
            && Stored(s.sessionLane, t.sessionLane, ids, lane)
    decreases |ids|
  {
    if |ids| > 0 {
      FinishStores(StepServe(s, c).value, c, lane, ids[1..]);
      assert ids == [ids[0]] + ids[1..];
    } else {
      assert s.links == s.links[c := s.links[c].(work := Rest)];
    }
  }

  /** The message is acted upon by a server of n lanes, on a connection with this context. */
  predicate Admitted(n: nat, ctx: Option<nat>, ctrl: LaneControl) {
    && ctrl.laneCount == n && ctrl.laneId < n
    && (ctrl.subtype == SUBTYPE_HELLO || ctrl.subtype == SUBTYPE_HEARTBEAT
        || (ctrl.subtype == SUBTYPE_REGISTER && (ctx.None? || ctx.value == ctrl.laneId)))
  }

  /** The lane the connection's context names after the message. */
  function Context(n: nat, ctx: Option<nat>, ctrl: LaneControl): Option<nat> {
    if !Admitted(n, ctx, ctrl) || (ctrl.subtype == SUBTYPE_HEARTBEAT && ctx.Some?) then ctx else Some(ctrl.laneId)
  }

  /** What one control message does, from beginning to end: a refused one nothing, an admitted one makes
      the connection its lane's, and only a register message touches the cache. */
  lemma HandledFrame(s: State, c: Conn)
    requires HasFrame(s, c)
    ensures var t, link, n := HandleFrame(s, c), s.links[c], |s.writers|;
            var ctrl := link.wire[0];
            var admitted := Admitted(n, link.ctxLane, ctrl);
            && t.lanes == s.lanes
            && t.links == s.links[c := link.(wire := link.wire[1..], ctxLane := Context(n, link.ctxLane, ctrl))]
            && t.writers == (if admitted then s.writers[ctrl.laneId := Some(c)] else s.writers)
            && Stored(s.sessionLane, t.sessionLane,
                      if admitted && ctrl.subtype == SUBTYPE_REGISTER then ctrl.sessions else [], ctrl.laneId)
  {
    hide Stored;
    var one := StepServe(s, c).value;
    NothingStored(s.sessionLane, s.links[c].wire[0].laneId);
    if one.links[c].work.Attach? {
      var two := StepServe(one, c).value;
      assert Finish(one, c) == Finish(two, c);
      FinishStores(two, c, one.links[c].work.lane, one.links[c].work.ids);
    }
  }

  lemma NothingStored(m: map<U32, nat>, lane: nat)
    ensures Stored(m, m, [], lane)
  {
  }

  class LaneServer {
    const writers: array<Option<Conn>>
    var contexts: map<Conn, int>
    var sessionLane: map<U32, nat>
    ghost var world: State

    /** The lane a context names: -1 means none yet. */
    static predicate Names(laneID: int, lane: Option<nat>) {
      laneID == match lane case None => -1 case Some(l) => l
    }

    ghost predicate Valid()
      reads this, writers
    {
      && writers.Length > 0
      && writers[..] == world.writers
      && sessionLane == world.sessionLane
      && contexts.Keys == world.links.Keys
      && (forall c :: c in world.links ==> Names(contexts[c], world.links[c].ctxLane))
    }

    constructor (downstreamLaneCount: int)
      ensures Valid() && fresh(writers)
      ensures world == Initial(if downstreamLaneCount > 1 then downstreamLaneCount else 1)
    {
      var laneCount := if downstreamLaneCount > 1 then downstreamLaneCount else 1;
      writers := new Option<Conn>[laneCount](_ => None);
      contexts, sessionLane := map[], map[];
      world := Initial(laneCount);
    }

    method SetDownstreamConnForLane(laneID: nat, c: Conn)
      modifies writers
      ensures writers[..] == if laneID < writers.Length then old(writers[..])[laneID := Some(c)] else old(writers[..])
    {
      if laneID >= writers.Length {
        return;
      }
      writers[laneID] := Some(c);
    }

    method ClearDownstreamConnForLane(laneID: nat, c: Conn)
      modifies writers
      ensures writers[..] == if laneID < writers.Length && old(writers[..])[laneID] == Some(c)
                             then old(writers[..])[laneID := None] else old(writers[..])
    {
      if laneID >= writers.Length {
        return;
      }
      if writers[laneID] == Some(c) {
        writers[laneID] := None;
      }
    }

    /** handleLaneControl on the next message of the connection. */
    method HandleLaneControl(c: Conn, ctrl: LaneControl)
      requires Valid() && HasFrame(world, c) && world.links[c].wire[0] == ctrl
      modifies this, writers
      ensures Valid() && world == HandleFrame(old(world), c)
    {
      ghost var goal := HandleFrame(world, c);
      var admitted := UpdateContext(c, ctrl);
      if admitted {
        AttachConn(c, ctrl.laneId, if ctrl.subtype == SUBTYPE_REGISTER then ctrl.sessions else []);
      }
    }

    /** The checks and the switch: says whether the message is acted upon, and what the context then is. */
    method UpdateContext(c: Conn, ctrl: LaneControl) returns (admitted: bool)
      requires Valid() && HasFrame(world, c) && world.links[c].wire[0] == ctrl
      modifies this
      ensures Valid() && StepServe(old(world), c) == Some(world) && c in world.links && world.links[c].open
      ensures admitted ==>
                && ctrl.laneId < writers.Length
                && world.links[c].work
                   == Attach(ctrl.laneId, if ctrl.subtype == SUBTYPE_REGISTER then ctrl.sessions else [])
      ensures !admitted ==> world.links[c].work.Rest?
    {
      world := StepServe(world, c).value;
      if ctrl.laneCount != writers.Length || ctrl.laneId >= writers.Length {
        return false;
      }
      var laneID := ctrl.laneId;
      if ctrl.subtype == SUBTYPE_HELLO {
        contexts := contexts[c := laneID];
      } else if ctrl.subtype == SUBTYPE_REGISTER {
        if contexts[c] >= 0 && contexts[c] != laneID {
          return false;
        }
        contexts := contexts[c := laneID];
      } else if ctrl.subtype == SUBTYPE_HEARTBEAT {
        if contexts[c] < 0 {
          contexts := contexts[c := laneID];
        }
      } else {
        return false;
      }
      return true;
    }

    /** The lane gets the connection, then the sessions get the lane. */
    method AttachConn(c: Conn, laneID: nat, ids: seq<U32>)
      requires Valid() && c in world.links && world.links[c].open
      requires laneID < writers.Length && world.links[c].work == Attach(laneID, ids)
      modifies this, writers
      ensures Valid() && world == Finish(old(world), c)
    {
      SetDownstreamConnForLane(laneID, c);
      world := StepServe(world, c).value;
      StoreSessions(c, laneID, ids);
    }

    /** The loop over the session ids of a register message. */
    method StoreSessions(c: Conn, laneID: nat, ids: seq<U32>)
      requires Valid() && c in world.links && world.links[c].open
      requires world.links[c].work == if |ids| == 0 then Rest else Store(laneID, ids)
      modifies this
      ensures Valid() && world == Finish(old(world), c)
    {
      ghost var goal := Finish(world, c);
      var i := 0;
      while i < |ids|
        invariant 0 <= i <= |ids|
        invariant Valid() && c in world.links && world.links[c].open
        invariant world.links[c].work == if i == |ids| then Rest else Store(laneID, ids[i..])
        invariant Finish(world, c) == goal
      {
        sessionLane := sessionLane[ids[i] := laneID];
        world := StepServe(world, c).value;
        i := i + 1;
      }
    }

    method OnClose(c: Conn)
      requires Valid() && StepClose(world, c).Some?
      modifies this, writers
      ensures Valid() && world == StepClose(old(world), c).value
    {
      world := StepClose(world, c).value;
      if contexts[c] >= 0 {
        ClearDownstreamConnForLane(contexts[c], c);
      }
    }

    method LaneForSession(session: U32) returns (lane: nat)
      requires Valid()
      ensures lane == Lanes.LaneForSession(world, session)
    {
      if session in sessionLane && sessionLane[session] < writers.Length {
        return sessionLane[session];
      }
      lane := session % writers.Length;
    }
  }
}

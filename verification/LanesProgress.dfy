/** The lanes protocol gets things done: a new connection becomes its lane's, and an announced session is stored. */
module LanesProgress {
  import opened Bytes
  import opened Control
  import opened Lanes
  import opened LanesSafety
  import opened LanesResults
  import opened LaneServers

  /** The connection is its lane's on the client's side, the client has as many lanes as the server, nothing is on
      the way, and the server has it on no other lane. */
  predicate Settled(counts: LaneCounts, s: State, c: Conn) {
    && c in s.links
    && (var link := s.links[c];
        && link.open && link.work.Rest? && link.wire == []
        && link.lane < counts(link.client) == |s.writers| <= 0xFFFF
        && LaneOf(s, (link.client, link.lane)).conn == Some(c)
        && (link.ctxLane == None || link.ctxLane == Some(link.lane)))
  }

  lemma CutFits(counts: LaneCounts, s: State, c: Conn)
    requires Settled(counts, s, c)
    ensures Cut(s.links[c].lane) == s.links[c].lane && Cut(counts(s.links[c].client)) == |s.writers| > 0
  {
  }

  lemma {:induction false} RunConcat(counts: LaneCounts, s: State, a: seq<Action>, t: State, b: seq<Action>)
    requires Run(counts, s, a) == Some(t)
    ensures Run(counts, s, a + b) == Run(counts, t, b)
  {
    hide Apply;
    if |b| == 0 {
      assert a + b == a;
    } else {
      RunConcat(counts, s, a, t, b[..|b| - 1]);
      assert (a + b)[..|a + b| - 1] == a + b[..|b| - 1];
    }
  }

  /** The server's steps until a frame in hand is finished. */
  lemma {:induction false} FinishRun(counts: LaneCounts, s: State, c: Conn) returns (actions: seq<Action>)
    ensures Run(counts, s, actions) == Some(Finish(s, c))
    ensures forall i :: 0 <= i < |actions| ==> actions[i] == Serve(c)
    decreases if c in s.links && !s.links[c].work.Rest? then 1 + |s.links[c].work.ids| else 0,
              if c in s.links && s.links[c].work.Attach? then 1 else 0
  {
    RunNone(counts, s);
    actions := [];
    if c in s.links && !s.links[c].work.Rest? && StepServe(s, c).Some? {
      var t := StepServe(s, c).value;
      var first := RunOne(counts, s, [], Serve(c), s, t);
      var rest := FinishRun(counts, t, c);
      RunConcat(counts, s, first, t, rest);
      actions := first + rest;
    }
  }

  lemma SentOnce(counts: LaneCounts, s: State, c: Conn, subtype: Byte, ids: seq<U32>)
    requires Settled(counts, s, c) && |ids| <= 65535
    ensures var link := s.links[c];
            var t := SendControl(counts, s, (link.client, link.lane), subtype, ids);
            t == s.(links := s.links[c := link.(wire := [LaneControl(subtype, link.lane, |s.writers|, ids)])])
  {
    hide Cut;
    CutFits(counts, s, c);
    var link := s.links[c];
    MarshalExactly(LaneControl(subtype, link.lane, |s.writers|, ids));
    assert link.wire + [LaneControl(subtype, link.lane, |s.writers|, ids)] == [LaneControl(subtype, link.lane, |s.writers|, ids)];
  }

  /** The server's steps for the next frame of a connection. */
  lemma ServeRun(counts: LaneCounts, s: State, c: Conn) returns (actions: seq<Action>)
    requires HasFrame(s, c)
    ensures Run(counts, s, actions) == Some(HandleFrame(s, c))
    ensures forall i :: 0 <= i < |actions| ==> actions[i] == Serve(c)
  {
    hide Finish, Run;
    var one := StepServe(s, c).value;
    RunNone(counts, s);
    var first := RunOne(counts, s, [], Serve(c), s, one);
    var rest := FinishRun(counts, one, c);
    RunConcat(counts, s, first, one, rest);
    actions := first + rest;
  }

  /** A control message of this lane has an effect on the server, and that is all it has. */
  lemma OneHandled(s: State, c: Conn, ctrl: LaneControl)
    requires HasFrame(s, c) && s.links[c].wire == [ctrl]
    requires ctrl.laneId < ctrl.laneCount == |s.writers| && s.links[c].ctxLane in {None, Some(ctrl.laneId)}
    requires ctrl.subtype in {SUBTYPE_HELLO, SUBTYPE_REGISTER, SUBTYPE_HEARTBEAT}
    ensures StepServe(s, c).Some?
    ensures var u := HandleFrame(s, c);
            && u.lanes == s.lanes && u.writers == s.writers[ctrl.laneId := Some(c)]
            && u.links == s.links[c := s.links[c].(wire := [], ctxLane := Some(ctrl.laneId))]
            && Stored(s.sessionLane, u.sessionLane, if ctrl.subtype == SUBTYPE_REGISTER then ctrl.sessions else [], ctrl.laneId)
  {
    hide Stored, Finish;
    HandledFrame(s, c);
    assert s.links[c].wire[1..] == [];
  }

  /** A control message is sent, and the server handles it: the lane's writer is then this connection, and the
      sessions of a register message have the lane. */
  lemma Exchange(counts: LaneCounts, s: State, c: Conn, subtype: Byte, ids: seq<U32>)
    returns (actions: seq<Action>, u: State)
    requires Settled(counts, s, c) && |ids| <= 65535
    requires subtype in {SUBTYPE_HELLO, SUBTYPE_REGISTER, SUBTYPE_HEARTBEAT}
    ensures var link := s.links[c];
            && Run(counts, SendControl(counts, s, (link.client, link.lane), subtype, ids), actions) == Some(u)
            && u.lanes == s.lanes && u.writers == s.writers[link.lane := Some(c)]
            && u.links == s.links[c := link.(ctxLane := Some(link.lane))]
            && Stored(s.sessionLane, u.sessionLane, if subtype == SUBTYPE_REGISTER then ids else [], link.lane)
    ensures Settled(counts, u, c) && forall i :: 0 <= i < |actions| ==> actions[i] == Serve(c)
  {
    hide Stored, HandleFrame, SendControl, Run, StepServe;
    var link := s.links[c];
    SentOnce(counts, s, c, subtype, ids);
    var t := SendControl(counts, s, (link.client, link.lane), subtype, ids);
    OneHandled(t, c, LaneControl(subtype, link.lane, |s.writers|, ids));
    actions := ServeRun(counts, t, c);
    u := HandleFrame(t, c);
    assert u.links == s.links[c := link.(ctxLane := Some(link.lane))];
  }

  lemma Redialled(counts: LaneCounts, s: State, client: Client, lane: nat, c: Conn) returns (t: State)
    requires c !in s.links && lane < counts(client) == |s.writers| <= 0xFFFF
    ensures Run(counts, s, [Lose(client, lane), Connect(client, lane, c)]) == Some(t)
    ensures Settled(counts, t, c) && t.links[c] == Link(client, lane, {}, [], true, None, Rest)
    ensures t.writers == s.writers && t.sessionLane == s.sessionLane
    ensures LaneOf(t, (client, lane)).queue == LaneOf(s, (client, lane)).queue
  {
    hide Run;
    RunNone(counts, s);
    var t1 := Apply(counts, s, Lose(client, lane)).value;
    var a := RunOne(counts, s, [], Lose(client, lane), s, t1);
    t := Apply(counts, t1, Connect(client, lane, c)).value;
    a := RunOne(counts, s, a, Connect(client, lane, c), t1, t);
    assert a == [Lose(client, lane), Connect(client, lane, c)];
  }

  /** Hello, and two steps of the server. */
  lemma HelloTaken(counts: LaneCounts, s: State, c: Conn) returns (t: State)
    requires Settled(counts, s, c)
    ensures Run(counts, s, [SendHello(c), Serve(c), Serve(c)]) == Some(t)
    ensures t == s.(writers := s.writers[s.links[c].lane := Some(c)],
                    links := s.links[c := s.links[c].(ctxLane := Some(s.links[c].lane))])
  {
    hide Run, SendControl;
    SentOnce(counts, s, c, SUBTYPE_HELLO, []);
    RunNone(counts, s);
    var t1 := Apply(counts, s, SendHello(c)).value;
    var a := RunOne(counts, s, [], SendHello(c), s, t1);
    assert t1.links[c].wire[1..] == [];
    var t2 := StepServe(t1, c).value;
    a := RunOne(counts, s, a, Serve(c), t1, t2);
    t := StepServe(t2, c).value;
    a := RunOne(counts, s, a, Serve(c), t2, t);
    assert a == [SendHello(c), Serve(c), Serve(c)];
    assert t.links == s.links[c := s.links[c].(ctxLane := Some(s.links[c].lane))];
  }

  /** Whatever state a lane is in: its client drops the connection it has, gets another one and says hello on it, and
      after two steps of the server the lane's writer is the new connection. */
  lemma HelloConnects(counts: LaneCounts, s: State, client: Client, lane: nat, c: Conn)
    requires c !in s.links && lane < counts(client) == |s.writers| <= 0xFFFF
    ensures var t := Run(counts, s, [Lose(client, lane), Connect(client, lane, c), SendHello(c), Serve(c), Serve(c)]);
            && t.Some? && t.value.writers == s.writers[lane := Some(c)]
            && t.value.sessionLane == s.sessionLane
            && Settled(counts, t.value, c) && t.value.links[c] == Link(client, lane, {}, [], true, Some(lane), Rest)
            && LaneOf(t.value, (client, lane)).queue == LaneOf(s, (client, lane)).queue
  {
    hide Run;
    var dialled := Redialled(counts, s, client, lane, c);
    var t := HelloTaken(counts, dialled, c);
    var a, b := [Lose(client, lane), Connect(client, lane, c)], [SendHello(c), Serve(c), Serve(c)];
    RunConcat(counts, s, a, dialled, b);
    assert a + b == [Lose(client, lane), Connect(client, lane, c), SendHello(c), Serve(c), Serve(c)];
  }

  /** A heartbeat does the same for a connection in use: if its lane's writer had been cleared or taken away, it is
      this connection again. */
  lemma HeartbeatRestores(counts: LaneCounts, s: State, c: Conn) returns (serves: seq<Action>)
    requires Settled(counts, s, c)
    ensures forall i :: 0 <= i < |serves| ==> serves[i] == Serve(c)
    ensures var t := Run(counts, s, [SendHeartbeat(c)] + serves);
            && t.Some? && t.value.writers == s.writers[s.links[c].lane := Some(c)]
            && t.value.sessionLane == s.sessionLane
  {
    hide Run, SendControl, Stored;
    var u;
    serves, u := Exchange(counts, s, c, SUBTYPE_HEARTBEAT, []);
    var t := Apply(counts, s, SendHeartbeat(c)).value;
    RunNone(counts, s);
    var a := RunOne(counts, s, [], SendHeartbeat(c), s, t);
    assert a == [SendHeartbeat(c)];
    RunConcat(counts, s, a, t, serves);
    StoredNothing(s.sessionLane, u.sessionLane, s.links[c].lane);
  }

  lemma StoredNothing(before: map<U32, nat>, after: map<U32, nat>, lane: nat)
    requires Stored(before, after, [], lane)
    ensures after == before
  {
  }

  // Sessions.

  ghost predicate QueuesBounded(s: State) {
    forall k :: k in s.lanes ==> |s.lanes[k].queue| <= REGISTER_QUEUE
  }

  /** A register queue never holds more than the channel has room for. */
  lemma {:induction false} QueuesStayBounded(counts: LaneCounts, laneCount: nat, actions: seq<Action>)
    requires Run(counts, Initial(laneCount), actions).Some?
    ensures QueuesBounded(Run(counts, Initial(laneCount), actions).value)
  {
    if |actions| > 0 {
      hide Apply, Initial;
      QueuesStayBounded(counts, laneCount, actions[..|actions| - 1]);
      QueueStepBounded(counts, Run(counts, Initial(laneCount), actions[..|actions| - 1]).value, actions[|actions| - 1]);
    } else {
      assert actions == [];
    }
  }

  lemma QueueStepBounded(counts: LaneCounts, s: State, a: Action)
    requires QueuesBounded(s) && Apply(counts, s, a).Some?
    ensures QueuesBounded(Apply(counts, s, a).value)
  {
    hide StepServe, StepClose, SendControl;
    SendKeepsLanes(counts);
    ServerKeepsLanes(s);
  }

  lemma SendKeepsLanes(counts: LaneCounts)
    ensures forall s, k: (Client, nat), subtype, ids: seq<U32> :: SendControl(counts, s, k, subtype, ids).lanes == s.lanes
  {
  }

  lemma ServerKeepsLanes(s: State)
    ensures forall c: Conn :: StepServe(s, c).Some? ==> StepServe(s, c).value.lanes == s.lanes
    ensures forall c: Conn :: StepClose(s, c).Some? ==> StepClose(s, c).value.lanes == s.lanes
  {
  }

  function Ids(queue: seq<U32>): set<U32> {
    set i | 0 <= i < |queue| :: queue[i]
  }

  /** The control loop reads its register queue until that is empty. */
  lemma {:induction false} TakeAll(counts: LaneCounts, s: State, c: Conn) returns (takes: seq<Action>, u: State)
    requires Settled(counts, s, c)
    ensures Run(counts, s, takes) == Some(u) && Settled(counts, u, c)
    ensures forall i :: 0 <= i < |takes| ==> takes[i] == TakeSession(c)
    ensures var k := (s.links[c].client, s.links[c].lane);
            var queue := LaneOf(s, k).queue;
            && u.writers == s.writers && u.sessionLane == s.sessionLane
            && LaneOf(u, k) == LaneOf(s, k).(queue := [])
            && u.links[c] == s.links[c].(pending := s.links[c].pending + Ids(queue))
            && |u.links[c].pending| <= |s.links[c].pending| + |queue|
    decreases |LaneOf(s, (s.links[c].client, s.links[c].lane)).queue|
  {
    hide Run;
    RunNone(counts, s);
    var k := (s.links[c].client, s.links[c].lane);
    var lane := LaneOf(s, k);
    var queue := lane.queue;
    if |queue| == 0 {
      takes, u := [], s;
      NoIds();
    } else {
      var t := Apply(counts, s, TakeSession(c)).value;
      var first := RunOne(counts, s, [], TakeSession(c), s, t);
      var rest;
      rest, u := TakeAll(counts, t, c);
      RunConcat(counts, s, first, t, rest);
      takes := first + rest;
      FirstAndRest(queue, s.links[c].pending);
    }
  }

  lemma NoIds()
    ensures Ids([]) == {}
  {
  }

  lemma FirstAndRest(queue: seq<U32>, pending: set<U32>)
    requires |queue| > 0
    ensures pending + {queue[0]} + Ids(queue[1..]) == pending + Ids(queue)
    ensures |pending + {queue[0]}| <= |pending| + 1
  {
    forall id | id in Ids(queue) ensures id in {queue[0]} + Ids(queue[1..]) {
      var i :| 0 <= i < |queue| && queue[i] == id;
      if i > 0 {
        assert queue[i] == queue[1..][i - 1];
      }
    }
    assert Ids(queue) == {queue[0]} + Ids(queue[1..]);
  }

  /** A set of ids in some order, each once. */
  lemma {:induction false} Listed(ids: set<U32>) returns (list: seq<U32>)
    ensures |list| == |ids| && (set i | 0 <= i < |list| :: list[i]) == ids
  {
    list := [];
    if ids != {} {
      var x :| x in ids;
      var rest := Listed(ids - {x});
      list := rest + [x];
      assert forall i :: 0 <= i < |rest| ==> list[i] == rest[i];
      forall id | id in ids ensures id in set i | 0 <= i < |list| :: list[i] {
        if id == x {
          assert list[|rest|] == x;
        } else {
          assert id in ids - {x};
          var i :| 0 <= i < |rest| && rest[i] == id;
          assert list[i] == id;
        }
      }
      forall i | 0 <= i < |list| ensures list[i] in ids {
        if i < |rest| {
          assert rest[i] in set j | 0 <= j < |rest| :: rest[j];
        }
      }
    }
  }

  /** Flushing a pending set and handling the register message stores all its sessions. */
  lemma PendingStored(counts: LaneCounts, s: State, c: Conn) returns (actions: seq<Action>, u: State)
    requires Settled(counts, s, c) && 0 < |s.links[c].pending| <= 65535
    ensures Run(counts, s, actions) == Some(u)
    ensures forall i :: 0 <= i < |actions| ==> actions[i] == Serve(c) || actions[i].FlushPending?
    ensures u.writers == s.writers[s.links[c].lane := Some(c)]
    ensures forall id :: id in s.links[c].pending ==> id in u.sessionLane && u.sessionLane[id] == s.links[c].lane
  {
    hide Run, SendControl;
    var link := s.links[c];
    var ids := Listed(link.pending);
    var t := s.(links := s.links[c := link.(pending := {})]);
    var serves;
    serves, u := Exchange(counts, t, c, SUBTYPE_REGISTER, ids);
    RunNone(counts, s);
    var sent := SendControl(counts, t, (link.client, link.lane), SUBTYPE_REGISTER, ids);
    var first := RunOne(counts, s, [], FlushPending(c, ids), s, sent);
    RunConcat(counts, s, first, sent, serves);
    actions := first + serves;
    forall id | id in link.pending ensures id in ids {
      assert id in set i | 0 <= i < |ids| :: ids[i];
    }
  }

  /** registerAllSessionsForLane on a connection in use, and its message handled: all its sessions are stored. */
  lemma AllRegistered(counts: LaneCounts, s: State, c: Conn, ids: seq<U32>) returns (serves: seq<Action>)
    requires Settled(counts, s, c) && |ids| <= 65535
    requires ForLane(counts, (s.links[c].client, s.links[c].lane), ids)
    ensures forall i :: 0 <= i < |serves| ==> serves[i] == Serve(c)
    ensures var t := Run(counts, s, [RegisterAll(s.links[c].client, s.links[c].lane, ids)] + serves);
            && t.Some? && t.value.writers == s.writers[s.links[c].lane := Some(c)]
            && Stored(s.sessionLane, t.value.sessionLane, ids, s.links[c].lane)
  {
    hide Run, SendControl, Stored;
    var link, u := s.links[c], s;
    serves, u := Exchange(counts, s, c, SUBTYPE_REGISTER, ids);
    var register := RegisterAll(link.client, link.lane, ids);
    var t := Apply(counts, s, register).value;
    RunNone(counts, s);
    var a := RunOne(counts, s, [], register, s, t);
    assert a == [register];
    RunConcat(counts, s, a, t, serves);
  }

  lemma AnnounceQueues(counts: LaneCounts, s: State, c: Conn, session: U32) returns (t: State)
    requires Settled(counts, s, c) && s.links[c].lane == session % |s.writers|
    requires LaneOf(s, (s.links[c].client, s.links[c].lane)).queue == []
    ensures Apply(counts, s, Announce(s.links[c].client, session)) == Some(t) && Settled(counts, t, c)
    ensures t.writers == s.writers && t.links == s.links
    ensures LaneOf(t, (s.links[c].client, s.links[c].lane)).queue == [session]
  {
    t := Apply(counts, s, Announce(s.links[c].client, session)).value;
    assert [] + [session] == [session];
  }

  predicate NoneRegisters(actions: seq<Action>) {
    forall i :: 0 <= i < |actions| ==> !actions[i].RegisterAll?
  }

  /** The lane's connection replaced, and its register queue read empty. */
  lemma Renewed(counts: LaneCounts, s: State, client: Client, lane: nat, c: Conn) returns (more: seq<Action>, v: State)
    requires c !in s.links && lane < counts(client) == |s.writers| <= 0xFFFF && QueuesBounded(s)
    ensures Run(counts, s, more) == Some(v) && NoneRegisters(more) && Settled(counts, v, c)
    ensures v.links[c].client == client && v.links[c].lane == lane && |v.links[c].pending| <= REGISTER_QUEUE
    ensures LaneOf(v, (client, lane)).queue == [] && |v.writers| == |s.writers|
  {
    hide Run, Settled, Apply, LaneOf, Ids;
    QueueOf(s, (client, lane));
    HelloConnects(counts, s, client, lane, c);
    more := [Lose(client, lane), Connect(client, lane, c), SendHello(c), Serve(c), Serve(c)];
    var t := Run(counts, s, more).value;
    LinkPresent(counts, t, c);
    var a;
    a, v := TakeAll(counts, t, c);
    RunConcat(counts, s, more, t, a);
    more := more + a;
    LinkPresent(counts, v, c);
  }

  /** Whatever has happened before, a session that a client announces can still be stored: the lane's connection is
      replaced, its control loop empties the register queue, the session is announced and taken from the queue, and
      one register message later the server sends the session's traffic on its lane, to that connection. */
  lemma AnnouncedIsStored(
    counts: LaneCounts, laneCount: nat, actions: seq<Action>, client: Client, session: U32, c: Conn)
    returns (more: seq<Action>)
    requires Reaches(counts, laneCount, actions) && counts(client) == laneCount
    requires c !in After(counts, laneCount, actions).links
    ensures Announce(client, session) in more && NoneRegisters(more)
    ensures var u := Run(counts, After(counts, laneCount, actions), more);
            && u.Some? && session in u.value.sessionLane && |u.value.writers| == laneCount
            && u.value.sessionLane[session] == session % laneCount
            && u.value.writers[session % laneCount] == Some(c)
  {
    hide Run, Inv, Settled, Apply, LaneOf, Ids;
    ReachableInv(counts, laneCount, actions);
    QueuesStayBounded(counts, laneCount, actions);
    var s, v := After(counts, laneCount, actions), After(counts, laneCount, actions);
    more, v := Renewed(counts, s, client, session % laneCount, c);
    LinkPresent(counts, v, c);
    var w := AnnounceQueues(counts, v, c, session);
    more := RunOne(counts, s, more, Announce(client, session), v, w);
    assert more[|more| - 1] == Announce(client, session);
    var a, x := TakeAll(counts, w, c);
    RunConcat(counts, s, more, w, a);
    more := more + a;
    LinkPresent(counts, x, c);
    OneId(session);
    var u;
    a, u := PendingStored(counts, x, c);
    RunConcat(counts, s, more, x, a);
    more := more + a;
  }

  lemma OneId(session: U32)
    ensures session in Ids([session])
  {
    assert [session][0] == session;
  }

  lemma QueueOf(s: State, k: (Client, nat))
    requires QueuesBounded(s)
    ensures |LaneOf(s, k).queue| <= REGISTER_QUEUE
  {
  }

  lemma LinkPresent(counts: LaneCounts, s: State, c: Conn)
    requires Settled(counts, s, c)
    ensures c in s.links && s.links[c].lane < counts(s.links[c].client) == |s.writers|
  {
  }

  /** A session the server forgets goes back to the lane the hash names; no other session is affected. */
  lemma ExpireForgets(counts: LaneCounts, s: State, session: U32, other: U32)
    requires |s.writers| > 0
    ensures var t := Apply(counts, s, Expire(session));
            && t.Some? && t.value.writers == s.writers && t.value.links == s.links && t.value.lanes == s.lanes
            && LaneForSession(t.value, other)
               == if other == session then session % |s.writers| else LaneForSession(s, other)
  {
  }

  // Closing.

  /** A connection can be closed whenever the server is not in the middle of one of its frames, and then nothing more
      of what was on it is served. */
  lemma CloseCloses(s: State, c: Conn)
    requires c in s.links && s.links[c].open && s.links[c].work.Rest?
    ensures StepClose(s, c).Some?
    ensures var t := StepClose(s, c).value;
            c in t.links && !t.links[c].open && StepServe(t, c) == None && t.sessionLane == s.sessionLane && t.lanes == s.lanes
  {
  }

  lemma ClosedStep(counts: LaneCounts, s: State, c: Conn, a: Action, l: nat)
    requires c in s.links && !s.links[c].open && l < |s.writers| && Apply(counts, s, a).Some?
    ensures var t := Apply(counts, s, a).value;
            && c in t.links && !t.links[c].open && |t.writers| == |s.writers|
            && (t.writers[l] == Some(c) ==> s.writers[l] == Some(c))
  {
    hide Marshal, Cut, Admit;
  }

  /** A closed connection stays closed, and whatever follows no writer that had let go of it gets it back. */
  lemma {:induction false} ClosedForGood(counts: LaneCounts, s: State, c: Conn, actions: seq<Action>, l: nat)
    requires c in s.links && !s.links[c].open && l < |s.writers| && Run(counts, s, actions).Some?
    ensures var t := Run(counts, s, actions).value;
            && c in t.links && !t.links[c].open && |t.writers| == |s.writers|
            && (t.writers[l] == Some(c) ==> s.writers[l] == Some(c))
  {
    if |actions| > 0 {
      hide Apply;
      ClosedForGood(counts, s, c, actions[..|actions| - 1], l);
      ClosedStep(counts, Run(counts, s, actions[..|actions| - 1]).value, c, actions[|actions| - 1], l);
    }
  }
}

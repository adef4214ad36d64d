/** Nothing is lost, damaged or reordered on the way through a lane. */
module TunnelSafety {
  import opened Bytes
  import opened Packet
  import opened Framing
  import opened ServerFraming
  import opened Tunnel

  /** A packet of at most MaxPacketSize bytes fits its slot and the server's limit. */
  lemma SendFits(u: Setup, fed: seq<Datagram>, d: Datagram)
    requires Sane(u) && |d.payload| <= u.maxPacket
    ensures var c := Send(u, fed, d);
            c.lane < u.lanes && !TooLarge(u, c.frame) && Acceptable(c.frame, u.ServerLimit())
  {
    hide Count;
  }

  lemma SentSnoc(u: Setup, fed: seq<Datagram>, d: Datagram)
    requires Sane(u) && |d.payload| <= u.maxPacket
    ensures Sent(u, fed + [d]) == Sent(u, fed) + [Send(u, fed, d)]
  {
    hide Send, TooLarge;
    SendFits(u, fed, d);
    assert (fed + [d])[..|fed|] == fed;
  }

  lemma OnLaneSnoc(log: seq<Carried>, c: Carried, lane: nat)
    ensures OnLane(log + [c], lane) == OnLane(log, lane) + if c.lane == lane then [c.frame] else []
  {
    assert (log + [c])[..|log|] == log;
  }

  lemma {:induction false} OnLaneCarry(log: seq<Carried>, at: nat, frames: seq<Frame>, lane: nat)
    ensures OnLane(log + Carry(at, frames), lane) == OnLane(log, lane) + if at == lane then frames else []
  {
    if |frames| == 0 {
      assert log + Carry(at, frames) == log;
    } else {
      var init, last := frames[..|frames| - 1], frames[|frames| - 1];
      OnLaneCarry(log, at, init, lane);
      OnLaneSnoc(log + Carry(at, init), Carried(at, last), lane);
      assert log + Carry(at, frames) == log + Carry(at, init) + [Carried(at, last)];
      assert frames == init + [last];
    }
  }

  lemma InputLane(all: seq<Frame>, done: seq<Frame>, lane: Lane, limit: Limit, f: Frame)
    requires LaneInv(all, done, lane, limit) && Acceptable(f, limit)
    ensures LaneInv(all + [f], done, lane.(queue := lane.queue + [EncodeFrame(f)]), limit)
  {
    hide Acceptable, Incomplete, EncodeFrame;
    var rest := all[|done|..];
    assert (all + [f])[|done|..] == rest + [f];
    EncodeFramesAppend(rest, [f]);
    assert EncodeFrames([f]) == EncodeFrame(f) + [];
    FlattenSnoc(lane.queue, EncodeFrame(f));
  }

  lemma FlushLane(all: seq<Frame>, done: seq<Frame>, lane: Lane, limit: Limit, k: nat)
    requires LaneInv(all, done, lane, limit) && k <= |lane.queue|
    ensures LaneInv(all, done, lane.(queue := lane.queue[k..], stream := lane.stream + Flatten(lane.queue[..k])), limit)
  {
    hide AllAcceptable, Incomplete, EncodeFrames;
    FlattenAppend(lane.queue[..k], lane.queue[k..]);
    assert lane.queue == lane.queue[..k] + lane.queue[k..];
  }

  /** Any part of the bytes of good frames parses to the first of those frames and leaves no error. */
  lemma ParsePart(a: seq<Byte>, b: seq<Byte>, fs: seq<Frame>, limit: Limit)
    requires AllAcceptable(fs, limit) && a + b == EncodeFrames(fs)
    ensures var p := Parse(a, limit);
            && !p.malformed && p.frames <= fs && Incomplete(p.rest, limit)
            && p.rest + b == EncodeFrames(fs[|p.frames|..])
  {
    hide Parse, EncodeFrames, Acceptable, Incomplete;
    FramesRoundTrip(fs, limit);
    ParseExtended(a, b, limit);
    ParseSound(a, limit);
    var p := Parse(a, limit);
    var q := Parse(p.rest + b, limit);
    assert fs == p.frames + q.frames;
    ParseSound(p.rest + b, limit);
    assert fs[|p.frames|..] == q.frames;
    assert p.rest + b == EncodeFrames(q.frames) + [];
  }

  lemma TrafficLane(all: seq<Frame>, done: seq<Frame>, lane: Lane, limit: Limit, zero: NextOfNone, bytes: nat)
    requires LaneInv(all, done, lane, limit) && Solid(all, zero) && bytes <= |lane.stream|
    ensures var taken := FeedServer(lane.inbound, lane.stream[..bytes], limit, zero);
            && !ParseServer(lane.inbound + lane.stream[..bytes], limit, zero).malformed
            && LaneInv(all, done + taken.frames, lane.(stream := lane.stream[bytes..], inbound := taken.rest), limit)
  {
    hide Parse, ParseServer, EncodeFrames, Acceptable, Incomplete, Solid;
    var rest := all[|done|..];
    var a, b := lane.inbound + lane.stream[..bytes], lane.stream[bytes..] + Flatten(lane.queue);
    assert a + b == lane.inbound + lane.stream + Flatten(lane.queue) by {
      assert lane.stream == lane.stream[..bytes] + lane.stream[bytes..];
    }
    ParsePart(a, b, rest, limit);
    var taken := Feed(lane.inbound, lane.stream[..bytes], limit);
    assert all == done + rest && rest == taken.frames + rest[|taken.frames|..];
    SolidParts(done, rest, zero);
    SolidParts(taken.frames, rest[|taken.frames|..], zero);
    SolidAgrees(a, limit, zero);
    assert all[|done + taken.frames|..] == rest[|taken.frames|..];
    assert done + taken.frames <= all;
  }

  /** Nothing sent on a lane makes the server's loop swallow bytes. */
  lemma {:induction false} LaneSolid(u: Setup, fed: seq<Datagram>, lane: nat)
    requires Sane(u) && Harmless(u, fed) && forall i :: 0 <= i < |fed| ==> |fed[i].payload| <= u.maxPacket
    ensures Solid(OnLane(Sent(u, fed), lane), u.zero)
  {
    hide TakesNothing, Sent, TooLarge, OnLane;
    if |fed| == 0 {
      NothingSent(u);
      assert fed == [];
      EmptyLane(lane);
    } else {
      var init, d := fed[..|fed| - 1], fed[|fed| - 1];
      assert fed == init + [d];
      LaneSolid(u, init, lane);
      SentSnoc(u, init, d);
      var c := Send(u, init, d);
      OnLaneSnoc(Sent(u, init), c, lane);
      assert |c.frame.payload| == |d.payload| + u.cipher.overhead;
    }
  }

  lemma EmptyLane(lane: nat)
    ensures OnLane([], lane) == []
  {
  }

  lemma LaneFacts(u: Setup, s: State, l: nat)
    requires Inv(u, s) && l < u.lanes
    ensures LaneInv(OnLane(Sent(u, s.fed), l), OnLane(s.handled, l), s.lanes[l], u.ServerLimit())
  {
  }

  lemma InputKeeps(u: Setup, s: State, a: Action)
    requires Sane(u) && Inv(u, s) && a.Input? && Apply(u, s, a).Some?
    ensures Inv(u, Apply(u, s, a).value)
  {
    hide LaneInv, Send, TooLarge, Acceptable, EncodeFrame, Sent, OnLane, Sane;
    var d := Datagram(a.session, Cut(a.datagram, u.maxPacket));
    SendFits(u, s.fed, d);
    SentSnoc(u, s.fed, d);
    var c, t := Send(u, s.fed, d), Apply(u, s, a).value;
    forall l | 0 <= l < u.lanes
      ensures LaneInv(OnLane(Sent(u, t.fed), l), OnLane(t.handled, l), t.lanes[l], u.ServerLimit())
    {
      OnLaneSnoc(Sent(u, s.fed), c, l);
      if l == c.lane {
        InputLane(OnLane(Sent(u, s.fed), l), OnLane(s.handled, l), s.lanes[l], u.ServerLimit(), c.frame);
      } else {
        assert OnLane(Sent(u, s.fed), l) + [] == OnLane(Sent(u, s.fed), l);
      }
    }
  }

  lemma FlushKeeps(u: Setup, s: State, a: Action)
    requires Inv(u, s) && a.Flush? && Apply(u, s, a).Some?
    ensures Inv(u, Apply(u, s, a).value)
  {
    hide LaneInv, Sent, OnLane;
    FlushLane(OnLane(Sent(u, s.fed), a.lane), OnLane(s.handled, a.lane), s.lanes[a.lane], u.ServerLimit(), a.frames);
  }

  lemma TrafficKeeps(u: Setup, s: State, a: Action)
    requires Sane(u) && Inv(u, s) && Harmless(u, s.fed) && a.Traffic? && Apply(u, s, a).Some?
    ensures Inv(u, Apply(u, s, a).value)
  {
    hide Sane, LaneInv, Sent, OnLane, ParseServer, FeedServer, Harmless, Solid;
    LaneSolid(u, s.fed, a.lane);
    var t, lane := Apply(u, s, a).value, s.lanes[a.lane];
    var taken := FeedServer(lane.inbound, lane.stream[..a.bytes], u.ServerLimit(), u.zero);
    TrafficLane(OnLane(Sent(u, s.fed), a.lane), OnLane(s.handled, a.lane), lane, u.ServerLimit(), u.zero, a.bytes);
    forall l | 0 <= l < u.lanes
      ensures LaneInv(OnLane(Sent(u, t.fed), l), OnLane(t.handled, l), t.lanes[l], u.ServerLimit())
    {
      OnLaneCarry(s.handled, a.lane, taken.frames, l);
      assert OnLane(s.handled, l) + [] == OnLane(s.handled, l);
    }
  }

  lemma InitialInv(u: Setup)
    requires Sane(u)
    ensures Inv(u, Initial(u))
  {
  }

  /** In every run no packet is too large, the server discards nothing, and each lane holds exactly the
      frames sent and not yet handled. */
  lemma {:induction false} RunKeeps(u: Setup, actions: seq<Action>)
    requires Sane(u) && Run(u, actions).Some? && Harmless(u, Reads(u, actions))
    ensures Inv(u, Run(u, actions).value)
  {
    hide Sane, Inv, Apply, TakesNothing;
    RunReads(u, actions);
    if |actions| == 0 {
      InitialInv(u);
    } else {
      var a := actions[|actions| - 1];
      HarmlessBefore(u, actions);
      RunKeeps(u, actions[..|actions| - 1]);
      RunReads(u, actions[..|actions| - 1]);
      var s := Run(u, actions[..|actions| - 1]).value;
      if a.Input? {
        InputKeeps(u, s, a);
      } else if a.Flush? {
        FlushKeeps(u, s, a);
      } else {
        TrafficKeeps(u, s, a);
      }
    }
  }

  lemma HarmlessBefore(u: Setup, actions: seq<Action>)
    requires |actions| > 0 && Harmless(u, Reads(u, actions))
    ensures Harmless(u, Reads(u, actions[..|actions| - 1]))
  {
    hide TakesNothing;
    var before, all := Reads(u, actions[..|actions| - 1]), Reads(u, actions);
    assert forall i :: 0 <= i < |before| ==> before[i] == all[i];
  }

  // Sessions.

  lemma {:induction false} OfSessionPrefix(a: seq<Frame>, b: seq<Frame>, session: U32)
    requires a <= b
    ensures OfSession(a, session) <= OfSession(b, session)
  {
    if |a| < |b| {
      assert a <= b[..|b| - 1];
      OfSessionPrefix(a, b[..|b| - 1], session);
    } else {
      assert a == b;
    }
  }

  lemma {:induction false} DecryptedPrefix(cipher: Cipher, a: seq<Frame>, b: seq<Frame>)
    requires a <= b
    ensures Decrypted(cipher, a) <= Decrypted(cipher, b)
  {
    if |a| < |b| {
      assert a <= b[..|b| - 1];
      DecryptedPrefix(cipher, a, b[..|b| - 1]);
    } else {
      assert a == b;
    }
  }

  ghost predicate OnlyOn(log: seq<Carried>, session: U32, lane: nat) {
    forall i :: 0 <= i < |log| && log[i].frame.header.session == session ==> log[i].lane == lane
  }

  /** A session that keeps to one lane is seen in full on that lane. */
  lemma {:induction false} SeenOnLane(log: seq<Carried>, session: U32, lane: nat)
    requires OnlyOn(log, session, lane)
    ensures OfSession(Frames(log), session) == OfSession(OnLane(log, lane), session)
  {
    if |log| > 0 {
      var init, last := log[..|log| - 1], log[|log| - 1];
      SeenOnLane(init, session, lane);
      assert Frames(log)[..|log| - 1] == Frames(init);
      if last.lane == lane {
        assert OnLane(log, lane)[..|OnLane(init, lane)|] == OnLane(init, lane);
      } else {
        assert OnLane(log, lane) == OnLane(init, lane);
      }
    }
  }

  lemma {:induction false} OnLaneMember(log: seq<Carried>, i: nat)
    requires i < |log|
    ensures log[i].frame in OnLane(log, log[i].lane)
    decreases |log|
  {
    if i < |log| - 1 {
      OnLaneMember(log[..|log| - 1], i);
    }
  }

  lemma {:induction false} OnLaneFrom(log: seq<Carried>, lane: nat, f: Frame)
    requires f in OnLane(log, lane)
    ensures exists i :: 0 <= i < |log| && log[i] == Carried(lane, f)
  {
    var init := log[..|log| - 1];
    if f in OnLane(init, lane) {
      OnLaneFrom(init, lane, f);
      var i :| 0 <= i < |init| && init[i] == Carried(lane, f);
      assert log[i] == Carried(lane, f);
    } else {
      assert log[|log| - 1] == Carried(lane, f);
    }
  }

  lemma {:induction false} SentOnly(u: Setup, fed: seq<Datagram>, session: U32)
    requires u.lanes > 0 && !u.striped
    ensures OnlyOn(Sent(u, fed), session, session % u.lanes)
  {
    if |fed| > 0 {
      SentOnly(u, fed[..|fed| - 1], session);
    }
  }

  lemma HandledOnly(u: Setup, s: State, session: U32)
    requires Inv(u, s) && !u.striped
    ensures OnlyOn(s.handled, session, session % u.lanes)
  {
    hide LaneInv, Sent, OnLane;
    SentOnly(u, s.fed, session);
    forall i | 0 <= i < |s.handled| && s.handled[i].frame.header.session == session
      ensures s.handled[i].lane == session % u.lanes
    {
      HandledWasSent(u, s, i);
    }
  }

  /** Every frame the server handled was sent on that lane. */
  lemma HandledWasSent(u: Setup, s: State, i: nat)
    requires Inv(u, s) && i < |s.handled|
    ensures s.handled[i] in Sent(u, s.fed)
  {
    hide Sent, OnLane;
    var c := s.handled[i];
    LaneFacts(u, s, c.lane);
    OnLaneMember(s.handled, i);
    OnLaneFrom(Sent(u, s.fed), c.lane, c.frame);
  }

  /** Decrypting what was sent for a session gives back its packets. */
  lemma {:induction false} SentDecrypts(u: Setup, fed: seq<Datagram>, session: U32)
    requires Sane(u) && forall i :: 0 <= i < |fed| ==> |fed[i].payload| <= u.maxPacket
    ensures Decrypted(u.cipher, OfSession(Frames(Sent(u, fed)), session)) == Inputs(fed, session)
  {
    hide Sent, TooLarge;
    if |fed| == 0 {
      NothingSent(u);
    } else {
      var init, d := fed[..|fed| - 1], fed[|fed| - 1];
      SentDecrypts(u, init, session);
      assert fed == init + [d];
      SentSnoc(u, init, d);
      var f := Send(u, init, d).frame;
      assert u.cipher.decrypt(f.payload) == Some(d.payload);
      FramesSnoc(u.cipher, Sent(u, init), Send(u, init, d), session, d.payload);
    }
  }

  lemma NothingSent(u: Setup)
    requires u.lanes > 0
    ensures Sent(u, []) == []
  {
  }

  lemma FramesSnoc(cipher: Cipher, log: seq<Carried>, c: Carried, session: U32, plain: seq<Byte>)
    requires cipher.decrypt(c.frame.payload) == Some(plain)
    ensures Decrypted(cipher, OfSession(Frames(log + [c]), session))
         == Decrypted(cipher, OfSession(Frames(log), session)) + if c.frame.header.session == session then [plain] else []
  {
    var before := OfSession(Frames(log), session);
    assert Frames(log + [c])[..|log|] == Frames(log);
    assert (before + [c.frame])[..|before|] == before;
    assert before + [] == before && Decrypted(cipher, before) + [] == Decrypted(cipher, before);
  }

  lemma InputsSnoc(fed: seq<Datagram>, d: Datagram, session: U32)
    ensures Inputs(fed + [d], session) == Inputs(fed, session) + if d.session == session then [d.payload] else []
  {
    assert (fed + [d])[..|fed|] == fed;
  }

  /** No bytes are left for the lane in its ring or on the wire. */
  predicate Idle(lane: Lane) {
    lane.queue == [] && lane.stream == []
  }

  lemma IdleLane(all: seq<Frame>, done: seq<Frame>, lane: Lane, limit: Limit)
    requires LaneInv(all, done, lane, limit) && Idle(lane)
    ensures done == all && lane.inbound == []
  {
    var rest := all[|done|..];
    assert lane.inbound + lane.stream + Flatten(lane.queue) == lane.inbound;
    if |rest| > 0 {
      ScanOfFrame(rest[0], EncodeFrames(rest[1..]), limit);
      ScanStuck(lane.inbound, limit);
    }
  }

  /** End to end, striping off. Datagrams of any sessions in any order, any batches, any pieces of the TCP
      streams, lanes racing each other: the too-large branch is never taken, the server never discards
      anything, what a session's backend has received is at every moment the beginning of that session's
      packets, in order and undamaged, and it is all of them once the session's lane is idle. */
  lemma EndToEnd(u: Setup, actions: seq<Action>, session: U32)
    requires Sane(u) && !u.striped && Run(u, actions).Some? && Harmless(u, Reads(u, actions))
    ensures var s := Run(u, actions).value;
            && s.fed == Reads(u, actions)
            && s.tooLarge == 0 && s.discarded == 0
            && Received(u, s, session) <= Inputs(s.fed, session)
            && |s.lanes| == u.lanes
            && (Idle(s.lanes[session % u.lanes]) ==> Received(u, s, session) == Inputs(s.fed, session))
  {
    hide Run, Sane, LaneInv, OnLane, Sent, OfSession, Decrypted, Frames, Harmless, Reads;
    RunKeeps(u, actions);
    RunReads(u, actions);
    var s, l := Run(u, actions).value, session % u.lanes;
    var all, done := OnLane(Sent(u, s.fed), l), OnLane(s.handled, l);
    LaneFacts(u, s, l);
    HandledOnly(u, s, session);
    SentOnly(u, s.fed, session);
    SeenOnLane(s.handled, session, l);
    SeenOnLane(Sent(u, s.fed), session, l);
    SentDecrypts(u, s.fed, session);
    DonePrefix(all, done, s.lanes[l], u.ServerLimit());
    OfSessionPrefix(done, all, session);
    DecryptedPrefix(u.cipher, OfSession(done, session), OfSession(all, session));
    if Idle(s.lanes[l]) {
      IdleLane(all, done, s.lanes[l], u.ServerLimit());
    }
  }

  lemma DonePrefix(all: seq<Frame>, done: seq<Frame>, lane: Lane, limit: Limit)
    requires LaneInv(all, done, lane, limit)
    ensures done <= all
  {
  }

  lemma {:induction false} RunReads(u: Setup, actions: seq<Action>)
    requires Run(u, actions).Some?
    ensures Run(u, actions).value.fed == Reads(u, actions)
  {
    hide TooLarge, Send;
    if |actions| > 0 {
      RunReads(u, actions[..|actions| - 1]);
    }
  }
}

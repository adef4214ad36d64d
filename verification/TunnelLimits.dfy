/** What the whole upstream path needs: a server limit at least the client's, and frames that are never empty,
    whatever gnet's Next(0) does. Both conditions are exact. */
module TunnelLimits {
  import opened Bytes
  import opened Packet
  import opened Framing
  import opened ServerFraming
  import opened Tunnel
  import opened TunnelSafety

  // Runs, step by step.

  /** actions lead from the start to s. */
  ghost predicate LeadsTo(u: Setup, actions: seq<Action>, s: State) {
    Run(u, actions) == Some(s)
  }

  lemma Start(u: Setup)
    ensures LeadsTo(u, [], Initial(u))
  {
  }

  lemma Onward(u: Setup, actions: seq<Action>, s: State, a: Action, t: State) returns (longer: seq<Action>)
    requires LeadsTo(u, actions, s) && Apply(u, s, a) == Some(t)
    ensures LeadsTo(u, longer, t)
  {
    longer := actions + [a];
    assert longer[..|actions|] == actions;
  }

  /** The same state but for one lane. */
  predicate OnlyLane(s: State, t: State, lane: nat) {
    |t.lanes| == |s.lanes| && lane < |s.lanes| && forall l :: 0 <= l < |s.lanes| && l != lane ==> t.lanes[l] == s.lanes[l]
  }

  lemma Sending(u: Setup, s: State, d: Datagram) returns (t: State)
    requires u.lanes > 0 && |d.payload| <= u.maxPacket
    requires Send(u, s.fed, d).lane < |s.lanes| && !TooLarge(u, Send(u, s.fed, d).frame)
    ensures Apply(u, s, Input(d.session, d.payload)) == Some(t)
    ensures var c := Send(u, s.fed, d);
            && OnlyLane(s, t, c.lane)
            && t.lanes[c.lane] == s.lanes[c.lane].(queue := s.lanes[c.lane].queue + [EncodeFrame(c.frame)])
    ensures t.fed == s.fed + [d] && t.handled == s.handled && t.discarded == s.discarded
  {
    hide Send, TooLarge, EncodeFrame;
    t := Apply(u, s, Input(d.session, d.payload)).value;
  }

  lemma Flushing(u: Setup, s: State, lane: nat) returns (t: State)
    requires lane < |s.lanes|
    ensures Apply(u, s, Flush(lane, |s.lanes[lane].queue|)) == Some(t)
    ensures var l := s.lanes[lane];
            OnlyLane(s, t, lane) && t.lanes[lane] == Lane([], l.stream + Flatten(l.queue), l.inbound)
    ensures t.fed == s.fed && t.handled == s.handled && t.discarded == s.discarded
  {
    t := Apply(u, s, Flush(lane, |s.lanes[lane].queue|)).value;
    assert s.lanes[lane].queue[..|s.lanes[lane].queue|] == s.lanes[lane].queue;
  }

  lemma Arriving(u: Setup, s: State, lane: nat) returns (t: State)
    requires lane < |s.lanes| && s.lanes[lane].queue == [] && s.lanes[lane].inbound == []
    ensures Apply(u, s, Traffic(lane, |s.lanes[lane].stream|, 0)) == Some(t)
    ensures var p := ParseServer(s.lanes[lane].stream, u.ServerLimit(), u.zero);
            && OnlyLane(s, t, lane) && t.lanes[lane] == Lane([], [], if p.malformed then [] else p.rest)
            && t.handled == s.handled + Carry(lane, p.frames)
            && t.discarded == s.discarded + if p.malformed then 1 else 0
    ensures t.fed == s.fed
  {
    hide ParseServer;
    var bytes := s.lanes[lane].stream;
    t := Apply(u, s, Traffic(lane, |bytes|, 0)).value;
    assert [] + bytes[..|bytes|] == bytes;
  }

  // The server's limit.

  ghost predicate NeverDiscards(u: Setup) {
    forall actions :: Run(u, actions).Some? ==> Run(u, actions).value.discarded == 0
  }

  lemma NothingDiscarded(u: Setup, s: State)
    requires Inv(u, s)
    ensures s.discarded == 0
  {
  }

  lemma HarmlessAlways(u: Setup, actions: seq<Action>)
    requires TakesNothing(u.zero) || u.cipher.overhead > 0
    ensures Harmless(u, Reads(u, actions))
  {
  }

  lemma LargeEnough(u: Setup)
    requires Sane(u) && (TakesNothing(u.zero) || u.cipher.overhead > 0)
    ensures NeverDiscards(u)
  {
    hide Run, Inv, Sane, TakesNothing;
    forall actions | Run(u, actions).Some? ensures Run(u, actions).value.discarded == 0 {
      HarmlessAlways(u, actions);
      RunKeeps(u, actions);
      NothingDiscarded(u, Run(u, actions).value);
    }
  }

  /** Next(0) aside, the server throws away what it has buffered in no run at all exactly when its MaxPacketSize
      is at least the client's. */
  lemma LimitsExactly(u: Setup)
    requires Sane(u.(serverMax := u.maxPacket)) && (TakesNothing(u.zero) || u.cipher.overhead > 0)
    ensures NeverDiscards(u) <==> u.maxPacket <= u.serverMax
  {
    hide NeverDiscards, TakesNothing;
    if u.maxPacket <= u.serverMax {
      LargeEnough(u);
    } else {
      LongestPacket(u);
    }
  }

  lemma SendSize(u: Setup, fed: seq<Datagram>, d: Datagram)
    requires Sane(u.(serverMax := u.maxPacket)) && |d.payload| <= u.maxPacket
    ensures var c := Send(u, fed, d);
            && c.frame.header.length == |c.frame.payload| == |d.payload| + u.cipher.overhead
            && c.lane < u.lanes && !TooLarge(u, c.frame)
  {
    hide Count;
  }

  /** One datagram, sent at once, on the wire of its lane. */
  lemma OneOnWire(u: Setup, d: Datagram) returns (actions: seq<Action>, s: State)
    requires u.lanes > 0 && |d.payload| <= u.maxPacket
    requires Send(u, [], d).lane < u.lanes && !TooLarge(u, Send(u, [], d).frame)
    ensures LeadsTo(u, actions, s) && s.discarded == 0 && |s.lanes| == u.lanes
    ensures s.lanes[Send(u, [], d).lane] == Lane([], EncodeFrame(Send(u, [], d).frame) + [], [])
  {
    hide Apply, Send, TooLarge, EncodeFrame, LeadsTo, Flatten;
    var c := Send(u, [], d);
    Start(u);
    var s1 := Sending(u, Initial(u), d);
    actions := Onward(u, [], Initial(u), Input(d.session, d.payload), s1);
    s := Flushing(u, s1, c.lane);
    actions := Onward(u, actions, s1, Flush(c.lane, |s1.lanes[c.lane].queue|), s);
    FlattenOne([], EncodeFrame(c.frame));
  }

  /** One datagram of the client's maximal size, sent at once and received in one piece. */
  lemma LongestPacket(u: Setup)
    requires Sane(u.(serverMax := u.maxPacket)) && u.maxPacket > u.serverMax
    ensures !NeverDiscards(u)
  {
    assert u.lanes > 0;
    hide Sane, Apply, Send, TooLarge, EncodeFrame, ParseServer, LeadsTo, NeverDiscards, Within;
    var d := Datagram(0, seq(u.maxPacket, _ => 0));
    var c := Send(u, [], d);
    SendSize(u, [], d);
    TooLong(u, c.frame);
    var actions, s := OneOnWire(u, d);
    var t := Arriving(u, s, c.lane);
    actions := Onward(u, actions, s, Traffic(c.lane, |s.lanes[c.lane].stream|, 0), t);
    ParseOversized(c.frame, u.ServerLimit(), u.zero);
    Discarded(u, actions, t);
  }

  lemma TooLong(u: Setup, f: Frame)
    requires f.header.length == u.maxPacket + u.cipher.overhead && u.maxPacket > u.serverMax
    ensures !Within(u.ServerLimit(), f.header.length)
  {
  }

  lemma FlattenOne(queue: seq<seq<Byte>>, piece: seq<Byte>)
    requires queue == []
    ensures Flatten(queue + [piece]) == piece && [] + piece == piece == piece + []
  {
    assert Flatten(queue + [piece]) == piece + [];
  }

  lemma Discarded(u: Setup, actions: seq<Action>, s: State)
    requires LeadsTo(u, actions, s) && s.discarded > 0
    ensures !NeverDiscards(u)
  {
    assert Run(u, actions).value.discarded > 0;
  }

  lemma ParseOversized(f: Frame, limit: Limit, zero: NextOfNone)
    requires !Within(limit, f.header.length)
    ensures ParseServer(EncodeFrame(f) + [], limit, zero).malformed
  {
    ScanOfOversized(f, [], limit);
  }

  // Next(0).

  /** Whatever Next(0) does, no run makes a backend receive anything but a prefix of its session's packets. */
  ghost predicate AlwaysPrefix(u: Setup) {
    forall zero, actions, session: U32 :: PrefixIn(u.(zero := zero), actions, session)
  }

  predicate PrefixIn(u: Setup, actions: seq<Action>, session: U32) {
    Run(u, actions).Some? ==> Received(u, Run(u, actions).value, session) <= Inputs(Run(u, actions).value.fed, session)
  }

  /** The order and the bytes of a session's packets are safe from Next(0) exactly when the cipher adds bytes:
      then no frame is empty. With the default cipher, which adds none, an empty datagram is not. */
  lemma NextOfNoneExactly(u: Setup)
    requires Sane(u) && !u.striped && u.maxPacket > 0
    ensures AlwaysPrefix(u) <==> u.cipher.overhead > 0
  {
    hide Run, Received, Inputs;
    if u.cipher.overhead > 0 {
      forall zero, actions, session: U32 ensures PrefixIn(u.(zero := zero), actions, session) {
        var v := u.(zero := zero);
        if Run(v, actions).Some? {
          EndToEnd(v, actions, session);
        }
      }
    } else {
      var v := u.(zero := n => n);
      var actions := Swallowed(v);
      assert !PrefixIn(v, actions, 0);
    }
  }

  /** A frame without payload followed by another one, for a Next(0) that takes all there is. */
  lemma ParseSwallowing(f: Frame, more: seq<Byte>, limit: Limit, zero: NextOfNone)
    requires Acceptable(f, limit) && f.payload == [] && Taken(zero, |more|) == |more|
    ensures ParseServer(EncodeFrame(f) + more, limit, zero) == Parsed([Frame(f.header, more)], [], false)
  {
    ScanOfFrame(f, more, limit);
    hide ScanFrame, EncodeFrame;
    assert more[..|more|] == more;
    NothingToParse(limit, zero);
    assert [Frame(f.header, more)] + [] == [Frame(f.header, more)];
  }

  lemma NothingToParse(limit: Limit, zero: NextOfNone)
    ensures ParseServer([], limit, zero) == Parsed([], [], false)
  {
  }

  lemma ParseOne(f: Frame, limit: Limit, zero: NextOfNone)
    requires Acceptable(f, limit) && f.payload != []
    ensures ParseServer(EncodeFrame(f) + [], limit, zero) == Parsed([f], [], false)
  {
    ScanOfFrame(f, [], limit);
    hide ScanFrame, EncodeFrame;
    NothingToParse(limit, zero);
    assert [f] + [] == [f];
  }

  /** Two empty datagrams in one piece, then one of one byte: the second frame comes out as the payload of the
      first, and the third packet where the second should be. */
  lemma Swallowed(u: Setup) returns (actions: seq<Action>)
    requires Sane(u) && !u.striped && u.maxPacket > 0 && u.cipher.overhead == 0
    requires forall n: nat :: u.zero(n) == n
    ensures !PrefixIn(u, actions, 0)
  {
    hide Sane, Apply, Send, TooLarge, EncodeFrame, ParseServer, LeadsTo, PrefixIn;
    var none, one := Datagram(0, []), Datagram(0, [0]);
    Start(u);
    LaneZero(u);
    var f0, f1, f2 := Send(u, [], none).frame, Send(u, [none], none).frame, Send(u, [none, none], one).frame;
    assert [] + [none] == [none] && [none] + [none] == [none, none];
    FirstFrame(u, [], none);
    FirstFrame(u, [none], none);
    FirstFrame(u, [none, none], one);
    var s1 := Sending(u, Initial(u), none);
    actions := Onward(u, [], Initial(u), Input(0, []), s1);
    var s2 := Sending(u, s1, none);
    actions := Onward(u, actions, s1, Input(0, []), s2);
    var s3 := Flushing(u, s2, 0);
    actions := Onward(u, actions, s2, Flush(0, |s2.lanes[0].queue|), s3);
    FlattenTwo(EncodeFrame(f0), EncodeFrame(f1));
    assert s3.lanes[0].stream == EncodeFrame(f0) + EncodeFrame(f1);
    ParseSwallowing(f0, EncodeFrame(f1), u.ServerLimit(), u.zero);
    var s4 := Arriving(u, s3, 0);
    actions := Onward(u, actions, s3, Traffic(0, |s3.lanes[0].stream|, 0), s4);
    var s5 := Sending(u, s4, one);
    actions := Onward(u, actions, s4, Input(0, [0]), s5);
    var s6 := Flushing(u, s5, 0);
    actions := Onward(u, actions, s5, Flush(0, |s5.lanes[0].queue|), s6);
    FlattenOne(s4.lanes[0].queue, EncodeFrame(f2));
    ParseOne(f2, u.ServerLimit(), u.zero);
    var s7 := Arriving(u, s6, 0);
    actions := Onward(u, actions, s6, Traffic(0, |s6.lanes[0].stream|, 0), s7);
    WrongPrefix(u, actions, s7, Frame(f0.header, EncodeFrame(f1)), f2);
  }

  lemma LaneZero(u: Setup)
    requires Sane(u)
    ensures u.lanes > 0 && Initial(u).lanes[0] == Lane([], [], []) && |Initial(u).lanes| == u.lanes
    ensures 0 % u.lanes == 0
  {
  }

  lemma FirstFrame(u: Setup, fed: seq<Datagram>, d: Datagram)
    requires Sane(u) && !u.striped && d.session == 0 && |d.payload| <= u.maxPacket && u.cipher.overhead == 0
    ensures var c := Send(u, fed, d);
            && c.lane == 0 && c.frame.header.session == 0 && !TooLarge(u, c.frame)
            && Acceptable(c.frame, u.ServerLimit()) && |c.frame.payload| == |d.payload|
            && u.cipher.decrypt(c.frame.payload) == Some(d.payload)
  {
    SendFits(u, fed, d);
  }

  lemma FlattenTwo(a: seq<Byte>, b: seq<Byte>)
    ensures [] + [a] + [b] == [a, b] && [] + Flatten([a, b]) == a + b
  {
    assert [a, b][1..] == [b] && Flatten([b]) == b + [] == b;
  }

  lemma WrongPrefix(u: Setup, actions: seq<Action>, s: State, swallowed: Frame, last: Frame)
    requires LeadsTo(u, actions, s)
    requires s.fed == [Datagram(0, []), Datagram(0, []), Datagram(0, [0])]
    requires s.handled == [Carried(0, swallowed), Carried(0, last)]
    requires last.header.session == 0 && u.cipher.decrypt(last.payload) == Some([0])
    ensures !PrefixIn(u, actions, 0)
  {
    hide Run, Decrypted, OfSession, Inputs;
    var log := [Carried(0, swallowed)];
    assert s.handled == log + [Carried(0, last)];
    FramesSnoc(u.cipher, log, Carried(0, last), 0, [0]);
    var got := Decrypted(u.cipher, OfSession(Frames(log), 0));
    DecryptedSize(u.cipher, OfSession(Frames(log), 0));
    OfSessionSize(Frames(log), 0);
    ThreeInputs();
    assert Received(u, s, 0)[|got|] == [0] && Inputs(s.fed, 0)[|got|] == [];
  }

  lemma ThreeInputs()
    ensures Inputs([Datagram(0, []), Datagram(0, []), Datagram(0, [0])], 0) == [[], [], [0]]
  {
    hide Inputs;
    var none, one := Datagram(0, []), Datagram(0, [0]);
    NoInputs();
    InputsSnoc([], none, 0);
    InputsSnoc([none], none, 0);
    InputsSnoc([none, none], one, 0);
    assert [] + [none] == [none] && [none] + [none] == [none, none] && [none, none] + [one] == [none, none, one];
  }

  lemma NoInputs()
    ensures Inputs([], 0) == []
  {
  }

  lemma {:induction false} DecryptedSize(cipher: Cipher, frames: seq<Frame>)
    ensures |Decrypted(cipher, frames)| <= |frames|
  {
    if |frames| > 0 {
      DecryptedSize(cipher, frames[..|frames| - 1]);
    }
  }

  lemma {:induction false} OfSessionSize(frames: seq<Frame>, session: U32)
    ensures |OfSession(frames, session)| <= |frames|
  {
    if |frames| > 0 {
      OfSessionSize(frames[..|frames| - 1], session);
    }
  }

  /** The server discards nothing in any run, whatever Next(0) does, exactly when its MaxPacketSize is at least
      the client's and the cipher adds bytes. */
  lemma DiscardsExactly(u: Setup)
    requires Sane(u.(serverMax := u.maxPacket))
    ensures (forall zero :: NeverDiscards(u.(zero := zero))) <==> u.maxPacket <= u.serverMax && u.cipher.overhead > 0
  {
    hide NeverDiscards, TakesNothing;
    if u.maxPacket > u.serverMax {
      LongestPacket(u);
      assert u == u.(zero := u.zero);
    } else if u.cipher.overhead == 0 {
      OutOfStep(u.(zero := OneByte));
    } else {
      forall zero ensures NeverDiscards(u.(zero := zero)) {
        LargeEnough(u.(zero := zero));
      }
    }
  }

  function OneByte(buffered: nat): nat {
    1
  }

  /** A header that starts one byte late has the wrong magic number. */
  lemma ShiftedHeader(h: Header, rest: seq<Byte>, limit: Limit)
    requires h.magic == MAGIC_NUMBER && h.version == VERSION && |rest| > 0
    ensures StartsBadly((EncodeHeader(h) + rest)[1..], limit)
  {
    var s := (EncodeHeader(h) + rest)[1..];
    assert GetU32(s, 0) == 0x43505001 by {
      assert PutU32(MAGIC_NUMBER) == [0x54, 0x43, 0x50, 0x50];
    }
  }

  lemma ParseOutOfStep(f: Frame, g: Frame, more: seq<Byte>, limit: Limit, zero: NextOfNone)
    requires Acceptable(f, limit) && f.payload == [] && Acceptable(g, limit) && |g.payload + more| > 0
    requires Taken(zero, |EncodeFrame(g) + more|) == 1
    ensures ParseServer(EncodeFrame(f) + (EncodeFrame(g) + more), limit, zero).malformed
  {
    var rest := EncodeFrame(g) + more;
    ScanOfFrame(f, rest, limit);
    assert rest == EncodeHeader(g.header) + (g.payload + more);
    ShiftedHeader(g.header, g.payload + more, limit);
    ScanStuck(rest[1..], limit);
  }

  /** The i-th of three empty datagrams that go out on one lane, striped or not. */
  function Empty(u: Setup, i: U32): Datagram {
    Datagram(if u.striped then i else 0, [])
  }

  lemma EmptyFrame(u: Setup, fed: seq<Datagram>, i: U32)
    requires Sane(u) && u.cipher.overhead == 0
    requires u.striped ==> Count(fed, i) == 0
    ensures var c := Send(u, fed, Empty(u, i));
            && c.lane == (if u.striped then 1 % u.lanes else 0) < u.lanes
            && c.frame.payload == [] && !TooLarge(u, c.frame) && Acceptable(c.frame, u.ServerLimit())
  {
    SendFits(u, fed, Empty(u, i));
  }

  lemma Counts(u: Setup)
    requires u.striped
    ensures Count([], 0) == 0 && Count([Empty(u, 0)], 1) == 0 && Count([Empty(u, 0), Empty(u, 1)], 2) == 0
  {
    var none: seq<Datagram> := [];
    assert [Empty(u, 0)][..0] == none && Count(none, 2) == 0 && Count([Empty(u, 0)], 2) == 0;
    assert [Empty(u, 0), Empty(u, 1)][..1] == [Empty(u, 0)];
  }

  /** Three empty datagrams in one piece, for a Next(0) that takes a byte: the second header is read one byte
      late and refused. */
  lemma OutOfStep(u: Setup)
    requires Sane(u) && u.cipher.overhead == 0 && u.zero == OneByte
    ensures !NeverDiscards(u)
  {
    hide Sane, Apply, Send, TooLarge, EncodeFrame, ParseServer, LeadsTo, Count;
    LaneZero(u);
    Start(u);
    if u.striped { Counts(u); }
    var d0, d1, d2 := Empty(u, 0), Empty(u, 1), Empty(u, 2);
    assert [] + [d0] == [d0] && [d0] + [d1] == [d0, d1];
    EmptyFrame(u, [], 0);
    EmptyFrame(u, [d0], 1);
    EmptyFrame(u, [d0, d1], 2);
    var lane := Send(u, [], d0).lane;
    var f0, f1, f2 := Send(u, [], d0).frame, Send(u, [d0], d1).frame, Send(u, [d0, d1], d2).frame;
    assert Initial(u).lanes[lane] == Lane([], [], []);
    var s1 := Sending(u, Initial(u), d0);
    var actions := Onward(u, [], Initial(u), Input(d0.session, []), s1);
    var s2 := Sending(u, s1, d1);
    actions := Onward(u, actions, s1, Input(d1.session, []), s2);
    var s3 := Sending(u, s2, d2);
    actions := Onward(u, actions, s2, Input(d2.session, []), s3);
    var s4 := Flushing(u, s3, lane);
    actions := Onward(u, actions, s3, Flush(lane, |s3.lanes[lane].queue|), s4);
    FlattenThree(EncodeFrame(f0), EncodeFrame(f1), EncodeFrame(f2));
    FrameSize(f1);
    FrameSize(f2);
    ParseOutOfStep(f0, f1, EncodeFrame(f2), u.ServerLimit(), u.zero);
    var s5 := Arriving(u, s4, lane);
    actions := Onward(u, actions, s4, Traffic(lane, |s4.lanes[lane].stream|, 0), s5);
    Discarded(u, actions, s5);
  }

  lemma FrameSize(f: Frame)
    ensures |EncodeFrame(f)| >= HEADER_SIZE
  {
  }

  lemma FlattenThree(a: seq<Byte>, b: seq<Byte>, c: seq<Byte>)
    ensures [] + [a] + [b] + [c] == [a, b, c] && [] + Flatten([a, b, c]) == a + (b + c)
  {
    assert [a, b, c][1..] == [b, c];
    FlattenTwo(b, c);
  }
}

/** The upstream path with striping: a session's packets go round robin over the lanes and the server's
    reorder buffer puts them together again. */
module TunnelStriped {
  import opened Bytes
  import opened Packet
  import opened Tunnel
  import opened TunnelSafety
  import R = Reorder
  import C = ReorderCompleteness
  import S = Striping
  import RO = ReorderSafety
  import RS = ReorderStates

  /** What writeUpstreamToBackend is called with for a session, and when. */
  function Arrivals(cipher: Cipher, log: seq<Carried>, times: seq<int>, session: U32): seq<R.Arrival>
    requires |log| == |times|
  {
    if |log| == 0 then []
    else
      var n := |log| - 1;
      var f := log[n].frame;
      var plain := cipher.decrypt(f.payload);
      Arrivals(cipher, log[..n], times[..n], session)
      + (if f.header.session == session && plain.Some?
         then [R.Arrival(R.Numbered(f.header.sequence, plain.value), times[n])] else [])
  }

  /** The lanes a session's frames came in on, in order of arrival, and the times of their arrival. */
  function ArrivalLanes(log: seq<Carried>, session: U32): seq<nat> {
    if |log| == 0 then []
    else
      var c := log[|log| - 1];
      ArrivalLanes(log[..|log| - 1], session) + (if c.frame.header.session == session then [c.lane] else [])
  }

  function ArrivalTimes(log: seq<Carried>, times: seq<int>, session: U32): seq<int>
    requires |log| == |times|
  {
    if |log| == 0 then []
    else
      var n := |log| - 1;
      ArrivalTimes(log[..n], times[..n], session) + (if log[n].frame.header.session == session then [times[n]] else [])
  }

  ghost predicate AllDecrypt(cipher: Cipher, log: seq<Carried>) {
    forall i :: 0 <= i < |log| ==> cipher.decrypt(log[i].frame.payload).Some?
  }

  /** The frame of the session's i-th arrival, found on its lane. */
  function FrameAt(log: seq<Carried>, session: U32, i: nat): Frame
    requires i < |ArrivalLanes(log, session)|
  {
    var lanes := ArrivalLanes(log, session);
    CountOnLane(log, session, lanes[i]);
    S.CountMonotone(lanes, i, lanes[i]);
    OfSession(OnLane(log, lanes[i]), session)[S.Count(lanes[..i], lanes[i])]
  }

  lemma CountSnoc(lanes: seq<nat>, l: nat, lane: nat)
    ensures S.Count(lanes + [l], lane) == S.Count(lanes, lane) + if l == lane then 1 else 0
  {
    assert (lanes + [l])[..|lanes|] == lanes;
  }

  lemma OfSessionSnoc(frames: seq<Frame>, f: Frame, session: U32)
    ensures OfSession(frames + [f], session) == OfSession(frames, session) + if f.header.session == session then [f] else []
  {
    assert (frames + [f])[..|frames|] == frames;
  }

  lemma ArrivalLanesSnoc(log: seq<Carried>, c: Carried, session: U32)
    ensures ArrivalLanes(log + [c], session)
         == ArrivalLanes(log, session) + if c.frame.header.session == session then [c.lane] else []
  {
    assert (log + [c])[..|log|] == log;
  }

  lemma {:induction false} CountOnLane(log: seq<Carried>, session: U32, lane: nat)
    ensures S.Count(ArrivalLanes(log, session), lane) == |OfSession(OnLane(log, lane), session)|
  {
    hide S.Count, OfSession, OnLane, ArrivalLanes;
    if |log| == 0 {
      EmptyLog(session, lane);
      assert log == [];
    } else {
      var init, c := log[..|log| - 1], log[|log| - 1];
      assert log == init + [c];
      CountOnLane(init, session, lane);
      ArrivalLanesSnoc(init, c, session);
      OnLaneSnoc(init, c, lane);
      CountSnoc(ArrivalLanes(init, session), c.lane, lane);
      OfSessionSnoc(OnLane(init, lane), c.frame, session);
      assert OnLane(init, lane) + [] == OnLane(init, lane);
      assert ArrivalLanes(init, session) + [] == ArrivalLanes(init, session);
    }
  }

  lemma EmptyLog(session: U32, lane: nat)
    ensures S.Count(ArrivalLanes([], session), lane) == |OfSession(OnLane([], lane), session)|
  {
  }

  lemma {:induction false} ArrivalSizes(cipher: Cipher, log: seq<Carried>, times: seq<int>, session: U32)
    requires |log| == |times| && AllDecrypt(cipher, log)
    ensures |Arrivals(cipher, log, times, session)| == |ArrivalLanes(log, session)| == |ArrivalTimes(log, times, session)|
  {
    if |log| > 0 {
      ArrivalSizes(cipher, log[..|log| - 1], times[..|log| - 1], session);
    }
  }

  lemma FrameAtKept(log: seq<Carried>, c: Carried, session: U32, i: nat)
    requires i < |ArrivalLanes(log, session)|
    ensures i < |ArrivalLanes(log + [c], session)|
    ensures FrameAt(log + [c], session, i) == FrameAt(log, session, i)
    ensures ArrivalLanes(log + [c], session)[i] == ArrivalLanes(log, session)[i]
  {
    hide S.Count, OfSession, OnLane, ArrivalLanes;
    var lanes := ArrivalLanes(log, session);
    ArrivalLanesSnoc(log, c, session);
    assert ArrivalLanes(log + [c], session)[..i] == lanes[..i];
    OnLaneSnoc(log, c, lanes[i]);
    OfSessionSnoc(OnLane(log, lanes[i]), c.frame, session);
    assert OnLane(log, lanes[i]) + [] == OnLane(log, lanes[i]);
    CountOnLane(log, session, lanes[i]);
    S.CountMonotone(lanes, i, lanes[i]);
  }

  lemma FrameAtLast(log: seq<Carried>, c: Carried, session: U32)
    requires c.frame.header.session == session
    ensures var n := |ArrivalLanes(log, session)|;
            n < |ArrivalLanes(log + [c], session)| && FrameAt(log + [c], session, n) == c.frame
  {
    hide S.Count, OfSession, OnLane, ArrivalLanes;
    var lanes := ArrivalLanes(log, session);
    ArrivalLanesSnoc(log, c, session);
    assert ArrivalLanes(log + [c], session)[..|lanes|] == lanes;
    OnLaneSnoc(log, c, c.lane);
    OfSessionSnoc(OnLane(log, c.lane), c.frame, session);
    CountOnLane(log, session, c.lane);
  }

  /** The i-th arrival is the frame found on its lane. */
  lemma {:induction false} ArrivalAt(cipher: Cipher, log: seq<Carried>, times: seq<int>, session: U32, i: nat)
    requires |log| == |times| && AllDecrypt(cipher, log)
    requires i < |ArrivalLanes(log, session)|
    ensures |Arrivals(cipher, log, times, session)| == |ArrivalLanes(log, session)| == |ArrivalTimes(log, times, session)|
    ensures var f := FrameAt(log, session, i);
            var plain := cipher.decrypt(f.payload);
            plain.Some? && Arrivals(cipher, log, times, session)[i]
              == R.Arrival(R.Numbered(f.header.sequence, plain.value), ArrivalTimes(log, times, session)[i])
    decreases |log|
  {
    hide FrameAt;
    ArrivalSizes(cipher, log, times, session);
    var n := |log| - 1;
    var init, c := log[..n], log[n];
    assert log == init + [c];
    ArrivalSizes(cipher, init, times[..n], session);
    if i < |ArrivalLanes(init, session)| {
      ArrivalAt(cipher, init, times[..n], session, i);
      FrameAtKept(init, c, session, i);
    } else {
      FrameAtLast(init, c, session);
    }
  }

  // What was sent.

  lemma {:induction false} InputCount(fed: seq<Datagram>, session: U32)
    ensures |Inputs(fed, session)| == Count(fed, session)
  {
    if |fed| > 0 {
      InputCount(fed[..|fed| - 1], session);
    }
  }

  /** These frames carry these numbers, each with the packet of that number. */
  ghost predicate Carrying(cipher: Cipher, frames: seq<Frame>, numbers: seq<nat>, inputs: seq<seq<Byte>>) {
    |frames| == |numbers|
    && forall j :: 0 <= j < |frames| ==>
         && frames[j].header.sequence == numbers[j]
         && 1 <= numbers[j] <= |inputs|
         && cipher.decrypt(frames[j].payload) == Some(inputs[numbers[j] - 1])
  }

  lemma CarryingMore(cipher: Cipher, frames: seq<Frame>, numbers: seq<nat>, inputs: seq<seq<Byte>>, f: Frame, p: seq<Byte>)
    requires Carrying(cipher, frames, numbers, inputs)
    ensures Carrying(cipher, frames, numbers, inputs + [p])
    ensures f.header.sequence == |inputs| + 1 && cipher.decrypt(f.payload) == Some(p) ==>
              Carrying(cipher, frames + [f], numbers + [|inputs| + 1], inputs + [p])
  {
  }

  lemma LaneNumbersStep(n: nat, lanes: nat, lane: nat)
    requires lanes > 0
    ensures S.LaneNumbers(n + 1, lanes, lane)
         == S.LaneNumbers(n, lanes, lane) + if (n + 1) % lanes == lane then [n + 1] else []
  {
  }

  /** Round robin: lane l carries the session's numbers congruent to l, in order. */
  lemma {:induction false} SentOnLane(u: Setup, fed: seq<Datagram>, session: U32, lane: nat)
    requires Sane(u) && u.striped && forall i :: 0 <= i < |fed| ==> |fed[i].payload| <= u.maxPacket
    requires |Inputs(fed, session)| < R.MAX_NUMBER
    ensures Carrying(u.cipher, OfSession(OnLane(Sent(u, fed), lane), session),
                     S.LaneNumbers(|Inputs(fed, session)|, u.lanes, lane), Inputs(fed, session))
  {
    hide Sent, OnLane, OfSession, Carrying, S.LaneNumbers, Inputs, TooLarge, Sound;
    if |fed| == 0 {
      assert fed == [];
      NothingOnLane(u, session, lane);
    } else {
      var init, d := fed[..|fed| - 1], fed[|fed| - 1];
      assert fed == init + [d];
      InputsSnoc(init, d, session);
      SentOnLane(u, init, session, lane);
      SentSnoc(u, init, d);
      var c := Send(u, init, d);
      SendNumber(u, init, d, session);
      OnLaneSnoc(Sent(u, init), c, lane);
      var before := OnLane(Sent(u, init), lane);
      assert before + [] == before;
      OfSessionSnoc(before, c.frame, session);
      var had := OfSession(before, session);
      assert had + [] == had && Inputs(init, session) + [] == Inputs(init, session);
      var n := |Inputs(init, session)|;
      CarryingMore(u.cipher, had, S.LaneNumbers(n, u.lanes, lane), Inputs(init, session), c.frame, d.payload);
      LaneNumbersStep(n, u.lanes, lane);
      assert S.LaneNumbers(n, u.lanes, lane) + [] == S.LaneNumbers(n, u.lanes, lane);
    }
  }

  lemma NothingOnLane(u: Setup, session: U32, lane: nat)
    requires Sane(u)
    ensures Carrying(u.cipher, OfSession(OnLane(Sent(u, []), lane), session),
                     S.LaneNumbers(|Inputs([], session)|, u.lanes, lane), Inputs([], session))
  {
  }

  lemma SendNumber(u: Setup, fed: seq<Datagram>, d: Datagram, session: U32)
    requires Sane(u) && u.striped && |Inputs(fed, session)| < R.MAX_NUMBER
    ensures var c := Send(u, fed, d);
            && c.frame.header.session == d.session
            && u.cipher.decrypt(c.frame.payload) == Some(d.payload)
            && (d.session == session ==>
                  c.frame.header.sequence == |Inputs(fed, session)| + 1 && c.lane == (|Inputs(fed, session)| + 1) % u.lanes)
  {
    hide Count, Inputs;
    InputCount(fed, session);
  }

  // Together.

  ghost predicate AllIdle(s: State) {
    forall l :: 0 <= l < |s.lanes| ==> Idle(s.lanes[l])
  }

  lemma SentDecrypt(u: Setup, fed: seq<Datagram>)
    requires Sane(u)
    ensures AllDecrypt(u.cipher, Sent(u, fed))
    decreases |fed|
  {
    if |fed| > 0 {
      SentDecrypt(u, fed[..|fed| - 1]);
      var d := fed[|fed| - 1];
      assert u.cipher.decrypt(u.cipher.encrypt(d.payload, |fed| - 1)) == Some(d.payload);
    }
  }

  lemma HandledDecrypt(u: Setup, s: State)
    requires Sane(u) && Inv(u, s)
    ensures AllDecrypt(u.cipher, s.handled)
  {
    hide Inv, Sent, Sane;
    SentDecrypt(u, s.fed);
    forall i | 0 <= i < |s.handled| ensures u.cipher.decrypt(s.handled[i].frame.payload).Some? {
      HandledWasSent(u, s, i);
    }
  }

  /** With nothing left on the way, a lane has delivered exactly the session's numbers congruent to it. */
  lemma LaneDelivered(u: Setup, s: State, session: U32, lane: nat)
    requires Sane(u) && Inv(u, s) && u.striped && AllIdle(s) && lane < u.lanes
    requires |Inputs(s.fed, session)| < R.MAX_NUMBER
    ensures Carrying(u.cipher, OfSession(OnLane(s.handled, lane), session),
                     S.LaneNumbers(|Inputs(s.fed, session)|, u.lanes, lane), Inputs(s.fed, session))
  {
    hide Sane, LaneInv, Sent, OnLane, OfSession, Carrying, Inputs, S.LaneNumbers;
    LaneFacts(u, s, lane);
    IdleLane(OnLane(Sent(u, s.fed), lane), OnLane(s.handled, lane), s.lanes[lane], u.ServerLimit());
    SentOnLane(u, s.fed, session, lane);
  }

  lemma {:induction false} LanesInRange(log: seq<Carried>, session: U32, lanes: nat)
    requires forall i :: 0 <= i < |log| ==> log[i].lane < lanes
    ensures forall i :: 0 <= i < |ArrivalLanes(log, session)| ==> ArrivalLanes(log, session)[i] < lanes
  {
    if |log| > 0 {
      LanesInRange(log[..|log| - 1], session, lanes);
    }
  }

  /** The lanes a session's frames arrive on are an interleaving of what round robin put on each lane. */
  lemma ArrivalsInterleave(u: Setup, s: State, session: U32)
    requires Sane(u) && Inv(u, s) && u.striped && AllIdle(s)
    requires |Inputs(s.fed, session)| < R.MAX_NUMBER
    ensures S.Interleaves(ArrivalLanes(s.handled, session), |Inputs(s.fed, session)|, u.lanes)
  {
    hide OfSession, OnLane, ArrivalLanes, S.Count, S.LaneNumbers, Inputs, Sent, LaneInv;
    LanesInRange(s.handled, session, u.lanes);
    forall lane | 0 <= lane < u.lanes
      ensures S.Count(ArrivalLanes(s.handled, session), lane) == |S.LaneNumbers(|Inputs(s.fed, session)|, u.lanes, lane)|
    {
      CountOnLane(s.handled, session, lane);
      LaneDelivered(u, s, session, lane);
    }
  }

  /** So the reorder buffer sees a striped sequence of the session's packets. */
  lemma ArrivalsAreStriped(u: Setup, s: State, session: U32)
    requires Sane(u) && Inv(u, s) && u.striped && AllIdle(s)
    requires |Inputs(s.fed, session)| < R.MAX_NUMBER
    ensures var lanes, times := ArrivalLanes(s.handled, session), ArrivalTimes(s.handled, s.times, session);
            var inputs := Inputs(s.fed, session);
            && |lanes| == |times| && S.Interleaves(lanes, |inputs|, u.lanes)
            && Arrivals(u.cipher, s.handled, s.times, session) == S.Striped(lanes, |inputs|, u.lanes, inputs, times)
  {
    hide Sane, Inv, Arrivals, ArrivalLanes, ArrivalTimes, Inputs, S.Interleaves, AllDecrypt;
    StateSizes(u, s);
    HandledDecrypt(u, s);
    ArrivalSizes(u.cipher, s.handled, s.times, session);
    ArrivalsInterleave(u, s, session);
    var lanes, times := ArrivalLanes(s.handled, session), ArrivalTimes(s.handled, s.times, session);
    var inputs := Inputs(s.fed, session);
    forall i | 0 <= i < |lanes|
      ensures Arrivals(u.cipher, s.handled, s.times, session)[i] == S.Striped(lanes, |inputs|, u.lanes, inputs, times)[i]
    {
      ArrivalIsStriped(u, s, session, i);
    }
  }

  lemma StateSizes(u: Setup, s: State)
    requires Inv(u, s)
    ensures u.lanes > 0 && |s.lanes| == u.lanes && |s.times| == |s.handled|
  {
  }

  lemma ArrivalIsStriped(u: Setup, s: State, session: U32, i: nat)
    requires Sane(u) && Inv(u, s) && u.striped && AllIdle(s)
    requires |Inputs(s.fed, session)| < R.MAX_NUMBER
    requires i < |ArrivalLanes(s.handled, session)|
    ensures |s.times| == |s.handled|
    ensures var lanes, times := ArrivalLanes(s.handled, session), ArrivalTimes(s.handled, s.times, session);
            var inputs, arrivals := Inputs(s.fed, session), Arrivals(u.cipher, s.handled, s.times, session);
            && |arrivals| == |lanes| == |times| && S.Interleaves(lanes, |inputs|, u.lanes)
            && arrivals[i] == S.Striped(lanes, |inputs|, u.lanes, inputs, times)[i]
  {
    hide Sane, Inv, Arrivals, ArrivalLanes, ArrivalTimes, Inputs, AllDecrypt, OfSession, OnLane, S.Count, S.LaneNumbers;
    StateSizes(u, s);
    HandledDecrypt(u, s);
    ArrivalAt(u.cipher, s.handled, s.times, session, i);
    ArrivalsInterleave(u, s, session);
    var lanes := ArrivalLanes(s.handled, session);
    LaneDelivered(u, s, session, lanes[i]);
    CountOnLane(s.handled, session, lanes[i]);
    S.CountMonotone(lanes, i, lanes[i]);
  }

  /** End to end, striping on. Once nothing is left on the way, if the session's first packet arrived first,
      the lanes stayed within the skew of each other that the window covers, the packets came in time and
      the writes succeeded, the session's backend has received exactly the session's packets, in order. */
  lemma EndToEndStriped(u: Setup, cfg: R.Config, actions: seq<Action>, session: U32, skew: nat, writes: R.Writes)
    requires Sane(u) && u.striped && Run(u, actions).Some? && AllIdle(Run(u, actions).value)
    requires Harmless(u, Reads(u, actions))
    requires |Inputs(Run(u, actions).value.fed, session)| < R.MAX_NUMBER
    requires var lanes := ArrivalLanes(Run(u, actions).value.handled, session);
             && S.BoundedSkew(lanes, |Inputs(Run(u, actions).value.fed, session)|, u.lanes, skew)
             && (|lanes| > 0 ==> lanes[0] == 1 % u.lanes)
    requires (skew + 1) * u.lanes <= cfg.Window() && C.WindowFits(cfg)
    requires R.AllSucceed(writes)
    requires var s := Run(u, actions).value; C.Timely(cfg, Arrivals(u.cipher, s.handled, s.times, session), writes)
    ensures var s := Run(u, actions).value;
            RS.Payloads(R.Run(cfg, Arrivals(u.cipher, s.handled, s.times, session), writes).ledger.delivered)
            == Inputs(s.fed, session)
  {
    hide Run, Sane, Inv, Harmless, AllIdle, Arrivals, ArrivalLanes, ArrivalTimes, Inputs, C.Timely, S.BoundedSkew,
      S.Interleaves, S.Striped, R.AllSucceed, R.Run;
    RunKeeps(u, actions);
    var s := Run(u, actions).value;
    ArrivalsAreStriped(u, s, session);
    var lanes, times := ArrivalLanes(s.handled, session), ArrivalTimes(s.handled, s.times, session);
    var inputs := Inputs(s.fed, session);
    S.StripingThenReordering(cfg, lanes, |inputs|, u.lanes, skew, inputs, times, writes);
  }

  // At every moment.

  /** The packet is the one of its number among the session's. */
  predicate Genuine(p: R.Numbered, inputs: seq<seq<Byte>>) {
    1 <= p.number <= |inputs| && p.payload == inputs[p.number - 1]
  }

  predicate CarriesGenuine(cipher: Cipher, c: Carried, session: U32, inputs: seq<seq<Byte>>) {
    var plain := cipher.decrypt(c.frame.payload);
    c.frame.header.session == session && plain.Some? ==> Genuine(R.Numbered(c.frame.header.sequence, plain.value), inputs)
  }

  lemma MoreInputs(cipher: Cipher, c: Carried, session: U32, inputs: seq<seq<Byte>>, more: seq<seq<Byte>>)
    requires CarriesGenuine(cipher, c, session, inputs)
    ensures CarriesGenuine(cipher, c, session, inputs + more)
  {
  }

  lemma {:induction false} SentGenuine(u: Setup, fed: seq<Datagram>, session: U32)
    requires Sane(u) && u.striped && forall i :: 0 <= i < |fed| ==> |fed[i].payload| <= u.maxPacket
    requires |Inputs(fed, session)| < R.MAX_NUMBER
    ensures forall c :: c in Sent(u, fed) ==> CarriesGenuine(u.cipher, c, session, Inputs(fed, session))
  {
    hide Sent, Inputs, TooLarge, CarriesGenuine, Send, Sound;
    if |fed| == 0 {
      assert fed == [];
      NothingSent(u);
    } else {
      var init, d := fed[..|fed| - 1], fed[|fed| - 1];
      assert fed == init + [d];
      InputsSnoc(init, d, session);
      SentGenuine(u, init, session);
      SentSnoc(u, init, d);
      SendGenuine(u, init, d, session);
      forall c | c in Sent(u, init) ensures CarriesGenuine(u.cipher, c, session, Inputs(fed, session)) {
        MoreInputs(u.cipher, c, session, Inputs(init, session), if d.session == session then [d.payload] else []);
      }
    }
  }

  lemma SendGenuine(u: Setup, fed: seq<Datagram>, d: Datagram, session: U32)
    requires Sane(u) && u.striped && |Inputs(fed, session)| < R.MAX_NUMBER
    ensures CarriesGenuine(u.cipher, Send(u, fed, d), session,
                           Inputs(fed, session) + if d.session == session then [d.payload] else [])
  {
    hide Send, Inputs;
    SendNumber(u, fed, d, session);
  }

  lemma {:induction false} ArrivalsGenuine(cipher: Cipher, log: seq<Carried>, times: seq<int>, session: U32, inputs: seq<seq<Byte>>)
    requires |log| == |times| && forall c :: c in log ==> CarriesGenuine(cipher, c, session, inputs)
    ensures forall i :: 0 <= i < |Arrivals(cipher, log, times, session)| ==>
              Genuine(Arrivals(cipher, log, times, session)[i].packet, inputs)
  {
    if |log| > 0 {
      var n := |log| - 1;
      ArrivalsGenuine(cipher, log[..n], times[..n], session, inputs);
      assert CarriesGenuine(cipher, log[n], session, inputs);
    }
  }

  /** Striping on, at every moment, for any skew of the lanes, any clock and any failing writes: the backend has
      packets of its session only, each undamaged, in strictly increasing order of their numbers. */
  lemma StripedAlways(u: Setup, cfg: R.Config, actions: seq<Action>, session: U32, writes: R.Writes)
    requires Sane(u) && u.striped && Run(u, actions).Some? && Harmless(u, Reads(u, actions))
    requires |Inputs(Run(u, actions).value.fed, session)| < R.MAX_NUMBER
    ensures var s := Run(u, actions).value;
            var delivered := R.Run(cfg, Arrivals(u.cipher, s.handled, s.times, session), writes).ledger.delivered;
            && RO.Increasing(delivered)
            && forall i :: 0 <= i < |delivered| ==> Genuine(delivered[i], Inputs(s.fed, session))
  {
    hide Run, Sane, Harmless, Reads, Sent, Arrivals, Inputs, CarriesGenuine, R.Run, LaneInv;
    RunKeeps(u, actions);
    var s := Run(u, actions).value;
    var inputs := Inputs(s.fed, session);
    SentGenuine(u, s.fed, session);
    forall c | c in s.handled ensures CarriesGenuine(u.cipher, c, session, inputs) {
      var i: nat :| i < |s.handled| && s.handled[i] == c;
      HandledWasSent(u, s, i);
    }
    ArrivalsGenuine(u.cipher, s.handled, s.times, session, inputs);
    var arrivals := Arrivals(u.cipher, s.handled, s.times, session);
    DeliveredGenuine(cfg, arrivals, inputs, writes);
  }

  lemma DeliveredGenuine(cfg: R.Config, arrivals: seq<R.Arrival>, inputs: seq<seq<Byte>>, writes: R.Writes)
    requires |inputs| < R.MAX_NUMBER && forall i :: 0 <= i < |arrivals| ==> Genuine(arrivals[i].packet, inputs)
    ensures var delivered := R.Run(cfg, arrivals, writes).ledger.delivered;
            RO.Increasing(delivered) && forall i :: 0 <= i < |delivered| ==> Genuine(delivered[i], inputs)
  {
    hide R.Run;
    RO.SafeBelowTop(cfg, arrivals, |arrivals|, writes);
    RO.DeliveredArrived(cfg, arrivals, writes);
    var delivered := R.Run(cfg, arrivals, writes).ledger.delivered;
    forall i | 0 <= i < |delivered| ensures Genuine(delivered[i], inputs) {
      assert delivered[i] in delivered;
    }
  }
}

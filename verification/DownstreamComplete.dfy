/** The other half of the downstream path: what does get through, and that nothing else is lost. */
module DownstreamComplete {
  import opened Bytes
  import opened Packet
  import opened Framing
  import opened Tunnel
  import opened Subsequences
  import opened Downstream
  import opened DownstreamOrder
  import T = TunnelSafety

  // From the frames to the peers.

  /** Every session the client gets a frame for is known, and its peer can be written to. */
  ghost predicate KeepsAll(a: DownAction) {
    a.Receive? ==> forall n: nat :: a.keep(n)
  }

  ghost predicate AllKept(actions: seq<DownAction>) {
    forall i :: 0 <= i < |actions| ==> KeepsAll(actions[i])
  }

  /** The peers have been handed the decrypted payload of every frame taken. */
  ghost predicate HandedOn(p: Path, s: DownState) {
    forall session: U32 :: Inputs(s.handed, session) == Decrypted(p.cipher, OfSession(Frames(s.taken), session))
  }

  predicate AllData(frames: seq<Frame>) {
    forall i :: 0 <= i < |frames| ==> frames[i].header.kind == TYPE_DATA
  }

  lemma {:induction false} HandedExactly(cipher: Cipher, frames: seq<Frame>, keep: nat -> bool, session: U32)
    requires AllData(frames) && forall n: nat :: keep(n)
    ensures Inputs(Handed(cipher, frames, keep), session) == Decrypted(cipher, OfSession(frames, session))
  {
    if |frames| > 0 {
      hide OfSession, Decrypted, Handed, Inputs;
      var init, f := frames[..|frames| - 1], frames[|frames| - 1];
      assert frames == init + [f];
      HandedExactly(cipher, init, keep, session);
      OfSessionPlus(init, [f], session);
      DecryptedPlus(cipher, OfSession(init, session), OfSession([f], session));
      LastExactly(cipher, frames, keep, session);
      InputsPlus(Handed(cipher, init, keep), LastHanded(cipher, frames, keep), session);
    } else {
      assert Handed(cipher, frames, keep) == [];
    }
  }

  lemma LastExactly(cipher: Cipher, frames: seq<Frame>, keep: nat -> bool, session: U32)
    requires |frames| > 0 && AllData(frames) && forall n: nat :: keep(n)
    ensures var n := |frames| - 1;
            && Handed(cipher, frames, keep) == Handed(cipher, frames[..n], keep) + LastHanded(cipher, frames, keep)
            && Inputs(LastHanded(cipher, frames, keep), session) == Decrypted(cipher, OfSession([frames[n]], session))
  {
    var f := frames[|frames| - 1];
    assert [f][..0] == [];
    assert OfSession([f], session) == if f.header.session == session then [f] else [];
    var last := LastHanded(cipher, frames, keep);
    assert |last| == 1 ==> last[..0] == [];
  }

  /** A peer is handed nothing for control frames and heartbeats, nor while its session is unknown or it cannot be
      written to. */
  lemma {:induction false} NothingHanded(cipher: Cipher, frames: seq<Frame>, keep: nat -> bool, session: U32)
    requires forall n :: 0 <= n < |frames| && frames[n].header.session == session ==>
                           !keep(n) || frames[n].header.kind in {TYPE_CONTROL, TYPE_HEARTBEAT}
    ensures Inputs(Handed(cipher, frames, keep), session) == []
  {
    if |frames| > 0 {
      hide Handed, Inputs;
      NothingHanded(cipher, frames[..|frames| - 1], keep, session);
      OneNotHanded(cipher, frames, keep, session);
      InputsPlus(Handed(cipher, frames[..|frames| - 1], keep), LastHanded(cipher, frames, keep), session);
    } else {
      assert Handed(cipher, frames, keep) == [];
    }
  }

  lemma OneNotHanded(cipher: Cipher, frames: seq<Frame>, keep: nat -> bool, session: U32)
    requires |frames| > 0
    requires var n := |frames| - 1;
             frames[n].header.session == session ==>
               !keep(n) || frames[n].header.kind in {TYPE_CONTROL, TYPE_HEARTBEAT}
    ensures Handed(cipher, frames, keep) == Handed(cipher, frames[..|frames| - 1], keep) + LastHanded(cipher, frames, keep)
    ensures Inputs(LastHanded(cipher, frames, keep), session) == []
  {
    var last := LastHanded(cipher, frames, keep);
    assert |last| == 1 ==> last[..0] == [];
  }

  /** The frames of any read are data frames. */
  lemma ReceivesData(p: Path, s: DownState, a: DownAction)
    requires Kept(p, s) && a.Receive? && DownStep(p, s, a).Some?
    ensures var l := s.lanes[a.lane]; AllData(Feed(l.unread, l.stream[..a.bytes], p.ClientLimit()).frames)
  {
    hide LaneKept, OnLane, Parse, Feed, Handed;
    KeptLane(p, s, a.lane);
    ReceiveLane(p, s.lanes[a.lane], a.lane, OnLane(s.taken, a.lane), OnLane(s.sent, a.lane), a.bytes);
  }

  lemma ReceiveHandsOn(p: Path, s: DownState, a: DownAction)
    requires Kept(p, s) && HandedOn(p, s) && KeepsAll(a) && a.Receive? && DownStep(p, s, a).Some?
    ensures HandedOn(p, DownStep(p, s, a).value)
  {
    hide OfSession, Decrypted, Handed, Inputs, Feed, Parse, Frames, Carry, Kept;
    ReceivesData(p, s, a);
    var t, l := DownStep(p, s, a).value, s.lanes[a.lane];
    var got := Feed(l.unread, l.stream[..a.bytes], p.ClientLimit());
    FramesPlus(s.taken, a.lane, got.frames);
    forall session: U32
      ensures Inputs(t.handed, session) == Decrypted(p.cipher, OfSession(Frames(t.taken), session))
    {
      HandedExactly(p.cipher, got.frames, a.keep, session);
      InputsPlus(s.handed, Handed(p.cipher, got.frames, a.keep), session);
      OfSessionPlus(Frames(s.taken), got.frames, session);
      DecryptedPlus(p.cipher, OfSession(Frames(s.taken), session), OfSession(got.frames, session));
    }
  }

  lemma OthersHandOn(p: Path, s: DownState, a: DownAction)
    requires HandedOn(p, s) && !a.Receive? && DownStep(p, s, a).Some?
    ensures HandedOn(p, DownStep(p, s, a).value)
  {
  }

  lemma InitialHandedOn(p: Path)
    ensures HandedOn(p, DownInitial(p))
  {
  }

  lemma RunBefore(p: Path, actions: seq<DownAction>)
    requires |actions| > 0 && DownRun(p, actions).Some?
    ensures var before := DownRun(p, actions[..|actions| - 1]);
            before.Some? && DownRun(p, actions) == DownStep(p, before.value, actions[|actions| - 1])
  {
  }

  /** As long as no peer is unknown or unreachable, what each session's peer has been handed is the decrypted
      payload of every one of the session's frames that the client has found, whatever happens to the lanes. */
  lemma {:induction false} TakenAreHanded(p: Path, actions: seq<DownAction>)
    requires Fits(p) && DownRun(p, actions).Some? && AllKept(actions)
    ensures HandedOn(p, DownRun(p, actions).value)
  {
    hide Fits, Kept, HandedOn, DownStep, DownRun, KeepsAll;
    if |actions| == 0 {
      NothingRun(p);
      assert actions == [];
      InitialHandedOn(p);
    } else {
      var init, a := actions[..|actions| - 1], actions[|actions| - 1];
      RunBefore(p, actions);
      TakenAreHanded(p, init);
      RunKept(p, init);
      var s := DownRun(p, init).value;
      if a.Receive? {
        ReceiveHandsOn(p, s, a);
      } else {
        OthersHandOn(p, s, a);
      }
    }
  }

  // Runs without losses.

  /** Nothing is lost in this step: the queue has room, a batch goes to the connection the client reads, and a
      connection is given up only when nothing on it is unread. */
  ghost predicate Calm(s: DownState, a: DownAction) {
    match a
    case BackendRead(_, _, _, room) => room
    case Write(lane, _, ok) =>
      ok && (lane < |s.lanes| ==> s.lanes[lane].current.Some? && s.lanes[lane].current == s.lanes[lane].reading)
    case Lose(lane) => lane < |s.lanes| ==> s.lanes[lane].stream == []
    case Dial(lane) => lane < |s.lanes| ==> s.lanes[lane].stream == []
    case _ => KeepsAll(a)
  }

  ghost predicate CalmRun(p: Path, actions: seq<DownAction>) {
    var n := |actions| - 1;
    |actions| > 0 ==>
      && CalmRun(p, actions[..n])
      && (DownRun(p, actions[..n]).Some? ==> Calm(DownRun(p, actions[..n]).value, actions[n]))
  }

  /** What was sent on the lane is what was taken, what is on the connection, and what is queued, in this order. */
  ghost predicate Exact(p: Path, l: DownLane, lane: nat, taken: seq<Frame>, sent: seq<Frame>) {
    && |taken| + |l.queue| <= |sent| && taken <= sent && AllProper(p, sent, lane)
    && l.queue == sent[|sent| - |l.queue|..]
    && Incomplete(l.unread, p.ClientLimit())
    && l.unread + l.stream == EncodeFrames(sent[|taken|..|sent| - |l.queue|])
  }

  ghost predicate Lossless(p: Path, s: DownState) {
    && p.lanes > 0 && |s.lanes| == p.lanes
    && (forall i :: 0 <= i < |s.sent| ==> s.sent[i].lane == s.sent[i].frame.header.session % p.lanes)
    && (forall i :: 0 <= i < |s.taken| ==> s.taken[i].lane == s.taken[i].frame.header.session % p.lanes)
    && (forall l :: 0 <= l < p.lanes ==> Exact(p, s.lanes[l], l, OnLane(s.taken, l), OnLane(s.sent, l)))
    && (forall session: U32 :: Decrypted(p.cipher, OfSession(Frames(s.sent), session)) == Inputs(s.fed, session))
  }

  lemma ExactLane(p: Path, s: DownState, l: nat)
    requires Lossless(p, s) && l < p.lanes
    ensures |s.lanes| == p.lanes && Exact(p, s.lanes[l], l, OnLane(s.taken, l), OnLane(s.sent, l))
  {
  }

  lemma NothingUnread(p: Path, l: DownLane, lane: nat, taken: seq<Frame>, sent: seq<Frame>)
    requires Exact(p, l, lane, taken, sent) && l.stream == []
    ensures l.unread == [] && taken + l.queue == sent
  {
    var wire := sent[|taken|..|sent| - |l.queue|];
    assert l.unread + l.stream == l.unread;
    if |wire| > 0 {
      assert Proper(p, wire[0], lane);
      ScanOfFrame(wire[0], EncodeFrames(wire[1..]), p.ClientLimit());
      ScanStuck(l.unread, p.ClientLimit());
    }
    assert sent == taken + wire + l.queue;
  }

  lemma ExactQueue(p: Path, l: DownLane, lane: nat, taken: seq<Frame>, sent: seq<Frame>, f: Frame)
    requires Exact(p, l, lane, taken, sent) && Proper(p, f, lane)
    ensures Exact(p, l.(queue := l.queue + [f]), lane, taken, sent + [f])
  {
    hide Proper, EncodeFrames, Incomplete;
    var k := |sent| - |l.queue|;
    assert (sent + [f])[k..] == sent[k..] + [f];
    assert (sent + [f])[|taken|..k] == sent[|taken|..k];
  }

  lemma ExactWrite(p: Path, l: DownLane, lane: nat, taken: seq<Frame>, sent: seq<Frame>, k: nat)
    requires Exact(p, l, lane, taken, sent) && k <= |l.queue|
    ensures Exact(p, l.(queue := l.queue[k..], stream := l.stream + EncodeFrames(l.queue[..k])), lane, taken, sent)
  {
    hide Proper, EncodeFrames, Incomplete;
    var from := |sent| - |l.queue|;
    var wire, out := sent[|taken|..from], l.queue[..k];
    EncodeFramesAppend(wire, out);
    assert wire + out == sent[|taken|..from + k];
    assert l.unread + (l.stream + EncodeFrames(out)) == l.unread + l.stream + EncodeFrames(out);
  }

  lemma ExactReceive(p: Path, l: DownLane, lane: nat, taken: seq<Frame>, sent: seq<Frame>, bytes: nat)
    requires Exact(p, l, lane, taken, sent) && bytes <= |l.stream|
    ensures var got := Feed(l.unread, l.stream[..bytes], p.ClientLimit());
            && AllProper(p, got.frames, lane)
            && Exact(p, l.(stream := l.stream[bytes..], unread := got.rest), lane, taken + got.frames, sent)
  {
    hide EncodeFrames, Parse, Acceptable, Incomplete;
    var to := |sent| - |l.queue|;
    var wire := sent[|taken|..to];
    var a, b := l.unread + l.stream[..bytes], l.stream[bytes..];
    assert a + b == l.unread + l.stream;
    forall i | 0 <= i < |wire| ensures Proper(p, wire[i], lane) {
      assert wire[i] == sent[|taken| + i];
    }
    T.ParsePart(a, b, wire, p.ClientLimit());
    var got := Feed(l.unread, l.stream[..bytes], p.ClientLimit());
    assert sent == taken + wire + sent[to..];
    assert wire[|got.frames|..] == sent[|taken + got.frames|..to];
  }

  /** A connection found, or given up with nothing on it. */
  lemma ExactMoved(p: Path, l: DownLane, lane: nat, taken: seq<Frame>, sent: seq<Frame>, t: DownLane)
    requires Exact(p, l, lane, taken, sent) && t.queue == l.queue
    requires (t.stream == l.stream && t.unread == l.unread) || (l.stream == [] && t.stream == [] && t.unread == [])
    ensures Exact(p, t, lane, taken, sent)
  {
    if l.stream == [] {
      NothingUnread(p, l, lane, taken, sent);
    }
  }

  // Steps.

  /** A step of one lane that neither sends nor takes a frame. */
  lemma ExactStep(p: Path, s: DownState, lane: nat, l: DownLane)
    requires Lossless(p, s) && lane < p.lanes && Exact(p, l, lane, OnLane(s.taken, lane), OnLane(s.sent, lane))
    ensures Lossless(p, s.(lanes := s.lanes[lane := l]))
  {
    hide Exact, Decrypted, OfSession, Frames, Inputs, OnLane;
  }

  lemma LaneActionExact(p: Path, s: DownState, a: DownAction)
    requires Lossless(p, s) && Calm(s, a) && !a.BackendRead? && !a.Receive? && DownStep(p, s, a).Some?
    ensures Lossless(p, DownStep(p, s, a).value)
  {
    hide Lossless, OnLane, Exact, EncodeFrames;
    LosslessSize(p, s);
    ExactLane(p, s, a.lane);
    var l, taken, sent := s.lanes[a.lane], OnLane(s.taken, a.lane), OnLane(s.sent, a.lane);
    var t := DownStep(p, s, a).value.lanes[a.lane];
    if a.Write? {
      ExactWrite(p, l, a.lane, taken, sent, a.frames);
    } else {
      ExactMoved(p, l, a.lane, taken, sent, t);
    }
    ExactStep(p, s, a.lane, t);
  }

  lemma LosslessSize(p: Path, s: DownState)
    requires Lossless(p, s)
    ensures |s.lanes| == p.lanes > 0
  {
  }

  lemma ReceiveExact(p: Path, s: DownState, a: DownAction)
    requires Lossless(p, s) && a.Receive? && DownStep(p, s, a).Some?
    ensures Lossless(p, DownStep(p, s, a).value)
  {
    hide Exact, OnLane, Parse, Feed, Handed, Decrypted, OfSession, Frames, Inputs;
    var t, l := DownStep(p, s, a).value, s.lanes[a.lane];
    var got := Feed(l.unread, l.stream[..a.bytes], p.ClientLimit());
    ExactLane(p, s, a.lane);
    ExactReceive(p, l, a.lane, OnLane(s.taken, a.lane), OnLane(s.sent, a.lane), a.bytes);
    forall k | 0 <= k < p.lanes
      ensures Exact(p, t.lanes[k], k, OnLane(t.taken, k), OnLane(t.sent, k))
    {
      T.OnLaneCarry(s.taken, a.lane, got.frames, k);
      assert OnLane(s.taken, k) + [] == OnLane(s.taken, k);
      ExactLane(p, s, k);
    }
  }

  lemma BackendExact(p: Path, s: DownState, a: DownAction)
    requires Fits(p) && Lossless(p, s) && a.BackendRead? && a.room && DownStep(p, s, a).Some?
    ensures Lossless(p, DownStep(p, s, a).value)
  {
    hide Fits, Exact, OnLane, OfSession, Decrypted, Inputs, Frames, DownFrame, Proper;
    var d := Datagram(a.session, Cut(a.datagram, p.serverMax));
    var f, lane, t := DownFrame(p, s.fed, d, a.number), a.session % p.lanes, DownStep(p, s, a).value;
    DownFrameFits(p, s.fed, d, a.number);
    SessionOf(p, s.fed, d, a.number);
    forall l | 0 <= l < p.lanes
      ensures Exact(p, t.lanes[l], l, OnLane(t.taken, l), OnLane(t.sent, l))
    {
      T.OnLaneSnoc(s.sent, Carried(lane, f), l);
      assert OnLane(s.sent, l) + [] == OnLane(s.sent, l);
      ExactLane(p, s, l);
      if l == lane {
        ExactQueue(p, s.lanes[l], l, OnLane(s.taken, l), OnLane(s.sent, l), f);
      }
    }
    forall session: U32
      ensures Decrypted(p.cipher, OfSession(Frames(t.sent), session)) == Inputs(t.fed, session)
    {
      T.InputsSnoc(s.fed, d, session);
      T.FramesSnoc(p.cipher, s.sent, Carried(lane, f), session, d.payload);
    }
  }

  lemma InitialLossless(p: Path)
    requires Fits(p)
    ensures Lossless(p, DownInitial(p))
  {
  }

  lemma {:induction false} CalmKeeps(p: Path, actions: seq<DownAction>)
    requires Fits(p) && DownRun(p, actions).Some? && CalmRun(p, actions)
    ensures Lossless(p, DownRun(p, actions).value) && AllKept(actions)
  {
    hide Fits, Lossless, DownStep, DownRun, KeepsAll;
    if |actions| == 0 {
      NothingRun(p);
      assert actions == [];
      InitialLossless(p);
    } else {
      var init, a := actions[..|actions| - 1], actions[|actions| - 1];
      RunBefore(p, actions);
      CalmKeeps(p, init);
      assert actions == init + [a];
      var s := DownRun(p, init).value;
      CalmKeepsAll(s, a);
      if a.Receive? {
        ReceiveExact(p, s, a);
      } else if a.BackendRead? {
        BackendExact(p, s, a);
      } else {
        LaneActionExact(p, s, a);
      }
    }
  }

  lemma CalmKeepsAll(s: DownState, a: DownAction)
    requires Calm(s, a)
    ensures KeepsAll(a)
  {
  }

  /** The queue is empty and nothing is on the connection. */
  predicate DownIdle(l: DownLane) {
    l.queue == [] && l.stream == []
  }

  lemma TakenPrefix(p: Path, l: DownLane, lane: nat, taken: seq<Frame>, sent: seq<Frame>)
    requires Exact(p, l, lane, taken, sent)
    ensures taken <= sent && (DownIdle(l) ==> taken == sent)
  {
    hide AllProper, Incomplete, EncodeFrames;
    if DownIdle(l) {
      NothingUnread(p, l, lane, taken, sent);
      assert taken + [] == taken;
    }
  }

  /** In a run that loses nothing, a session's peer has at every moment been handed the beginning of what the
      server read from the session's backend, in order and undamaged, and all of it once the lane is idle.
      Connections may be replaced meanwhile. */
  lemma PeersGetEverything(p: Path, actions: seq<DownAction>, session: U32)
    requires Fits(p) && DownRun(p, actions).Some? && CalmRun(p, actions)
    ensures var s := DownRun(p, actions).value;
            && |s.lanes| == p.lanes > 0
            && Inputs(s.handed, session) <= Inputs(s.fed, session)
            && (DownIdle(s.lanes[session % p.lanes]) ==> Inputs(s.handed, session) == Inputs(s.fed, session))
  {
    hide DownRun, CalmRun, Fits, Exact, OnLane, OfSession, Decrypted, Inputs, Frames, DownIdle, AllKept;
    CalmKeeps(p, actions);
    TakenAreHanded(p, actions);
    var s := DownRun(p, actions).value;
    var l := session % p.lanes;
    ExactLane(p, s, l);
    T.SeenOnLane(s.taken, session, l);
    T.SeenOnLane(s.sent, session, l);
    TakenPrefix(p, s.lanes[l], l, OnLane(s.taken, l), OnLane(s.sent, l));
    T.OfSessionPrefix(OnLane(s.taken, l), OnLane(s.sent, l), session);
    T.DecryptedPrefix(p.cipher, OfSession(OnLane(s.taken, l), session), OfSession(OnLane(s.sent, l), session));
  }

  // Only what is written to the connection the client reads can be found by the client.

  /** The frames of the lane's batches that the server has written to the connection the client was reading. */
  function PutOn(p: Path, actions: seq<DownAction>, lane: nat): seq<Frame> {
    if |actions| == 0 then []
    else
      var init, a := actions[..|actions| - 1], actions[|actions| - 1];
      PutOn(p, init, lane) + if DownRun(p, init).Some? then Batch(DownRun(p, init).value, a, lane) else []
  }

  function Batch(s: DownState, a: DownAction, lane: nat): seq<Frame> {
    if a.Write? && a.lane == lane && a.ok && lane < |s.lanes| && a.frames <= |s.lanes[lane].queue|
       && s.lanes[lane].current.Some? && s.lanes[lane].current == s.lanes[lane].reading
    then s.lanes[lane].queue[..a.frames] else []
  }

  lemma {:induction false} QueueMany(p: Path, l: DownLane, lane: nat, taken: seq<Frame>, put: seq<Frame>, out: seq<Frame>)
    requires LaneKept(p, l.(queue := []), lane, taken, put) && AllProper(p, out, lane)
    ensures LaneKept(p, l.(queue := out), lane, taken, put + out)
  {
    hide LaneKept, Proper;
    if |out| == 0 {
      assert put + out == put && out == [];
    } else {
      var init, f := out[..|out| - 1], out[|out| - 1];
      QueueMany(p, l, lane, taken, put, init);
      QueueLane(p, l.(queue := init), lane, taken, put + init, f);
      assert out == init + [f] && put + out == put + init + [f];
    }
  }

  lemma QueueProper(p: Path, s: DownState, lane: nat, k: nat)
    requires Kept(p, s) && lane < p.lanes && k <= |s.lanes[lane].queue|
    ensures AllProper(p, s.lanes[lane].queue[..k], lane)
  {
    KeptLane(p, s, lane);
  }

  /** One step, seen from one lane: put is what has been written to the connection being read before it. */
  lemma PutStep(p: Path, s: DownState, a: DownAction, lane: nat, put: seq<Frame>)
    requires Kept(p, s) && lane < p.lanes && DownStep(p, s, a).Some?
    requires LaneKept(p, s.lanes[lane].(queue := []), lane, OnLane(s.taken, lane), put)
    ensures var t := DownStep(p, s, a).value;
            && |t.lanes| == p.lanes
            && LaneKept(p, t.lanes[lane].(queue := []), lane, OnLane(t.taken, lane), put + Batch(s, a, lane))
  {
    hide LaneKept, OnLane, Kept, Feed, Parse, Handed, DownFrame, Carry, EncodeFrames, AllProper;
    KeptSizes(p, s);
    var t, l, taken := DownStep(p, s, a).value, s.lanes[lane], OnLane(s.taken, lane);
    assert put + [] == put;
    if a.Write? && a.lane == lane {
      var out := Batch(s, a, lane);
      QueueProper(p, s, lane, a.frames);
      NoneProper(p, lane);
      QueueMany(p, l, lane, taken, put, out);
      WriteLane(p, l.(queue := out), lane, taken, put + out, |out|);
      NoFrames();
      assert out[..|out|] == out && out[|out|..] == [] && l.stream + [] == l.stream;
    } else if a.Receive? {
      PutReceive(p, s, a, lane, put);
    } else if (a.Lose? || a.Dial?) && a.lane == lane {
      LoseLane(p, l.(queue := []), lane, taken, put, t.lanes[lane].(queue := []));
    } else if (a.SetConn? || a.ClearConn?) && a.lane == lane {
      SameBytes(p, l.(queue := []), lane, taken, put, t.lanes[lane].(queue := []));
    }
  }

  lemma NoneProper(p: Path, lane: nat)
    ensures AllProper(p, [], lane)
  {
  }

  lemma NoFrames()
    ensures EncodeFrames([]) == []
  {
  }

  lemma PutReceive(p: Path, s: DownState, a: DownAction, lane: nat, put: seq<Frame>)
    requires Kept(p, s) && lane < p.lanes && a.Receive? && DownStep(p, s, a).Some?
    requires LaneKept(p, s.lanes[lane].(queue := []), lane, OnLane(s.taken, lane), put)
    ensures var t := DownStep(p, s, a).value;
            |t.lanes| == p.lanes && LaneKept(p, t.lanes[lane].(queue := []), lane, OnLane(t.taken, lane), put)
  {
    hide LaneKept, OnLane, Kept, Feed, Parse, Handed, Carry, AllProper;
    KeptSizes(p, s);
    var l := s.lanes[a.lane];
    var got := Feed(l.unread, l.stream[..a.bytes], p.ClientLimit());
    T.OnLaneCarry(s.taken, a.lane, got.frames, lane);
    if a.lane == lane {
      ReceiveLane(p, l.(queue := []), lane, OnLane(s.taken, lane), put, a.bytes);
    } else {
      assert OnLane(s.taken, lane) + [] == OnLane(s.taken, lane);
    }
  }

  lemma {:induction false} PutKept(p: Path, actions: seq<DownAction>, lane: nat)
    requires Fits(p) && DownRun(p, actions).Some? && lane < p.lanes
    ensures var s := DownRun(p, actions).value;
            && |s.lanes| == p.lanes
            && LaneKept(p, s.lanes[lane].(queue := []), lane, OnLane(s.taken, lane), PutOn(p, actions, lane))
  {
    hide Fits, Kept, LaneKept, DownStep, DownRun, Batch, OnLane;
    RunSize(p, actions);
    if |actions| == 0 {
      NothingRun(p);
      assert actions == [];
      PutInitial(p, lane);
    } else {
      var init := actions[..|actions| - 1];
      RunBefore(p, actions);
      PutKept(p, init, lane);
      RunKept(p, init);
      PutStep(p, DownRun(p, init).value, actions[|actions| - 1], lane, PutOn(p, init, lane));
    }
  }

  lemma PutInitial(p: Path, lane: nat)
    requires Fits(p) && lane < p.lanes
    ensures LaneKept(p, DownInitial(p).lanes[lane].(queue := []), lane, OnLane(DownInitial(p).taken, lane), PutOn(p, [], lane))
  {
    InitialKept(p);
    KeptLane(p, DownInitial(p), lane);
  }

  /** The client finds frames of those batches only that the server wrote to the connection the client was reading: what
      goes to an earlier connection of the lane, or to none, is never found. */
  lemma TakenWerePutOn(p: Path, actions: seq<DownAction>, lane: nat)
    requires Fits(p) && DownRun(p, actions).Some? && lane < p.lanes
    ensures Sub(OnLane(DownRun(p, actions).value.taken, lane), PutOn(p, actions, lane))
  {
    hide DownRun, Fits, OnLane, PutOn, Sub, AllProper;
    PutKept(p, actions, lane);
    var s, put := DownRun(p, actions).value, PutOn(p, actions, lane);
    var taken, l := OnLane(s.taken, lane), s.lanes[lane].(queue := []);
    var wire :| OnWire(p, l, lane, taken, put, wire);
    SubSelf(taken);
    SubMore(taken, taken, wire + l.queue);
    assert taken + (wire + l.queue) == taken + wire + l.queue;
    SubTransitive(taken, taken + wire + l.queue, put);
  }

  // Whatever has happened, a lane can carry the next datagram.

  /** One action more. */
  lemma Further(p: Path, actions: seq<DownAction>, a: DownAction) returns (longer: seq<DownAction>)
    requires DownRun(p, actions).Some? && DownStep(p, DownRun(p, actions).value, a).Some?
    ensures actions <= longer && DownRun(p, longer) == DownStep(p, DownRun(p, actions).value, a)
  {
    longer := actions + [a];
    assert longer[..|actions|] == actions;
  }

  lemma StepSize(p: Path, s: DownState, a: DownAction)
    requires DownStep(p, s, a).Some?
    ensures |DownStep(p, s, a).value.lanes| == |s.lanes|
  {
    hide Feed, Parse, Handed, DownFrame, Carry, EncodeFrames;
  }

  lemma {:induction false} RunSize(p: Path, actions: seq<DownAction>)
    requires DownRun(p, actions).Some?
    ensures |DownRun(p, actions).value.lanes| == p.lanes
  {
    if |actions| == 0 {
      assert actions == [];
    } else {
      hide DownRun, DownStep;
      RunBefore(p, actions);
      RunSize(p, actions[..|actions| - 1]);
      StepSize(p, DownRun(p, actions[..|actions| - 1]).value, actions[|actions| - 1]);
    }
  }

  /** A lane with a fresh connection that the server knows of and an empty queue. */
  predicate Ready(l: DownLane, c: nat) {
    l == DownLane([], Some(c), Some(c), c + 1, [], [])
  }

  /** The lane's connection is lost, what is queued for it is dropped, and the client dials again. */
  lemma Reconnected(p: Path, actions: seq<DownAction>, lane: nat) returns (longer: seq<DownAction>, c: nat)
    requires DownRun(p, actions).Some? && lane < p.lanes
    ensures actions <= longer && DownRun(p, longer).Some?
    ensures DownRun(p, longer).value.handed == DownRun(p, actions).value.handed
    ensures |DownRun(p, longer).value.lanes| == p.lanes
    ensures Ready(DownRun(p, longer).value.lanes[lane], c)
  {
    hide DownRun, Feed, Parse, Handed, DownFrame, Carry, EncodeFrames;
    RunSize(p, actions);
    var l := DownRun(p, actions).value.lanes[lane];
    longer := Further(p, actions, Lose(lane));
    longer := Further(p, longer, Write(lane, |l.queue|, false));
    longer := Further(p, longer, Dial(lane));
    c := l.dialled;
    longer := Further(p, longer, SetConn(lane, c));
  }

  lemma Received(p: Path, s: DownState, lane: nat, f: Frame) returns (t: DownState)
    requires lane < |s.lanes| && s.lanes[lane].reading.Some?
    requires s.lanes[lane].unread == [] && s.lanes[lane].stream == EncodeFrames([f])
    requires Acceptable(f, p.ClientLimit())
    ensures DownStep(p, s, Receive(lane, |EncodeFrames([f])|, _ => true)) == Some(t)
    ensures t.handed == s.handed + Handed(p.cipher, [f], _ => true)
  {
    hide Handed, EncodeFrames, Parse, Acceptable;
    var bytes := EncodeFrames([f]);
    assert [] + bytes[..|bytes|] == bytes;
    FramesRoundTrip([f], p.ClientLimit());
    t := DownStep(p, s, Receive(lane, |bytes|, _ => true)).value;
  }

  lemma HandedData(cipher: Cipher, f: Frame, keep: nat -> bool, plain: seq<Byte>)
    requires f.header.kind == TYPE_DATA && cipher.decrypt(f.payload) == Some(plain) && keep(0)
    ensures Handed(cipher, [f], keep) == [Datagram(f.header.session, plain)]
  {
    assert [f][..0] == [];
    assert Handed(cipher, [], keep) == [];
  }

  /** From any moment of any run a datagram read from a backend can still get through to the session's peer: the
      client dials the session's lane anew, the server takes the new connection for it, and the datagram, cut
      to the server's MaxPacketSize, is queued, written, and handed on. */
  lemma NextGetsThrough(p: Path, actions: seq<DownAction>, session: U32, number: U32, datagram: seq<Byte>)
    returns (longer: seq<DownAction>)
    requires Fits(p) && DownRun(p, actions).Some?
    ensures actions <= longer && DownRun(p, longer).Some?
    ensures DownRun(p, longer).value.handed
         == DownRun(p, actions).value.handed + [Datagram(session, Cut(datagram, p.serverMax))]
  {
    hide DownRun, Feed, Parse, Handed, DownFrame, Carry, EncodeFrames, Fits, Acceptable;
    LanesExist(p);
    var lane := session % p.lanes;
    var c;
    longer, c := Reconnected(p, actions, lane);
    var s := DownRun(p, longer).value;
    var d := Datagram(session, Cut(datagram, p.serverMax));
    var f := DownFrame(p, s.fed, d, number);
    DownFrameFits(p, s.fed, d, number);
    SessionOf(p, s.fed, d, number);
    longer := Further(p, longer, BackendRead(session, number, datagram, true));
    assert DownRun(p, longer).value.lanes[lane].queue == [] + [f] == [f];
    assert [f][..1] == [f];
    longer := Further(p, longer, Write(lane, 1, true));
    s := DownRun(p, longer).value;
    assert s.lanes[lane].stream == [] + EncodeFrames([f]);
    assert s.lanes[lane].stream == EncodeFrames([f]);
    var t := Received(p, s, lane, f);
    longer := Further(p, longer, Receive(lane, |EncodeFrames([f])|, _ => true));
    HandedData(p.cipher, f, _ => true, d.payload);
  }

  lemma LanesExist(p: Path)
    requires Fits(p)
    ensures p.lanes > 0
  {
  }
}

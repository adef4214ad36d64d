/** What a session's peer gets is what its backend sent, in order and undamaged, possibly with gaps. */
module DownstreamOrder {
  import opened Bytes
  import opened Packet
  import opened Framing
  import opened Tunnel
  import opened Subsequences
  import opened Downstream
  import T = TunnelSafety

  /** A data frame that belongs on this lane and passes the client's limit. */
  predicate Proper(p: Path, f: Frame, lane: nat) {
    p.lanes > 0 && f.header.kind == TYPE_DATA && f.header.session % p.lanes == lane && Acceptable(f, p.ClientLimit())
  }

  predicate AllProper(p: Path, frames: seq<Frame>, lane: nat) {
    forall i :: 0 <= i < |frames| ==> Proper(p, frames[i], lane)
  }

  /** wire: the frames on their way on the connection being read. Together with those taken before and those still
      queued they are what was sent on the lane, with gaps. */
  ghost predicate OnWire(p: Path, l: DownLane, lane: nat, taken: seq<Frame>, sent: seq<Frame>, wire: seq<Frame>) {
    && AllProper(p, wire, lane) && AllProper(p, l.queue, lane)
    && l.unread + l.stream == EncodeFrames(wire)
    && Sub(taken + wire + l.queue, sent)
  }

  ghost predicate LaneKept(p: Path, l: DownLane, lane: nat, taken: seq<Frame>, sent: seq<Frame>) {
    exists wire :: OnWire(p, l, lane, taken, sent, wire)
  }

  ghost predicate Kept(p: Path, s: DownState) {
    && p.lanes > 0 && |s.lanes| == p.lanes && s.resets == 0
    && (forall i :: 0 <= i < |s.sent| ==> s.sent[i].lane == s.sent[i].frame.header.session % p.lanes)
    && (forall i :: 0 <= i < |s.taken| ==> s.taken[i].lane == s.taken[i].frame.header.session % p.lanes)
    && (forall l :: 0 <= l < p.lanes ==>
          LaneKept(p, s.lanes[l], l, OnLane(s.taken, l), OnLane(s.sent, l)))
  }

  /** What came out of the frames is a subsequence of what went into them, for every session. */
  ghost predicate Ordered(p: Path, s: DownState) {
    forall session: U32 ::
      && Sub(Inputs(s.handed, session), Decrypted(p.cipher, OfSession(Frames(s.taken), session)))
      && Sub(Decrypted(p.cipher, OfSession(Frames(s.sent), session)), Inputs(s.fed, session))
  }

  // Lanes.

  lemma DownFrameFits(p: Path, fed: seq<Datagram>, d: Datagram, number: U32)
    requires Fits(p) && |d.payload| <= p.serverMax
    ensures Proper(p, DownFrame(p, fed, d, number), d.session % p.lanes)
    ensures p.cipher.decrypt(DownFrame(p, fed, d, number).payload) == Some(d.payload)
  {
  }

  lemma QueueLane(p: Path, l: DownLane, lane: nat, taken: seq<Frame>, sent: seq<Frame>, f: Frame)
    requires LaneKept(p, l, lane, taken, sent) && Proper(p, f, lane)
    ensures LaneKept(p, l.(queue := l.queue + [f]), lane, taken, sent + [f])
  {
    hide Proper;
    var wire :| OnWire(p, l, lane, taken, sent, wire);
    SubBoth(taken + wire + l.queue, sent, f);
    assert taken + wire + l.queue + [f] == taken + wire + (l.queue + [f]);
    assert OnWire(p, l.(queue := l.queue + [f]), lane, taken, sent + [f], wire);
  }

  /** A batch put on the connection being read. */
  lemma WriteLane(p: Path, l: DownLane, lane: nat, taken: seq<Frame>, sent: seq<Frame>, k: nat)
    requires LaneKept(p, l, lane, taken, sent) && k <= |l.queue|
    ensures LaneKept(p, l.(queue := l.queue[k..], stream := l.stream + EncodeFrames(l.queue[..k])), lane, taken, sent)
  {
    hide Proper, EncodeFrames, Sub;
    var wire :| OnWire(p, l, lane, taken, sent, wire);
    var out := l.queue[..k];
    EncodeFramesAppend(wire, out);
    assert taken + (wire + out) + l.queue[k..] == taken + wire + l.queue;
    var t := l.(queue := l.queue[k..], stream := l.stream + EncodeFrames(out));
    assert t.unread + t.stream == EncodeFrames(wire + out);
    assert OnWire(p, t, lane, taken, sent, wire + out);
  }

  /** A batch that is lost. */
  lemma DropLane(p: Path, l: DownLane, lane: nat, taken: seq<Frame>, sent: seq<Frame>, k: nat)
    requires LaneKept(p, l, lane, taken, sent) && k <= |l.queue|
    ensures LaneKept(p, l.(queue := l.queue[k..]), lane, taken, sent)
  {
    hide Proper, EncodeFrames, Sub;
    var wire :| OnWire(p, l, lane, taken, sent, wire);
    SubWithout(taken + wire, l.queue[..k], l.queue[k..]);
    assert taken + wire + l.queue[..k] + l.queue[k..] == taken + wire + l.queue;
    SubTransitive(taken + wire + l.queue[k..], taken + wire + l.queue, sent);
    assert OnWire(p, l.(queue := l.queue[k..]), lane, taken, sent, wire);
  }

  /** A connection given up, with everything on it. */
  lemma LoseLane(p: Path, l: DownLane, lane: nat, taken: seq<Frame>, sent: seq<Frame>, t: DownLane)
    requires LaneKept(p, l, lane, taken, sent) && t.queue == l.queue && t.stream == [] && t.unread == []
    ensures LaneKept(p, t, lane, taken, sent)
  {
    hide Proper, Sub;
    var wire :| OnWire(p, l, lane, taken, sent, wire);
    SubWithout(taken, wire, l.queue);
    SubTransitive(taken + l.queue, taken + wire + l.queue, sent);
    assert taken + [] + l.queue == taken + l.queue;
    assert OnWire(p, t, lane, taken, sent, []);
  }

  lemma ReceiveLane(p: Path, l: DownLane, lane: nat, taken: seq<Frame>, sent: seq<Frame>, bytes: nat)
    requires LaneKept(p, l, lane, taken, sent) && bytes <= |l.stream|
    ensures var got := Feed(l.unread, l.stream[..bytes], p.ClientLimit());
            && !Parse(l.unread + l.stream[..bytes], p.ClientLimit()).malformed
            && AllProper(p, got.frames, lane)
            && LaneKept(p, l.(stream := l.stream[bytes..], unread := got.rest), lane, taken + got.frames, sent)
  {
    hide EncodeFrames, Parse, Sub, Acceptable, Incomplete;
    var wire :| OnWire(p, l, lane, taken, sent, wire);
    var a, b := l.unread + l.stream[..bytes], l.stream[bytes..];
    assert a + b == l.unread + l.stream;
    T.ParsePart(a, b, wire, p.ClientLimit());
    var got := Feed(l.unread, l.stream[..bytes], p.ClientLimit());
    var rest := wire[|got.frames|..];
    assert wire == got.frames + rest;
    assert taken + got.frames + rest + l.queue == taken + wire + l.queue;
    assert OnWire(p, l.(stream := b, unread := got.rest), lane, taken + got.frames, sent, rest);
  }

  // Steps.

  lemma KeptLane(p: Path, s: DownState, l: nat)
    requires Kept(p, s) && l < p.lanes
    ensures LaneKept(p, s.lanes[l], l, OnLane(s.taken, l), OnLane(s.sent, l))
  {
  }

  /** A step of one lane that neither sends nor takes a frame. */
  lemma LaneStep(p: Path, s: DownState, lane: nat, l: DownLane)
    requires Kept(p, s) && lane < p.lanes && LaneKept(p, l, lane, OnLane(s.taken, lane), OnLane(s.sent, lane))
    ensures Kept(p, s.(lanes := s.lanes[lane := l]))
  {
    hide LaneKept;
  }

  lemma WriteKeeps(p: Path, s: DownState, a: DownAction)
    requires Kept(p, s) && a.Write? && DownStep(p, s, a).Some?
    ensures Kept(p, DownStep(p, s, a).value)
  {
    hide Kept, LaneKept;
    KeptSizes(p, s);
    KeptLane(p, s, a.lane);
    var l := s.lanes[a.lane];
    WriteLane(p, l, a.lane, OnLane(s.taken, a.lane), OnLane(s.sent, a.lane), a.frames);
    DropLane(p, l, a.lane, OnLane(s.taken, a.lane), OnLane(s.sent, a.lane), a.frames);
    LaneStep(p, s, a.lane, DownStep(p, s, a).value.lanes[a.lane]);
  }

  lemma KeptSizes(p: Path, s: DownState)
    requires Kept(p, s)
    ensures p.lanes > 0 && |s.lanes| == p.lanes && s.resets == 0
  {
  }

  lemma SameBytes(p: Path, l: DownLane, lane: nat, taken: seq<Frame>, sent: seq<Frame>, t: DownLane)
    requires LaneKept(p, l, lane, taken, sent) && t.queue == l.queue && t.stream == l.stream && t.unread == l.unread
    ensures LaneKept(p, t, lane, taken, sent)
  {
    var wire :| OnWire(p, l, lane, taken, sent, wire);
    assert OnWire(p, t, lane, taken, sent, wire);
  }

  lemma ConnKeeps(p: Path, s: DownState, a: DownAction)
    requires Kept(p, s) && (a.SetConn? || a.ClearConn? || a.Dial? || a.Lose?) && DownStep(p, s, a).Some?
    ensures Kept(p, DownStep(p, s, a).value)
  {
    hide Kept, LaneKept;
    KeptSizes(p, s);
    KeptLane(p, s, a.lane);
    var t := DownStep(p, s, a).value.lanes[a.lane];
    if a.Dial? || a.Lose? {
      LoseLane(p, s.lanes[a.lane], a.lane, OnLane(s.taken, a.lane), OnLane(s.sent, a.lane), t);
    } else {
      SameBytes(p, s.lanes[a.lane], a.lane, OnLane(s.taken, a.lane), OnLane(s.sent, a.lane), t);
    }
    LaneStep(p, s, a.lane, t);
  }

  lemma BackendKeeps(p: Path, s: DownState, a: DownAction)
    requires Fits(p) && Kept(p, s) && a.BackendRead? && DownStep(p, s, a).Some?
    ensures Kept(p, DownStep(p, s, a).value)
  {
    hide Fits, LaneKept, DownFrame, OnLane, Proper;
    var d := Datagram(a.session, Cut(a.datagram, p.serverMax));
    var f, lane, t := DownFrame(p, s.fed, d, a.number), a.session % p.lanes, DownStep(p, s, a).value;
    DownFrameFits(p, s.fed, d, a.number);
    assert Kept(p, s.(fed := s.fed + [d]));
    if a.room {
      SessionOf(p, s.fed, d, a.number);
      KeptLane(p, s, lane);
      QueueLane(p, s.lanes[lane], lane, OnLane(s.taken, lane), OnLane(s.sent, lane), f);
      forall l | 0 <= l < p.lanes
        ensures LaneKept(p, t.lanes[l], l, OnLane(t.taken, l), OnLane(t.sent, l))
      {
        T.OnLaneSnoc(s.sent, Carried(lane, f), l);
        assert OnLane(s.sent, l) + [] == OnLane(s.sent, l);
        KeptLane(p, s, l);
      }
    }
  }

  lemma SessionOf(p: Path, fed: seq<Datagram>, d: Datagram, number: U32)
    ensures DownFrame(p, fed, d, number).header.session == d.session
  {
  }

  lemma ReceiveKeeps(p: Path, s: DownState, a: DownAction)
    requires Kept(p, s) && a.Receive? && DownStep(p, s, a).Some?
    ensures Kept(p, DownStep(p, s, a).value)
  {
    hide LaneKept, OnLane, Parse, Feed, Handed;
    var t, l := DownStep(p, s, a).value, s.lanes[a.lane];
    var got := Feed(l.unread, l.stream[..a.bytes], p.ClientLimit());
    KeptLane(p, s, a.lane);
    ReceiveLane(p, l, a.lane, OnLane(s.taken, a.lane), OnLane(s.sent, a.lane), a.bytes);
    forall k | 0 <= k < p.lanes
      ensures LaneKept(p, t.lanes[k], k, OnLane(t.taken, k), OnLane(t.sent, k))
    {
      T.OnLaneCarry(s.taken, a.lane, got.frames, k);
      assert OnLane(s.taken, k) + [] == OnLane(s.taken, k);
      KeptLane(p, s, k);
    }
  }

  // Order.

  lemma FramesPlus(log: seq<Carried>, lane: nat, frames: seq<Frame>)
    ensures Frames(log + Carry(lane, frames)) == Frames(log) + frames
  {
  }

  lemma {:induction false} OfSessionPlus(a: seq<Frame>, b: seq<Frame>, session: U32)
    ensures OfSession(a + b, session) == OfSession(a, session) + OfSession(b, session)
  {
    if |b| == 0 {
      assert a + b == a;
    } else {
      OfSessionPlus(a, b[..|b| - 1], session);
      assert (a + b)[..|a + b| - 1] == a + b[..|b| - 1];
    }
  }

  lemma {:induction false} DecryptedPlus(cipher: Cipher, a: seq<Frame>, b: seq<Frame>)
    ensures Decrypted(cipher, a + b) == Decrypted(cipher, a) + Decrypted(cipher, b)
  {
    if |b| == 0 {
      assert a + b == a;
    } else {
      DecryptedPlus(cipher, a, b[..|b| - 1]);
      assert (a + b)[..|a + b| - 1] == a + b[..|b| - 1];
    }
  }

  lemma {:induction false} InputsPlus(a: seq<Datagram>, b: seq<Datagram>, session: U32)
    ensures Inputs(a + b, session) == Inputs(a, session) + Inputs(b, session)
  {
    if |b| == 0 {
      assert a + b == a;
    } else {
      InputsPlus(a, b[..|b| - 1], session);
      assert (a + b)[..|a + b| - 1] == a + b[..|b| - 1];
    }
  }

  lemma {:induction false} SubConcat<T>(a: seq<T>, b: seq<T>, c: seq<T>, d: seq<T>)
    requires Sub(a, b) && Sub(c, d)
    ensures Sub(a + c, b + d)
    decreases |d|
  {
    if |c| == 0 {
      SubMore(a, b, d);
      assert a + c == a;
    } else {
      var c0, d0 := c[..|c| - 1], d[..|d| - 1];
      assert (a + c)[..|a + c| - 1] == a + c0 && (b + d)[..|b + d| - 1] == b + d0;
      if c[|c| - 1] == d[|d| - 1] && Sub(c0, d0) {
        SubConcat(a, b, c0, d0);
      } else {
        SubConcat(a, b, c, d0);
      }
    }
  }

  /** What is handed on for some frames, against what they hold. */
  lemma {:induction false} HandedSub(cipher: Cipher, frames: seq<Frame>, keep: nat -> bool, session: U32)
    ensures Sub(Inputs(Handed(cipher, frames, keep), session), Decrypted(cipher, OfSession(frames, session)))
  {
    if |frames| > 0 {
      hide OfSession, Decrypted, Handed, Inputs, Sub;
      var init, f := frames[..|frames| - 1], frames[|frames| - 1];
      assert frames == init + [f];
      HandedSub(cipher, init, keep, session);
      OfSessionPlus(init, [f], session);
      DecryptedPlus(cipher, OfSession(init, session), OfSession([f], session));
      HandedOne(cipher, frames, keep, session);
      SubConcat(Inputs(Handed(cipher, init, keep), session), Decrypted(cipher, OfSession(init, session)),
                Inputs(LastHanded(cipher, frames, keep), session), Decrypted(cipher, OfSession([f], session)));
      InputsPlus(Handed(cipher, init, keep), LastHanded(cipher, frames, keep), session);
    }
  }

  function LastHanded(cipher: Cipher, frames: seq<Frame>, keep: nat -> bool): seq<Datagram>
    requires |frames| > 0
  {
    var n := |frames| - 1;
    var plain := cipher.decrypt(frames[n].payload);
    if frames[n].header.kind != TYPE_CONTROL && frames[n].header.kind != TYPE_HEARTBEAT && plain.Some? && keep(n)
    then [Datagram(frames[n].header.session, plain.value)] else []
  }

  lemma HandedOne(cipher: Cipher, frames: seq<Frame>, keep: nat -> bool, session: U32)
    requires |frames| > 0
    ensures var n := |frames| - 1;
            && Handed(cipher, frames, keep) == Handed(cipher, frames[..n], keep) + LastHanded(cipher, frames, keep)
            && Sub(Inputs(LastHanded(cipher, frames, keep), session), Decrypted(cipher, OfSession([frames[n]], session)))
  {
    var f := frames[|frames| - 1];
    assert [f][..0] == [];
    assert OfSession([f], session) == if f.header.session == session then [f] else [];
    var last := LastHanded(cipher, frames, keep);
    assert |last| == 1 ==> last[..0] == [];
  }

  lemma ReceiveOrdered(p: Path, s: DownState, a: DownAction)
    requires Ordered(p, s) && a.Receive? && DownStep(p, s, a).Some?
    ensures Ordered(p, DownStep(p, s, a).value)
  {
    hide OfSession, Decrypted, Handed, Inputs, Sub, Feed, Parse, Frames, Carry;
    var t, l := DownStep(p, s, a).value, s.lanes[a.lane];
    var got := Feed(l.unread, l.stream[..a.bytes], p.ClientLimit());
    FramesPlus(s.taken, a.lane, got.frames);
    forall session: U32
      ensures Sub(Inputs(t.handed, session), Decrypted(p.cipher, OfSession(Frames(t.taken), session)))
    {
      HandedSub(p.cipher, got.frames, a.keep, session);
      InputsPlus(s.handed, Handed(p.cipher, got.frames, a.keep), session);
      OfSessionPlus(Frames(s.taken), got.frames, session);
      DecryptedPlus(p.cipher, OfSession(Frames(s.taken), session), OfSession(got.frames, session));
      SubConcat(Inputs(s.handed, session), Decrypted(p.cipher, OfSession(Frames(s.taken), session)),
                Inputs(Handed(p.cipher, got.frames, a.keep), session),
                Decrypted(p.cipher, OfSession(got.frames, session)));
    }
  }

  lemma BackendOrdered(p: Path, s: DownState, a: DownAction)
    requires Fits(p) && Ordered(p, s) && a.BackendRead? && DownStep(p, s, a).Some?
    ensures Ordered(p, DownStep(p, s, a).value)
  {
    hide Fits, OfSession, Decrypted, Inputs, Sub, Frames, DownFrame, Proper;
    var d := Datagram(a.session, Cut(a.datagram, p.serverMax));
    var f, lane, t := DownFrame(p, s.fed, d, a.number), a.session % p.lanes, DownStep(p, s, a).value;
    DownFrameFits(p, s.fed, d, a.number);
    SessionOf(p, s.fed, d, a.number);
    forall session: U32
      ensures Sub(Decrypted(p.cipher, OfSession(Frames(t.sent), session)), Inputs(t.fed, session))
    {
      var had := Decrypted(p.cipher, OfSession(Frames(s.sent), session));
      T.InputsSnoc(s.fed, d, session);
      T.FramesSnoc(p.cipher, s.sent, Carried(lane, f), session, d.payload);
      assert had + [] == had && Inputs(s.fed, session) + [] == Inputs(s.fed, session);
      SubBoth(had, Inputs(s.fed, session), d.payload);
      SubSkip(had, Inputs(s.fed, session), d.payload);
    }
  }

  lemma InitialKept(p: Path)
    requires Fits(p)
    ensures Kept(p, DownInitial(p)) && Ordered(p, DownInitial(p))
  {
    forall l | 0 <= l < p.lanes ensures LaneKept(p, DownInitial(p).lanes[l], l, OnLane([], l), OnLane([], l)) {
      assert OnWire(p, DownInitial(p).lanes[l], l, OnLane([], l), OnLane([], l), []);
    }
  }

  lemma OthersOrdered(p: Path, s: DownState, a: DownAction)
    requires Ordered(p, s) && !a.Receive? && !a.BackendRead? && DownStep(p, s, a).Some?
    ensures Ordered(p, DownStep(p, s, a).value)
  {
  }

  lemma {:induction false} RunKept(p: Path, actions: seq<DownAction>)
    requires Fits(p) && DownRun(p, actions).Some?
    ensures Kept(p, DownRun(p, actions).value) && Ordered(p, DownRun(p, actions).value)
  {
    hide Fits, Kept, Ordered, DownStep;
    if |actions| == 0 {
      InitialKept(p);
    } else {
      var a := actions[|actions| - 1];
      RunKept(p, actions[..|actions| - 1]);
      var s := DownRun(p, actions[..|actions| - 1]).value;
      if a.BackendRead? {
        BackendKeeps(p, s, a);
        BackendOrdered(p, s, a);
      } else if a.Receive? {
        ReceiveKeeps(p, s, a);
        ReceiveOrdered(p, s, a);
      } else {
        OthersOrdered(p, s, a);
        if a.Write? {
          WriteKeeps(p, s, a);
        } else {
          ConnKeeps(p, s, a);
        }
      }
    }
  }

  // The result.

  lemma {:induction false} OfSessionSub(a: seq<Frame>, b: seq<Frame>, session: U32)
    requires Sub(a, b)
    ensures Sub(OfSession(a, session), OfSession(b, session))
    decreases |b|
  {
    if |a| > 0 {
      var a0, b0 := a[..|a| - 1], b[..|b| - 1];
      assert OfSession(a0, session) + [] == OfSession(a0, session) && OfSession(b0, session) + [] == OfSession(b0, session);
      if a[|a| - 1] == b[|b| - 1] && Sub(a0, b0) {
        OfSessionSub(a0, b0, session);
        if b[|b| - 1].header.session == session {
          SubBoth(OfSession(a0, session), OfSession(b0, session), b[|b| - 1]);
        }
      } else {
        OfSessionSub(a, b0, session);
        if b[|b| - 1].header.session == session {
          SubSkip(OfSession(a, session), OfSession(b0, session), b[|b| - 1]);
        }
      }
    }
  }

  lemma {:induction false} DecryptedSub(cipher: Cipher, a: seq<Frame>, b: seq<Frame>)
    requires Sub(a, b)
    ensures Sub(Decrypted(cipher, a), Decrypted(cipher, b))
    decreases |b|
  {
    if |a| > 0 {
      var a0, b0 := a[..|a| - 1], b[..|b| - 1];
      var plain := cipher.decrypt(b[|b| - 1].payload);
      assert Decrypted(cipher, a0) + [] == Decrypted(cipher, a0) && Decrypted(cipher, b0) + [] == Decrypted(cipher, b0);
      if a[|a| - 1] == b[|b| - 1] && Sub(a0, b0) {
        DecryptedSub(cipher, a0, b0);
        if plain.Some? {
          SubBoth(Decrypted(cipher, a0), Decrypted(cipher, b0), plain.value);
        }
      } else {
        DecryptedSub(cipher, a, b0);
        if plain.Some? {
          SubSkip(Decrypted(cipher, a), Decrypted(cipher, b0), plain.value);
        }
      }
    }
  }

  lemma TakenSub(p: Path, s: DownState, l: nat)
    requires Kept(p, s) && l < p.lanes
    ensures Sub(OnLane(s.taken, l), OnLane(s.sent, l))
  {
    hide Sub, OnLane, AllProper;
    KeptLane(p, s, l);
    var taken, lane := OnLane(s.taken, l), s.lanes[l];
    var wire :| OnWire(p, lane, l, taken, OnLane(s.sent, l), wire);
    SubSelf(taken);
    SubMore(taken, taken, wire + lane.queue);
    assert taken + (wire + lane.queue) == taken + wire + lane.queue;
    SubTransitive(taken, taken + wire + lane.queue, OnLane(s.sent, l));
  }

  /** In every run, however often the lanes lose and replace their connections, whatever is dropped on the way, and
      whichever connection the server takes for a lane's: the client never meets a bad header, and what it hands
      to a session's peer is a subsequence, in order and undamaged, of what the server read from the session's
      backend. */
  lemma PeersGetSubsequences(p: Path, actions: seq<DownAction>, session: U32)
    requires Fits(p) && DownRun(p, actions).Some?
    ensures var s := DownRun(p, actions).value;
            s.resets == 0 && Sub(Inputs(s.handed, session), Inputs(s.fed, session))
  {
    hide DownRun, Fits, Sub, OnLane, OfSession, Decrypted, Inputs, LaneKept, Frames;
    RunKept(p, actions);
    var s := DownRun(p, actions).value;
    var l := session % p.lanes;
    T.SeenOnLane(s.taken, session, l);
    T.SeenOnLane(s.sent, session, l);
    TakenSub(p, s, l);
    OfSessionSub(OnLane(s.taken, l), OnLane(s.sent, l), session);
    DecryptedSub(p.cipher, OfSession(OnLane(s.taken, l), session), OfSession(OnLane(s.sent, l), session));
    var taken, sent := Decrypted(p.cipher, OfSession(Frames(s.taken), session)),
                       Decrypted(p.cipher, OfSession(Frames(s.sent), session));
    SubTransitive(Inputs(s.handed, session), taken, sent);
    SubTransitive(Inputs(s.handed, session), sent, Inputs(s.fed, session));
  }

  // The client's limit.

  ghost predicate NeverResets(p: Path) {
    forall actions :: DownRun(p, actions).Some? ==> DownRun(p, actions).value.resets == 0
  }

  /** The client meets no bad header in any run exactly when the server's MaxPacketSize exceeds its own by no more
      than the 2048 bytes it allows for. */
  lemma ClientLimitExactly(p: Path)
    requires Possible(p)
    ensures NeverResets(p) <==> p.serverMax <= p.clientMax + 2048
  {
    hide DownRun;
    if p.serverMax <= p.clientMax + 2048 {
      forall actions | DownRun(p, actions).Some? ensures DownRun(p, actions).value.resets == 0 {
        PeersGetSubsequences(p, actions, 0);
      }
    } else {
      var actions := LongestDatagram(p);
    }
  }

  lemma DownOnward(p: Path, actions: seq<DownAction>, s: DownState, a: DownAction, t: DownState) returns (longer: seq<DownAction>)
    requires DownRun(p, actions) == Some(s) && DownStep(p, s, a) == Some(t)
    ensures DownRun(p, longer) == Some(t)
  {
    longer := actions + [a];
    assert longer[..|actions|] == actions;
  }

  /** A datagram of the server's maximal size, written to the connection being read and received in one piece. */
  lemma LongestDatagram(p: Path) returns (actions: seq<DownAction>)
    requires Possible(p) && p.serverMax > p.clientMax + 2048
    ensures DownRun(p, actions).Some? && DownRun(p, actions).value.resets > 0
  {
    hide DownRun, EncodeFrame, DownFrame, Within;
    var d := Datagram(0, seq(p.serverMax, _ => 0));
    var f := DownFrame(p, [], d, 1);
    LongestFrame(p, d);
    NothingRun(p);
    var s := DownInitial(p);
    var t := Connected(p, s);
    actions := DownOnward(p, [], s, Dial(0), t.0);
    actions := DownOnward(p, actions, t.0, SetConn(0, 0), t.1);
    var q := Queued(p, t.1, d);
    actions := DownOnward(p, actions, t.1, BackendRead(0, 1, d.payload, true), q.0);
    actions := DownOnward(p, actions, q.0, Write(0, 1, true), q.1);
    var r := OversizedReceived(p, q.1, f);
    actions := DownOnward(p, actions, q.1, Receive(0, |EncodeFrame(f)|, _ => true), r);
  }

  lemma NothingRun(p: Path)
    ensures DownRun(p, []) == Some(DownInitial(p))
  {
  }

  lemma LongestFrame(p: Path, d: Datagram)
    requires Possible(p) && p.serverMax > p.clientMax + 2048 && |d.payload| == p.serverMax
    ensures !Within(p.ClientLimit(), DownFrame(p, [], d, 1).header.length)
  {
  }

  lemma Connected(p: Path, s: DownState) returns (t: (DownState, DownState))
    requires p.lanes > 0 && s == DownInitial(p)
    ensures DownStep(p, s, Dial(0)) == Some(t.0) && DownStep(p, t.0, SetConn(0, 0)) == Some(t.1)
    ensures |t.1.lanes| == p.lanes && t.1.lanes[0] == DownLane([], Some(0), Some(0), 1, [], []) && t.1.fed == []
    ensures t.1.resets == 0
  {
    var first := DownStep(p, s, Dial(0)).value;
    t := (first, DownStep(p, first, SetConn(0, 0)).value);
  }

  lemma Queued(p: Path, s: DownState, d: Datagram) returns (t: (DownState, DownState))
    requires p.lanes > 0 && |s.lanes| == p.lanes && s.lanes[0] == DownLane([], Some(0), Some(0), 1, [], [])
    requires s.fed == [] && s.resets == 0 && d.session == 0 && |d.payload| == p.serverMax
    ensures DownStep(p, s, BackendRead(0, 1, d.payload, true)) == Some(t.0) && DownStep(p, t.0, Write(0, 1, true)) == Some(t.1)
    ensures |t.1.lanes| == p.lanes && t.1.resets == 0
    ensures t.1.lanes[0] == DownLane([], Some(0), Some(0), 1, EncodeFrame(DownFrame(p, [], d, 1)), [])
  {
    hide EncodeFrame, DownFrame;
    var f := DownFrame(p, [], d, 1);
    var first := DownStep(p, s, BackendRead(0, 1, d.payload, true)).value;
    assert first.lanes[0].queue == [] + [f] == [f];
    assert [f][..1] == [f] && EncodeFrames([f]) == EncodeFrame(f) + [];
    t := (first, DownStep(p, first, Write(0, 1, true)).value);
    assert t.1.lanes[0].stream == [] + EncodeFrames([f]);
  }

  lemma OversizedReceived(p: Path, s: DownState, f: Frame) returns (t: DownState)
    requires |s.lanes| > 0 && s.lanes[0] == DownLane([], Some(0), Some(0), 1, EncodeFrame(f), []) && s.resets == 0
    requires !Within(p.ClientLimit(), f.header.length)
    ensures DownStep(p, s, Receive(0, |EncodeFrame(f)|, _ => true)) == Some(t) && t.resets == 1
  {
    ScanOfOversized(f, [], p.ClientLimit());
    hide EncodeFrame, ScanFrame, Handed;
    var bytes := EncodeFrame(f);
    assert [] + bytes[..|bytes|] == bytes + [];
    t := DownStep(p, s, Receive(0, |bytes|, _ => true)).value;
  }
}

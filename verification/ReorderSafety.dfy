/** In which order the reorder buffer delivers, over every run: any arrivals, any clock, any failing
    writes. The comparisons are plain `<` on uint32, so everything hinges on 2^32 - 1 being delivered. */
module ReorderSafety {
  import opened Bytes
  import opened Reorder

  ghost predicate Increasing(ps: seq<Numbered>) {
    forall i, j :: 0 <= i < j < |ps| ==> ps[i].number < ps[j].number
  }

  ghost predicate AllBelow(ps: seq<Numbered>, bound: int) {
    forall i :: 0 <= i < |ps| ==> ps[i].number < bound
  }

  /** Delivered numbers go strictly up and stay below the expected number. */
  ghost predicate Safe(w: World) {
    Increasing(w.ledger.delivered) && AllBelow(w.ledger.delivered, w.buffer.expected)
  }

  ghost predicate Delivered(w: World, number: U32) {
    exists i :: 0 <= i < |w.ledger.delivered| && w.ledger.delivered[i].number == number
  }

  /** before <= after: nothing delivered is taken back and, short of a wrap, the expected number
      does not go down. */
  ghost predicate Progress(before: World, after: World) {
    && before.ledger.delivered <= after.ledger.delivered
    && (!Delivered(after, MAX_NUMBER) ==> before.buffer.expected <= after.buffer.expected)
  }

  /** A step that starts safe: it stays safe unless it delivers 2^32 - 1. */
  ghost predicate Sound(before: World, after: World) {
    Progress(before, after) && (Safe(before) && !Delivered(after, MAX_NUMBER) ==> Safe(after))
  }

  lemma SoundTransitive(a: World, b: World, c: World)
    requires Sound(a, b) && Sound(b, c)
    ensures Sound(a, c)
  {
    if Delivered(b, MAX_NUMBER) {
      var i :| 0 <= i < |b.ledger.delivered| && b.ledger.delivered[i].number == MAX_NUMBER;
      assert c.ledger.delivered[i] == b.ledger.delivered[i];
    }
  }

  /** Writing a packet that is not below the expected number. */
  lemma DeliverSound(w: World, p: Numbered, now: int, writes: Writes)
    requires w.buffer.expected <= p.number
    ensures Sound(w, Deliver(w, p, now, writes))
  {
    var after := Deliver(w, p, now, writes);
    if writes(w.attempts) {
      var last := |w.ledger.delivered|;
      assert after.ledger.delivered[last] == p;
    }
  }

  lemma {:induction false} DrainSound(w: World, now: int, writes: Writes)
    ensures Sound(w, Drain(w, now, writes))
    decreases |w.buffer.pending|
  {
    hide Sound, Deliver;
    var b := w.buffer;
    StillSound(w, w);
    if b.expected in b.pending {
      var u, p := Unpend(w, b.expected), Numbered(b.expected, b.pending[b.expected]);
      var next := Deliver(u, p, now, writes);
      StillSound(w, u);
      DeliverSound(u, p, now, writes);
      SoundTransitive(w, u, next);
      if writes(w.attempts) {
        DeliverShrinks(u, p, now, writes);
        DrainSound(next, now, writes);
        SoundTransitive(w, next, Drain(next, now, writes));
      }
    }
  }

  lemma DeliverShrinks(w: World, p: Numbered, now: int, writes: Writes)
    ensures Deliver(w, p, now, writes).buffer.pending == w.buffer.pending
  {
  }

  /** Steps that deliver nothing and do not lower the expected number. */
  lemma StillSound(w: World, after: World)
    requires after.ledger.delivered == w.ledger.delivered && w.buffer.expected <= after.buffer.expected
    ensures Sound(w, after)
  {
  }

  lemma ForceDrainSound(w: World, now: int, writes: Writes)
    requires forall k :: k in w.buffer.pending ==> w.buffer.expected <= k
    ensures Sound(w, ForceDrain(w, now, writes))
  {
    hide Sound, Drain;
    StillSound(w, w);
    if w.buffer.pending != map[] {
      var m := w.(buffer := w.buffer.(expected := Least(w.buffer.pending.Keys)));
      StillSound(w, m);
      DrainSound(m, now, writes);
      SoundTransitive(w, m, Drain(m, now, writes));
    }
  }

  lemma InOrderSound(w: World, a: Arrival, writes: Writes)
    requires w.buffer.expected <= a.packet.number
    ensures Sound(w, InOrder(w, a, writes))
  {
    hide Sound, Deliver, Drain;
    var next := Deliver(w, a.packet, a.now, writes);
    DeliverSound(w, a.packet, a.now, writes);
    DrainSound(next, a.now, writes);
    SoundTransitive(w, next, Drain(next, a.now, writes));
  }

  lemma RestartSound(w: World, a: Arrival, writes: Writes)
    requires w.buffer.expected <= a.packet.number
    ensures Sound(w, Restart(w, a, writes))
  {
    hide Sound, Deliver;
    StillSound(w, ClearPending(w));
    DeliverSound(ClearPending(w), a.packet, a.now, writes);
    SoundTransitive(w, ClearPending(w), Restart(w, a, writes));
  }

  lemma HoldSound(cfg: Config, w: World, a: Arrival, writes: Writes)
    requires WindowInv(cfg, w.buffer) && w.buffer.expected <= a.packet.number
    ensures Sound(w, Hold(cfg, w, a, writes))
  {
    hide Sound, ForceDrain, MustDrain;
    var kept := Keep(w, a.packet);
    StillSound(w, kept);
    ForceDrainSound(kept, a.now, writes);
    SoundTransitive(w, kept, ForceDrain(kept, a.now, writes));
  }

  /** One arrival in a started session. */
  lemma ArriveSound(cfg: Config, w: World, a: Arrival, writes: Writes)
    requires WindowInv(cfg, w.buffer)
    requires w.buffer.initialized || w.buffer.expected == 0
    ensures Sound(w, Arrive(cfg, w, a, writes))
  {
    hide Sound, InOrder, Restart, Hold;
    var s := w.(buffer := Started(w.buffer, a.packet.number, a.now));
    StillSound(w, s);
    if a.packet.number < s.buffer.expected {
      StillSound(w, Arrive(cfg, w, a, writes));
    } else {
      InOrderSound(s, a, writes);
      RestartSound(s, a, writes);
      HoldSound(cfg, s, a, writes);
      SoundTransitive(w, s, Arrive(cfg, w, a, writes));
    }
  }

  ghost predicate Fresh(b: Buffer) {
    b.initialized || b.expected == 0
  }

  lemma {:induction false} StepSound(cfg: Config, arrivals: seq<Arrival>, writes: Writes)
    requires |arrivals| > 0
    ensures Sound(Run(cfg, arrivals[..|arrivals| - 1], writes), Run(cfg, arrivals, writes))
  {
    hide Sound, Arrive;
    var before := Run(cfg, arrivals[..|arrivals| - 1], writes);
    WindowAlways(cfg, arrivals[..|arrivals| - 1], writes);
    StartedAlways(cfg, arrivals[..|arrivals| - 1], writes);
    ArriveSound(cfg, before, arrivals[|arrivals| - 1], writes);
  }

  lemma StartedAlways(cfg: Config, arrivals: seq<Arrival>, writes: Writes)
    ensures Fresh(Run(cfg, arrivals, writes).buffer)
  {
    if |arrivals| > 0 {
      var before := Run(cfg, arrivals[..|arrivals| - 1], writes);
      ArriveStarts(cfg, before, arrivals[|arrivals| - 1], writes);
    }
  }

  lemma {:induction false} DrainStarted(w: World, now: int, writes: Writes)
    ensures Drain(w, now, writes).buffer.initialized == w.buffer.initialized
    decreases |w.buffer.pending|
  {
    var b := w.buffer;
    if b.expected in b.pending && writes(w.attempts) {
      DrainStarted(Deliver(Unpend(w, b.expected), Numbered(b.expected, b.pending[b.expected]), now, writes), now, writes);
    }
  }

  lemma ArriveStarts(cfg: Config, w: World, a: Arrival, writes: Writes)
    ensures Arrive(cfg, w, a, writes).buffer.initialized
  {
    var s := w.(buffer := Started(w.buffer, a.packet.number, a.now));
    DrainStarted(Deliver(s, a.packet, a.now, writes), a.now, writes);
    var kept := Keep(s, a.packet);
    if kept.buffer.pending != map[] {
      DrainStarted(kept.(buffer := kept.buffer.(expected := Least(kept.buffer.pending.Keys))), a.now, writes);
    }
  }

  /** From any moment of a run to any later one. */
  lemma {:induction false} RunSound(cfg: Config, arrivals: seq<Arrival>, k: nat, writes: Writes)
    requires k <= |arrivals|
    ensures Sound(Run(cfg, arrivals[..k], writes), Run(cfg, arrivals, writes))
    decreases |arrivals|
  {
    hide Sound;
    if k == |arrivals| {
      assert arrivals[..k] == arrivals;
      StillSound(Run(cfg, arrivals, writes), Run(cfg, arrivals, writes));
    } else {
      var init := arrivals[..|arrivals| - 1];
      assert init[..k] == arrivals[..k];
      RunSound(cfg, init, k, writes);
      StepSound(cfg, arrivals, writes);
      SoundTransitive(Run(cfg, arrivals[..k], writes), Run(cfg, init, writes), Run(cfg, arrivals, writes));
    }
  }

  /** A run delivers in strictly increasing order, everything below the expected number, exactly when
      it never delivers number 2^32 - 1 (after which the expected number wraps to 0). */
  lemma SafeExactly(cfg: Config, arrivals: seq<Arrival>, writes: Writes)
    ensures Safe(Run(cfg, arrivals, writes)) <==> !Delivered(Run(cfg, arrivals, writes), MAX_NUMBER)
  {
    RunSound(cfg, arrivals, 0, writes);
    assert arrivals[..0] == [];
  }

  /** The expected number never goes down while 2^32 - 1 has not been delivered. */
  lemma ExpectedNeverDecreases(cfg: Config, arrivals: seq<Arrival>, k: nat, writes: Writes)
    requires k <= |arrivals| && !Delivered(Run(cfg, arrivals, writes), MAX_NUMBER)
    ensures Run(cfg, arrivals[..k], writes).buffer.expected <= Run(cfg, arrivals, writes).buffer.expected
  {
    RunSound(cfg, arrivals, k, writes);
  }

  /** Every delivered payload came in an arrival carrying that number, and no arrival is delivered
      more often than it arrived. */
  lemma DeliveredArrived(cfg: Config, arrivals: seq<Arrival>, writes: Writes)
    ensures var w := Run(cfg, arrivals, writes);
            && multiset(w.ledger.delivered) <= multiset(Packets(arrivals))
            && forall p :: p in w.ledger.delivered ==> exists i :: 0 <= i < |arrivals| && arrivals[i].packet == p
  {
    Conservation(cfg, arrivals, writes);
    var w := Run(cfg, arrivals, writes);
    forall p | p in w.ledger.delivered
      ensures exists i :: 0 <= i < |arrivals| && arrivals[i].packet == p
    {
      assert p in multiset(w.ledger.delivered);
      assert p in multiset(Packets(arrivals));
      var i :| 0 <= i < |Packets(arrivals)| && Packets(arrivals)[i] == p;
      assert arrivals[i].packet == p;
    }
  }

  /** In the caller's terms: if no arrival carries 2^32 - 1, every run is safe and monotone. */
  lemma SafeBelowTop(cfg: Config, arrivals: seq<Arrival>, k: nat, writes: Writes)
    requires forall i :: 0 <= i < |arrivals| ==> arrivals[i].packet.number != MAX_NUMBER
    requires k <= |arrivals|
    ensures Safe(Run(cfg, arrivals, writes))
    ensures Run(cfg, arrivals[..k], writes).buffer.expected <= Run(cfg, arrivals, writes).buffer.expected
  {
    DeliveredArrived(cfg, arrivals, writes);
    var delivered := Run(cfg, arrivals, writes).ledger.delivered;
    forall i | 0 <= i < |delivered| ensures delivered[i].number != MAX_NUMBER {
      assert delivered[i] in delivered;
    }
    SafeExactly(cfg, arrivals, writes);
    ExpectedNeverDecreases(cfg, arrivals, k, writes);
  }

  lemma NothingWaiting(cfg: Config, w: World, a: Arrival, writes: Writes)
    requires AllSucceed(writes)
    requires w.buffer.pending == map[]
    requires w.buffer.initialized ==> a.packet.number == w.buffer.expected
    ensures var after := Arrive(cfg, w, a, writes);
            && after.buffer == Buffer(true, Successor(a.packet.number), map[], a.now)
            && after.ledger.delivered == w.ledger.delivered + [a.packet]
  {
  }

  /** The condition is needed: 2^32 - 1 followed by 0 is delivered in that order. */
  lemma WrapBreaksOrder(cfg: Config, now: int, top: seq<Byte>, next: seq<Byte>, writes: Writes)
    requires AllSucceed(writes)
    ensures var arrivals := [Arrival(Numbered(MAX_NUMBER, top), now), Arrival(Numbered(0, next), now)];
            var w := Run(cfg, arrivals, writes);
            w.ledger.delivered == [Numbered(MAX_NUMBER, top), Numbered(0, next)] && !Safe(w)
  {
    hide Arrive;
    var first, second := Arrival(Numbered(MAX_NUMBER, top), now), Arrival(Numbered(0, next), now);
    assert [first][..0] == [] && [first, second][..1] == [first];
    assert Run(cfg, [first], writes) == Arrive(cfg, Run(cfg, [first][..0], writes), first, writes);
    NothingWaiting(cfg, EMPTY, first, writes);
    assert Run(cfg, [first, second], writes) == Arrive(cfg, Run(cfg, [first], writes), second, writes);
    NothingWaiting(cfg, Run(cfg, [first], writes), second, writes);
    var delivered := Run(cfg, [first, second], writes).ledger.delivered;
    assert delivered[0].number > delivered[1].number;
  }
}

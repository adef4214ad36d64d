/** What one arrival does to the reorder buffer, said without its branches: which number is written first, how far the
    writes go on, and what the expected number and the time of the last delivery then are. */
module ReorderSteps {
  import opened Bytes
  import opened Reorder
  import S = ReorderSafety

  /** The number an arrival makes the server write first: the packet's own if it is the expected one or out of reach,
      the least one waiting if too many wait or nothing has been delivered for the hold time, and otherwise none. */
  ghost function Due(cfg: Config, b: Buffer, a: Arrival): Option<U32>
    requires b.initialized
  {
    var number, keys := a.packet.number, b.pending.Keys + {a.packet.number};
    if number < b.expected then None
    else if number == b.expected || number > b.expected + cfg.Reach() then Some(number)
    else if |keys| >= cfg.Window() || a.now - b.lastDrain >= cfg.hold then Some(Least(keys))
    else None
  }

  function Plus(x: U32, n: nat): U32 {
    (x + n) % 0x1_0000_0000
  }

  /** Writes numbered upwards from one number until one fails or there is no more to write. */
  ghost predicate Written(before: World, after: World, from: U32, now: int, writes: Writes) {
    var had, d := |before.ledger.delivered|, |after.ledger.delivered| - |before.ledger.delivered|;
    && before.ledger.delivered <= after.ledger.delivered
    && (forall i :: 0 <= i < d ==> after.ledger.delivered[had + i].number == Plus(from, i))
    && before.attempts + d <= after.attempts <= before.attempts + d + 1
    && (forall k :: before.attempts <= k < before.attempts + d ==> writes(k))
    && (after.attempts > before.attempts + d ==> !writes(before.attempts + d))
    && |after.ledger.lost| == |before.ledger.lost| + after.attempts - before.attempts - d
    && (forall p :: after.ledger.lost[p] > before.ledger.lost[p] ==> p.number == Plus(from, d))
    && (d > 0 ==> after.buffer.expected == Plus(from, d) && after.buffer.lastDrain == now)
    && (d == 0 ==> after.buffer.lastDrain == before.buffer.lastDrain)
  }

  /** And nothing else has happened to any packet. */
  ghost predicate Wrote(before: World, after: World, from: U32, now: int, writes: Writes) {
    && Written(before, after, from, now, writes)
    && after.ledger.stale == before.ledger.stale && after.ledger.duplicate == before.ledger.duplicate
    && after.ledger.cleared == before.ledger.cleared
  }

  lemma PlusSuccessor(x: U32, n: nat)
    ensures Plus(Successor(x), n) == Plus(x, n + 1) && Plus(x, 0) == x
  {
  }

  lemma WroteOne(w: World, p: Numbered, now: int, writes: Writes)
    ensures Wrote(w, Deliver(w, p, now, writes), p.number, now, writes)
    ensures Deliver(w, p, now, writes).attempts == w.attempts + 1
  {
    PlusSuccessor(p.number, 0);
  }

  /** A write that succeeds and what is written after it. */
  lemma WroteMore(a: World, b: World, c: World, from: U32, now: int, writes: Writes)
    requires Wrote(a, b, from, now, writes) && |b.ledger.delivered| == |a.ledger.delivered| + 1 && b.attempts == a.attempts + 1
    requires Wrote(b, c, Successor(from), now, writes) && b.ledger.lost == a.ledger.lost
    requires |c.ledger.delivered| == |b.ledger.delivered| ==> c.buffer.expected == b.buffer.expected
    ensures Wrote(a, c, from, now, writes)
  {
    var d := |c.ledger.delivered| - |b.ledger.delivered|;
    PlusSuccessor(from, d);
    forall i | 0 <= i < d + 1 ensures c.ledger.delivered[|a.ledger.delivered| + i].number == Plus(from, i) {
      if i == 0 {
        assert c.ledger.delivered[|a.ledger.delivered|] == b.ledger.delivered[|a.ledger.delivered| + 0];
      } else {
        PlusSuccessor(from, i - 1);
        assert c.ledger.delivered[|b.ledger.delivered| + (i - 1)].number == Plus(Successor(from), i - 1);
      }
    }
    PlusSuccessor(from, 0);
  }

  lemma {:induction false} DrainWrote(w: World, now: int, writes: Writes)
    ensures Wrote(w, Drain(w, now, writes), w.buffer.expected, now, writes)
    ensures Drain(w, now, writes).attempts > w.attempts <==> w.buffer.expected in w.buffer.pending
    ensures |Drain(w, now, writes).ledger.delivered| == |w.ledger.delivered| ==>
              Drain(w, now, writes).buffer.expected == w.buffer.expected
    decreases |w.buffer.pending|
  {
    hide Wrote, Written, Plus;
    var b := w.buffer;
    if b.expected in b.pending {
      var u, p := Unpend(w, b.expected), Numbered(b.expected, b.pending[b.expected]);
      var next := Deliver(u, p, now, writes);
      WroteOne(u, p, now, writes);
      SameLedger(w, u, next, p.number, now, writes);
      if writes(w.attempts) {
        DrainWrote(next, now, writes);
        WroteMore(w, next, Drain(next, now, writes), b.expected, now, writes);
        WroteGrows(next, Drain(next, now, writes), Successor(b.expected), now, writes);
      }
    } else {
      WroteNothing(w, b.expected, now, writes);
    }
  }

  lemma WroteGrows(before: World, after: World, from: U32, now: int, writes: Writes)
    requires Wrote(before, after, from, now, writes)
    ensures |after.ledger.delivered| >= |before.ledger.delivered| && after.attempts >= before.attempts
  {
  }

  lemma WroteNothing(w: World, from: U32, now: int, writes: Writes)
    ensures Wrote(w, w, from, now, writes)
  {
  }

  /** Writes are counted from the ledger, the number of attempts and the time of the last delivery alone. */
  lemma SameLedger(w: World, u: World, after: World, from: U32, now: int, writes: Writes)
    requires u.ledger == w.ledger && u.attempts == w.attempts && u.buffer.lastDrain == w.buffer.lastDrain
    requires Wrote(u, after, from, now, writes)
    ensures Wrote(w, after, from, now, writes)
  {
  }

  // One arrival.

  lemma LeastOfKept(w: World, p: Numbered)
    ensures Keep(w, p).buffer.pending.Keys == w.buffer.pending.Keys + {p.number}
    ensures |Keep(w, p).buffer.pending| == |w.buffer.pending.Keys + {p.number}|
  {
    assert Keep(w, p).buffer.pending.Keys == w.buffer.pending.Keys + {p.number};
  }

  /** What has become of the arrival apart from what is written, and what the arrival has thrown away. */
  ghost predicate Sorted(cfg: Config, w: World, a: Arrival, after: World) {
    var b, p := w.buffer, a.packet;
    && after.ledger.stale == w.ledger.stale + (if p.number < b.expected then multiset{p} else multiset{})
    && after.ledger.duplicate
       == w.ledger.duplicate
          + (if b.expected < p.number <= b.expected + cfg.Reach() && p.number in b.pending then multiset{p} else multiset{})
    && after.ledger.cleared
       == w.ledger.cleared
          + (if p.number > b.expected + cfg.Reach() then multiset(Waiting(b.pending)) else multiset{})
  }

  /** The world before the writes, as far as they count from it. */
  function Entered(cfg: Config, w: World, a: Arrival): World
    requires w.buffer.initialized
  {
    if a.packet.number < w.buffer.expected then w.(ledger := w.ledger.(stale := w.ledger.stale + multiset{a.packet}))
    else if a.packet.number == w.buffer.expected then w
    else if a.packet.number - w.buffer.expected > cfg.Reach() then ClearPending(w)
    else Keep(w, a.packet)
  }

  /** The expected number when no write has succeeded: it has gone to the least waiting number if the drain was
      forced, and is otherwise what it was. */
  ghost function ExpectedOtherwise(cfg: Config, b: Buffer, a: Arrival): U32
    requires b.initialized
  {
    if Due(cfg, b, a).Some? && a.packet.number <= b.expected + cfg.Reach() then Due(cfg, b, a).value else b.expected
  }

  lemma StartedOutcome(cfg: Config, w: World, a: Arrival, writes: Writes)
    requires w.buffer.initialized
    ensures var after, due := Arrive(cfg, w, a, writes), Due(cfg, w.buffer, a);
            && Wrote(Entered(cfg, w, a), after, if due.Some? then due.value else 0, a.now, writes)
            && (after.attempts > w.attempts <==> due.Some?)
            && (|after.ledger.delivered| == |w.ledger.delivered| ==>
                  after.buffer.expected == ExpectedOtherwise(cfg, w.buffer, a))
  {
    hide Wrote, Written, Drain;
    var number, e := a.packet.number, w.buffer.expected;
    var entered := Entered(cfg, w, a);
    if number < e {
      WroteNothing(entered, 0, a.now, writes);
    } else if number == e {
      WroteOne(w, a.packet, a.now, writes);
      if writes(w.attempts) {
        var next := Deliver(w, a.packet, a.now, writes);
        DrainWrote(next, a.now, writes);
        WroteMore(w, next, Drain(next, a.now, writes), e, a.now, writes);
        WroteGrows(next, Drain(next, a.now, writes), Successor(e), a.now, writes);
      }
    } else if number - e > cfg.Reach() {
      WroteOne(ClearPending(w), a.packet, a.now, writes);
    } else {
      LeastOfKept(w, a.packet);
      WroteNothing(entered, 0, a.now, writes);
      if MustDrain(cfg, entered.buffer, a.now) {
        var low := Least(entered.buffer.pending.Keys);
        var lowered := entered.(buffer := entered.buffer.(expected := low));
        DrainWrote(lowered, a.now, writes);
        SameLedger(entered, lowered, Drain(lowered, a.now, writes), low, a.now, writes);
        WroteGrows(lowered, Drain(lowered, a.now, writes), low, a.now, writes);
      }
    }
  }

  ghost predicate Outcome(cfg: Config, w: World, a: Arrival, writes: Writes, after: World)
    requires w.buffer.initialized
  {
    var due := Due(cfg, w.buffer, a);
    && Sorted(cfg, w, a, after)
    && Written(w, after, if due.Some? then due.value else 0, a.now, writes)
    && (after.attempts > w.attempts <==> due.Some?)
    && (|after.ledger.delivered| == |w.ledger.delivered| ==> after.buffer.expected == ExpectedOtherwise(cfg, w.buffer, a))
  }

  function Begun(w: World, a: Arrival): World {
    w.(buffer := Started(w.buffer, a.packet.number, a.now))
  }

  lemma EnteredSame(cfg: Config, w: World, a: Arrival)
    requires w.buffer.initialized
    ensures var e := Entered(cfg, w, a);
            && Sorted(cfg, w, a, e)
            && e.attempts == w.attempts && e.ledger.delivered == w.ledger.delivered && e.ledger.lost == w.ledger.lost
            && e.buffer.lastDrain == w.buffer.lastDrain
  {
  }

  lemma EnteredWritten(cfg: Config, w: World, a: Arrival, after: World, from: U32, writes: Writes)
    requires w.buffer.initialized && Wrote(Entered(cfg, w, a), after, from, a.now, writes)
    ensures Sorted(cfg, w, a, after) && Written(w, after, from, a.now, writes)
  {
    hide Entered, Waiting, Plus;
    EnteredSame(cfg, w, a);
  }

  /** One arrival, whatever the state of the session: it writes if something is due, numbers upwards from the one that
      is due, as far as the writes succeed; with the classes of the ledger and Conservation this settles what has
      been written, what waits, and what is gone. */
  lemma ArriveOutcome(cfg: Config, w: World, a: Arrival, writes: Writes)
    ensures Outcome(cfg, Begun(w, a), a, writes, Arrive(cfg, w, a, writes))
  {
    hide Arrive, Wrote, Written, Sorted, Entered, Due, ExpectedOtherwise;
    var s := Begun(w, a);
    BegunSame(cfg, w, a, writes);
    StartedOutcome(cfg, s, a, writes);
    var due := Due(cfg, s.buffer, a);
    EnteredWritten(cfg, s, a, Arrive(cfg, w, a, writes), if due.Some? then due.value else 0, writes);
  }

  lemma BegunSame(cfg: Config, w: World, a: Arrival, writes: Writes)
    ensures Arrive(cfg, Begun(w, a), a, writes) == Arrive(cfg, w, a, writes)
    ensures Begun(w, a).buffer.initialized
  {
  }

  // Runs.

  /** Writes are counted: every attempt has delivered a packet or lost one. */
  lemma {:induction false} AttemptsCounted(cfg: Config, arrivals: seq<Arrival>, writes: Writes)
    ensures var w := Run(cfg, arrivals, writes); w.attempts == |w.ledger.delivered| + |w.ledger.lost|
  {
    if |arrivals| > 0 {
      hide Arrive, Sorted, Due, ExpectedOtherwise;
      AttemptsCounted(cfg, arrivals[..|arrivals| - 1], writes);
      ArriveOutcome(cfg, Run(cfg, arrivals[..|arrivals| - 1], writes), arrivals[|arrivals| - 1], writes);
    }
  }

  ghost function DeliveredCount(cfg: Config, arrivals: seq<Arrival>, writes: Writes, i: nat): nat
    requires i <= |arrivals|
  {
    |Run(cfg, arrivals[..i], writes).ledger.delivered|
  }

  /** lastDrain is the time of the last arrival that got something delivered, or, as long as there has been none, of
      the first arrival. */
  lemma {:induction false} LastDrainAlways(cfg: Config, arrivals: seq<Arrival>, writes: Writes) returns (i: nat)
    requires |arrivals| > 0
    ensures i < |arrivals| && Run(cfg, arrivals, writes).buffer.lastDrain == arrivals[i].now
    ensures i == 0 || DeliveredCount(cfg, arrivals, writes, i + 1) > DeliveredCount(cfg, arrivals, writes, i)
    ensures DeliveredCount(cfg, arrivals, writes, |arrivals|) == DeliveredCount(cfg, arrivals, writes, i + 1)
  {
    hide Arrive, Sorted, Due, ExpectedOtherwise, Started;
    var n := |arrivals| - 1;
    var init, last := arrivals[..n], arrivals[n];
    var before := Run(cfg, init, writes);
    assert arrivals[..n + 1] == arrivals;
    ArriveOutcome(cfg, before, last, writes);
    StartedBefore(cfg, arrivals, writes);
    if n == 0 || DeliveredCount(cfg, arrivals, writes, n + 1) > DeliveredCount(cfg, arrivals, writes, n) {
      i := n;
    } else {
      i := LastDrainAlways(cfg, init, writes);
      assert init[..i] == arrivals[..i] && init[..i + 1] == arrivals[..i + 1] && init[..n] == arrivals[..n];
    }
  }

  lemma StartedBefore(cfg: Config, arrivals: seq<Arrival>, writes: Writes)
    requires |arrivals| > 0
    ensures var init, last := arrivals[..|arrivals| - 1], arrivals[|arrivals| - 1];
            Begun(Run(cfg, init, writes), last).buffer.lastDrain
            == if |arrivals| == 1 then last.now else Run(cfg, init, writes).buffer.lastDrain
  {
    if |arrivals| > 1 {
      hide Arrive;
      S.ArriveStarts(cfg, Run(cfg, arrivals[..|arrivals| - 1][..|arrivals| - 2], writes), arrivals[|arrivals| - 2], writes);
    }
  }

  /** Nothing is held longer than the hold time if anything ahead of the expected number comes in: at that arrival either
      something has been delivered within the hold time, or the drain has been tried and its first write failed. */
  lemma HoldRespected(cfg: Config, w: World, a: Arrival, writes: Writes)
    requires w.buffer.initialized && cfg.hold > 0
    requires w.buffer.expected < a.packet.number <= w.buffer.expected + cfg.Reach()
    ensures var after := Arrive(cfg, w, a, writes);
            a.now - after.buffer.lastDrain < cfg.hold || (after.attempts == w.attempts + 1 && !writes(w.attempts))
  {
    hide Arrive, Sorted;
    assert Begun(w, a) == w;
    ArriveOutcome(cfg, w, a, writes);
  }
}

/** For which packets the reorder buffer keeps the order whatever the clock shows and whichever writes fail:
    conditions on the arriving numbers alone, in both directions. */
module ReorderOrder {
  import opened Bytes
  import opened Reorder
  import opened ReorderSafety

  /** These packets, arriving in this order at any times, under any failing writes, leave every run safe. */
  ghost predicate AlwaysSafe(cfg: Config, packets: seq<Numbered>) {
    forall arrivals: seq<Arrival>, writes :: Packets(arrivals) == packets ==> Safe(Run(cfg, arrivals, writes))
  }

  ghost predicate AlwaysIncreasing(cfg: Config, packets: seq<Numbered>) {
    forall arrivals: seq<Arrival>, writes :: Packets(arrivals) == packets ==> Increasing(Run(cfg, arrivals, writes).ledger.delivered)
  }

  // A schedule that delivers everything it can.

  /** The clock before the arrivals from the i-th on, far enough apart that whatever waits is overdue. */
  function Late(cfg: Config, packets: seq<Numbered>): (arrivals: seq<Arrival>)
    ensures |arrivals| == |packets|
  {
    if |packets| == 0 then []
    else
      var n := |packets| - 1;
      Late(cfg, packets[..n]) + [Arrival(packets[n], Clock(cfg, |packets|))]
  }

  function Clock(cfg: Config, i: nat): int {
    if cfg.hold > 0 then i * cfg.hold else 0
  }

  lemma {:induction false} LatePackets(cfg: Config, packets: seq<Numbered>)
    ensures Packets(Late(cfg, packets)) == packets
  {
    if |packets| > 0 {
      LatePackets(cfg, packets[..|packets| - 1]);
      assert packets == packets[..|packets| - 1] + [packets[|packets| - 1]];
    }
  }

  lemma ClockStep(cfg: Config, i: nat)
    ensures Clock(cfg, i + 1) >= Clock(cfg, i) + cfg.hold && Clock(cfg, i + 1) >= Clock(cfg, i)
  {
    assert (i + 1) * cfg.hold == i * cfg.hold + cfg.hold;
  }

  /** Nothing waits, and what has to wait now is overdue at once: the packet goes out unless it is stale. */
  lemma Overdue(cfg: Config, w: World, a: Arrival, writes: Writes)
    requires AllSucceed(writes) && w.buffer.pending == map[]
    requires w.buffer.initialized ==> w.buffer.lastDrain <= a.now && a.now - w.buffer.lastDrain >= cfg.hold
    ensures var t := Arrive(cfg, w, a, writes);
            && t.buffer.pending == map[] && t.buffer.initialized && t.buffer.lastDrain <= a.now
            && (if w.buffer.initialized && a.packet.number < w.buffer.expected
                then t.ledger.delivered == w.ledger.delivered && t.buffer.expected == w.buffer.expected
                else t.ledger.delivered == w.ledger.delivered + [a.packet]
                     && t.buffer.expected == Successor(a.packet.number))
  {
    var s := w.(buffer := Started(w.buffer, a.packet.number, a.now));
    var kept := Keep(s, a.packet);
    assert kept.buffer.pending == map[a.packet.number := a.packet.payload];
    assert kept.buffer.pending.Keys == {a.packet.number};
    assert kept.buffer.pending - {a.packet.number} == map[];
    var from := kept.(buffer := kept.buffer.(expected := a.packet.number));
    assert Unpend(from, a.packet.number).buffer.pending == map[];
    assert Drain(Deliver(Unpend(from, a.packet.number), a.packet, a.now, writes), a.now, writes)
        == Deliver(Unpend(from, a.packet.number), a.packet, a.now, writes);
    assert Least(kept.buffer.pending.Keys) == a.packet.number;
  }

  /** Until the first 2^32 - 1 everything new goes out at once. */
  lemma {:induction false} LateRun(cfg: Config, packets: seq<Numbered>, writes: Writes)
    requires AllSucceed(writes)
    ensures var b := Run(cfg, Late(cfg, packets), writes).buffer;
            b.pending == map[] && (b.initialized ==> b.lastDrain <= Clock(cfg, |packets|)) && (b.initialized <==> |packets| > 0)
  {
    if |packets| > 0 {
      hide Arrive, Clock;
      var n := |packets| - 1;
      LateRun(cfg, packets[..n], writes);
      ClockStep(cfg, n);
      LateSnoc(cfg, packets, writes);
      Overdue(cfg, Run(cfg, Late(cfg, packets[..n]), writes), Arrival(packets[n], Clock(cfg, |packets|)), writes);
    }
  }

  lemma LateSnoc(cfg: Config, packets: seq<Numbered>, writes: Writes)
    requires |packets| > 0
    ensures var n := |packets| - 1;
            Run(cfg, Late(cfg, packets), writes)
            == Arrive(cfg, Run(cfg, Late(cfg, packets[..n]), writes), Arrival(packets[n], Clock(cfg, |packets|)), writes)
  {
    var all := Late(cfg, packets);
    assert all[..|all| - 1] == Late(cfg, packets[..|packets| - 1]);
  }

  /** 2^32 - 1 is never stale. */
  lemma TopGoesOut(cfg: Config, packets: seq<Numbered>, writes: Writes)
    requires AllSucceed(writes) && |packets| > 0 && packets[|packets| - 1].number == MAX_NUMBER
    ensures var w := Run(cfg, Late(cfg, packets), writes);
            && |w.ledger.delivered| > 0 && w.ledger.delivered[|w.ledger.delivered| - 1].number == MAX_NUMBER
            && w.buffer.expected == 0 && w.buffer.initialized && w.buffer.pending == map[]
            && Delivered(w, MAX_NUMBER)
  {
    hide Arrive, Clock;
    var n := |packets| - 1;
    LateRun(cfg, packets[..n], writes);
    ClockStep(cfg, n);
    LateSnoc(cfg, packets, writes);
    var before := Run(cfg, Late(cfg, packets[..n]), writes);
    Overdue(cfg, before, Arrival(packets[n], Clock(cfg, |packets|)), writes);
    var w := Run(cfg, Late(cfg, packets), writes);
    assert w.ledger.delivered[|before.ledger.delivered|].number == MAX_NUMBER;
  }

  /** The part of a schedule is the schedule of the part. */
  lemma {:induction false} LatePrefix(cfg: Config, packets: seq<Numbered>, k: nat)
    requires k <= |packets|
    ensures Late(cfg, packets)[..k] == Late(cfg, packets[..k])
    decreases |packets|
  {
    if k == |packets| {
      assert packets[..k] == packets && Late(cfg, packets)[..k] == Late(cfg, packets);
    } else {
      var n := |packets| - 1;
      LatePrefix(cfg, packets[..n], k);
      assert packets[..n][..k] == packets[..k];
      assert Late(cfg, packets)[..k] == Late(cfg, packets[..n])[..k];
    }
  }

  /** What has been delivered stays delivered. */
  lemma DeliveredStays(cfg: Config, arrivals: seq<Arrival>, k: nat, writes: Writes)
    requires k <= |arrivals|
    ensures Run(cfg, arrivals[..k], writes).ledger.delivered <= Run(cfg, arrivals, writes).ledger.delivered
  {
    RunSound(cfg, arrivals, k, writes);
  }

  // Safety.

  /** Every run of these packets delivers strictly increasing numbers, all below the expected one, exactly when none
      of them carries 2^32 - 1. */
  lemma OrderExactly(cfg: Config, packets: seq<Numbered>)
    ensures AlwaysSafe(cfg, packets) <==> forall i :: 0 <= i < |packets| ==> packets[i].number != MAX_NUMBER
  {
    hide Safe, Run, Late;
    if k: nat :| k < |packets| && packets[k].number == MAX_NUMBER {
      var writes: Writes := _ => true;
      LatePackets(cfg, packets);
      LatePrefix(cfg, packets, k + 1);
      TopGoesOut(cfg, packets[..k + 1], writes);
      DeliveredStays(cfg, Late(cfg, packets), k + 1, writes);
      Spreads(Run(cfg, Late(cfg, packets[..k + 1]), writes), Run(cfg, Late(cfg, packets), writes));
      SafeExactly(cfg, Late(cfg, packets), writes);
    } else {
      forall arrivals: seq<Arrival>, writes | Packets(arrivals) == packets ensures Safe(Run(cfg, arrivals, writes)) {
        forall i | 0 <= i < |arrivals| ensures arrivals[i].packet.number != MAX_NUMBER {
          assert Packets(arrivals)[i] == arrivals[i].packet;
        }
        SafeBelowTop(cfg, arrivals, |arrivals|, writes);
      }
    }
  }

  lemma Spreads(w: World, later: World)
    requires Delivered(w, MAX_NUMBER) && w.ledger.delivered <= later.ledger.delivered
    ensures Delivered(later, MAX_NUMBER)
  {
    var i :| 0 <= i < |w.ledger.delivered| && w.ledger.delivered[i].number == MAX_NUMBER;
    assert later.ledger.delivered[i] == w.ledger.delivered[i];
  }

  // The order alone.

  lemma {:induction false} DrainIncreases(w: World, now: int, writes: Writes)
    requires Safe(w) && forall k :: k in w.buffer.pending ==> w.buffer.expected <= k
    ensures Increasing(Drain(w, now, writes).ledger.delivered)
    decreases |w.buffer.pending|
  {
    var b := w.buffer;
    if b.expected in b.pending && writes(w.attempts) {
      var p := Numbered(b.expected, b.pending[b.expected]);
      var next := Deliver(Unpend(w, b.expected), p, now, writes);
      DeliverShrinks(Unpend(w, b.expected), p, now, writes);
      assert Increasing(next.ledger.delivered);
      if b.expected < MAX_NUMBER {
        assert Safe(next);
        DrainIncreases(next, now, writes);
      } else {
        assert next.buffer.pending.Keys == {};
        assert Drain(next, now, writes) == next;
      }
    }
  }

  /** From a safe state even an arrival of 2^32 - 1 is delivered behind the others. */
  lemma ArriveIncreases(cfg: Config, w: World, a: Arrival, writes: Writes)
    requires Safe(w) && WindowInv(cfg, w.buffer)
    requires Fresh(w.buffer)
    ensures Increasing(Arrive(cfg, w, a, writes).ledger.delivered)
  {
    hide Drain;
    var s := w.(buffer := Started(w.buffer, a.packet.number, a.now));
    assert Safe(s);
    if a.packet.number == s.buffer.expected {
      var next := Deliver(s, a.packet, a.now, writes);
      DeliverIncreases(s, a.packet, a.now, writes);
      if a.packet.number < MAX_NUMBER {
        DrainIncreases(next, a.now, writes);
      } else {
        NoDrain(next, a.now, writes);
      }
    } else if a.packet.number > s.buffer.expected {
      DeliverIncreases(ClearPending(s), a.packet, a.now, writes);
      var kept := Keep(s, a.packet);
      if kept.buffer.pending != map[] {
        var from := kept.(buffer := kept.buffer.(expected := Least(kept.buffer.pending.Keys)));
        assert Safe(from);
        DrainIncreases(from, a.now, writes);
      }
    }
  }

  lemma DeliverIncreases(w: World, p: Numbered, now: int, writes: Writes)
    requires Safe(w) && w.buffer.expected <= p.number
    ensures Increasing(Deliver(w, p, now, writes).ledger.delivered)
    ensures p.number < MAX_NUMBER && writes(w.attempts) ==> Safe(Deliver(w, p, now, writes))
  {
  }

  lemma NoDrain(w: World, now: int, writes: Writes)
    requires w.buffer.expected !in w.buffer.pending
    ensures Drain(w, now, writes) == w
  {
  }

  lemma LastMayBeTop(cfg: Config, arrivals: seq<Arrival>, writes: Writes)
    requires forall i :: 0 <= i < |arrivals| - 1 ==> arrivals[i].packet.number != MAX_NUMBER
    ensures Increasing(Run(cfg, arrivals, writes).ledger.delivered)
  {
    hide Arrive, Safe, WindowInv;
    if |arrivals| > 0 {
      var init := arrivals[..|arrivals| - 1];
      SafeBelowTop(cfg, init, |init|, writes);
      WindowAlways(cfg, init, writes);
      StartedAlways(cfg, init, writes);
      ArriveIncreases(cfg, Run(cfg, init, writes), arrivals[|arrivals| - 1], writes);
    }
  }

  /** Something after 2^32 - 1 is delivered after it. */
  lemma AfterTop(cfg: Config, packets: seq<Numbered>, k: nat, writes: Writes)
    requires AllSucceed(writes) && k + 1 < |packets| && packets[k].number == MAX_NUMBER
    ensures !Increasing(Run(cfg, Late(cfg, packets[..k + 2]), writes).ledger.delivered)
  {
    hide Arrive, Clock, Late;
    var upTo, more := packets[..k + 1], packets[..k + 2];
    assert more[..|more| - 1] == upTo;
    TopGoesOut(cfg, upTo, writes);
    LateRun(cfg, upTo, writes);
    ClockStep(cfg, k + 1);
    LateSnoc(cfg, more, writes);
    var w := Run(cfg, Late(cfg, upTo), writes);
    Overdue(cfg, w, Arrival(more[k + 1], Clock(cfg, |more|)), writes);
    var d := Run(cfg, Late(cfg, more), writes).ledger.delivered;
    assert d[|d| - 2].number == MAX_NUMBER >= d[|d| - 1].number;
  }

  /** For the order alone 2^32 - 1 may be the last packet, and none but the last. */
  lemma IncreasingExactly(cfg: Config, packets: seq<Numbered>)
    ensures AlwaysIncreasing(cfg, packets) <==> forall i :: 0 <= i < |packets| - 1 ==> packets[i].number != MAX_NUMBER
  {
    hide Run, Late;
    if k: nat :| k < |packets| - 1 && packets[k].number == MAX_NUMBER {
      var writes: Writes := _ => true;
      LatePackets(cfg, packets);
      LatePrefix(cfg, packets, k + 2);
      AfterTop(cfg, packets, k, writes);
      DeliveredStays(cfg, Late(cfg, packets), k + 2, writes);
      IncreasingPrefix(Run(cfg, Late(cfg, packets[..k + 2]), writes).ledger.delivered,
                       Run(cfg, Late(cfg, packets), writes).ledger.delivered);
    } else {
      forall arrivals: seq<Arrival>, writes | Packets(arrivals) == packets ensures Increasing(Run(cfg, arrivals, writes).ledger.delivered) {
        forall i | 0 <= i < |arrivals| - 1 ensures arrivals[i].packet.number != MAX_NUMBER {
          assert Packets(arrivals)[i] == arrivals[i].packet;
        }
        LastMayBeTop(cfg, arrivals, writes);
      }
    }
  }

  lemma IncreasingPrefix(a: seq<Numbered>, b: seq<Numbered>)
    requires a <= b && !Increasing(a)
    ensures !Increasing(b)
  {
    var i, j :| 0 <= i < j < |a| && a[i].number >= a[j].number;
    assert b[i] == a[i] && b[j] == a[j];
  }
}

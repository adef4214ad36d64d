/** When the reorder buffer loses nothing: arrivals displaced by less than the window, in time, with
    successful writes, come out as the unbroken run of numbers, each with its first copy. */
module ReorderCompleteness {
  import opened Bytes
  import opened Reorder

  function Numbers(arrivals: seq<Arrival>): set<U32> {
    set i | 0 <= i < |arrivals| :: arrivals[i].packet.number
  }

  /** The payload of the first arrival carrying this number. */
  function FirstCopy(arrivals: seq<Arrival>, number: U32): seq<Byte>
    requires number in Numbers(arrivals)
  {
    var init, last := arrivals[..|arrivals| - 1], arrivals[|arrivals| - 1].packet;
    if number in Numbers(init) then FirstCopy(init, number)
    else
      assert Numbers(arrivals) == Numbers(init) + {last.number};
      last.payload
  }

  /** The first arrival is the lowest number, no number reaches 2^32 - 1, and each number arrives
      only after every number at least width below it. */
  ghost predicate DisplacedBy(width: int, arrivals: seq<Arrival>) {
    forall i :: 0 <= i < |arrivals| ==>
      var number := arrivals[i].packet.number;
      && arrivals[0].packet.number <= number < MAX_NUMBER
      && forall s :: arrivals[0].packet.number <= s && s + width <= number ==> s in Numbers(arrivals[..i])
  }

  ghost predicate InWindow(cfg: Config, arrivals: seq<Arrival>) {
    DisplacedBy(cfg.Window(), arrivals)
  }

  /** The window survives its conversion to uint32, or what is left of it spans all numbers anyway. */
  predicate WindowFits(cfg: Config) {
    cfg.Window() <= 0xFFFF_FFFF || cfg.Reach() >= 0xFFFF_FFFD
  }

  /** A packet that has to wait arrives less than the hold time after the last delivery. */
  ghost predicate Timely(cfg: Config, arrivals: seq<Arrival>, writes: Writes) {
    forall i :: 0 < i < |arrivals| ==>
      var b := Run(cfg, arrivals[..i], writes).buffer;
      b.expected < arrivals[i].packet.number ==> arrivals[i].now - b.lastDrain < cfg.hold
  }

  /** Delivered so far is the run lo, lo + 1, .. up to the expected number; waiting is exactly what
      arrived from the expected number on; all of it first copies, and nothing was given up. */
  ghost predicate Consistent(lo: int, arrivals: seq<Arrival>, w: World) {
    var e, delivered, pending := w.buffer.expected, w.ledger.delivered, w.buffer.pending;
    && w.buffer.initialized && lo <= e && |delivered| == e - lo
    && (forall s :: lo <= s < e ==>
          s in Numbers(arrivals) && delivered[s - lo] == Numbered(s, FirstCopy(arrivals, s)))
    && (forall s :: s in pending <==> s in Numbers(arrivals) && e <= s)
    && (forall s :: s in pending ==> s in Numbers(arrivals) && pending[s] == FirstCopy(arrivals, s))
    && w.ledger.cleared == multiset{} && w.ledger.lost == multiset{}
  }

  /** ... and the expected number is the least one that has not arrived. */
  ghost predicate Complete(lo: int, arrivals: seq<Arrival>, w: World) {
    Consistent(lo, arrivals, w) && w.buffer.expected !in Numbers(arrivals)
  }

  lemma NumbersSnoc(arrivals: seq<Arrival>, a: Arrival)
    ensures Numbers(arrivals + [a]) == Numbers(arrivals) + {a.packet.number}
    ensures forall s :: s in Numbers(arrivals) ==> FirstCopy(arrivals + [a], s) == FirstCopy(arrivals, s)
    ensures a.packet.number !in Numbers(arrivals) ==>
              FirstCopy(arrivals + [a], a.packet.number) == a.packet.payload
  {
    var all := arrivals + [a];
    assert all[..|all| - 1] == arrivals;
    forall s ensures s in Numbers(all) <==> s in Numbers(arrivals) + {a.packet.number} {
      if s in Numbers(arrivals) {
        var i :| 0 <= i < |arrivals| && arrivals[i].packet.number == s;
        assert all[i].packet.number == s;
      }
      assert all[|arrivals|] == a;
    }
  }

  /** One packet of a successful drain. */
  lemma DrainStepConsistent(lo: int, arrivals: seq<Arrival>, w: World, now: int, writes: Writes)
    requires AllSucceed(writes) && Consistent(lo, arrivals, w)
    requires w.buffer.expected in w.buffer.pending && w.buffer.expected < MAX_NUMBER
    ensures var b := w.buffer;
            var next := Deliver(Unpend(w, b.expected), Numbered(b.expected, b.pending[b.expected]), now, writes);
            Consistent(lo, arrivals, next) && |next.buffer.pending| < |b.pending|
  {
    var b := w.buffer;
    var next := Deliver(Unpend(w, b.expected), Numbered(b.expected, b.pending[b.expected]), now, writes);
    assert next.buffer.pending == b.pending - {b.expected};
    assert next.buffer.pending.Keys == b.pending.Keys - {b.expected};
  }

  lemma NotArrived(lo: int, arrivals: seq<Arrival>, w: World)
    requires Consistent(lo, arrivals, w)
    ensures w.buffer.expected in w.buffer.pending <==> w.buffer.expected in Numbers(arrivals)
  {
  }

  /** A successful drain keeps the correspondence and ends at a number that has not arrived. */
  lemma {:induction false} DrainComplete(lo: int, arrivals: seq<Arrival>, w: World, now: int, writes: Writes)
    requires AllSucceed(writes) && Consistent(lo, arrivals, w)
    requires forall s :: s in Numbers(arrivals) ==> s < MAX_NUMBER
    ensures Complete(lo, arrivals, Drain(w, now, writes))
    decreases |w.buffer.pending|
  {
    hide Consistent, Deliver;
    var b := w.buffer;
    NotArrived(lo, arrivals, w);
    if b.expected in b.pending {
      DrainStepConsistent(lo, arrivals, w, now, writes);
      var p := Numbered(b.expected, b.pending[b.expected]);
      DrainComplete(lo, arrivals, Deliver(Unpend(w, b.expected), p, now, writes), now, writes);
    }
  }

  lemma {:induction false} IntervalSize(keys: set<U32>, low: int, high: int)
    requires low <= high && forall k :: k in keys ==> low <= k < high
    ensures |keys| <= high - low
    decreases high - low
  {
    if low < high {
      var fewer := keys - {low};
      IntervalSize(fewer, low + 1, high);
      if low in keys {
        assert keys == fewer + {low};
      } else {
        assert keys == fewer;
      }
    } else {
      assert keys == {};
    }
  }

  /** Waiting numbers lie strictly between the missing one and the window above it. */
  lemma FewWaiting(cfg: Config, lo: int, arrivals: seq<Arrival>, w: World)
    requires Complete(lo, arrivals, w)
    requires forall s :: s in Numbers(arrivals) ==> s < w.buffer.expected + cfg.Window()
    ensures |w.buffer.pending| < cfg.Window()
  {
    var e := w.buffer.expected;
    IntervalSize(w.buffer.pending.Keys, e + 1, e + cfg.Window());
  }

  lemma StaleComplete(lo: int, arrivals: seq<Arrival>, w: World, a: Arrival)
    requires Complete(lo, arrivals, w) && lo <= a.packet.number < w.buffer.expected
    ensures Complete(lo, arrivals + [a], w.(ledger := w.ledger.(stale := w.ledger.stale + multiset{a.packet})))
  {
    NumbersSnoc(arrivals, a);
  }

  lemma InOrderComplete(lo: int, arrivals: seq<Arrival>, w: World, a: Arrival, writes: Writes)
    requires AllSucceed(writes) && Complete(lo, arrivals, w) && a.packet.number == w.buffer.expected
    requires forall s :: s in Numbers(arrivals) + {a.packet.number} ==> s < MAX_NUMBER
    ensures Complete(lo, arrivals + [a], InOrder(w, a, writes))
  {
    NumbersSnoc(arrivals, a);
    var next := Deliver(w, a.packet, a.now, writes);
    assert Consistent(lo, arrivals + [a], next);
    DrainComplete(lo, arrivals + [a], next, a.now, writes);
  }

  lemma HoldComplete(cfg: Config, lo: int, arrivals: seq<Arrival>, w: World, a: Arrival, writes: Writes)
    requires Complete(lo, arrivals, w) && w.buffer.expected < a.packet.number
    requires a.now - w.buffer.lastDrain < cfg.hold
    requires forall s :: s in Numbers(arrivals) + {a.packet.number} ==> s < w.buffer.expected + cfg.Window()
    ensures Complete(lo, arrivals + [a], Hold(cfg, w, a, writes))
  {
    NumbersSnoc(arrivals, a);
    var kept := Keep(w, a.packet);
    assert Complete(lo, arrivals + [a], kept);
    FewWaiting(cfg, lo, arrivals + [a], kept);
  }

  /** While e is missing nothing from e + Window() on can have arrived. */
  lemma NothingBeyond(cfg: Config, arrivals: seq<Arrival>, e: U32)
    requires InWindow(cfg, arrivals) && |arrivals| > 0
    requires arrivals[0].packet.number <= e && e !in Numbers(arrivals[..|arrivals| - 1])
    ensures forall s :: s in Numbers(arrivals) ==> s < e + cfg.Window() && s < MAX_NUMBER
  {
    forall s | s in Numbers(arrivals)
      ensures s < e + cfg.Window() && s < MAX_NUMBER
    {
      var i :| 0 <= i < |arrivals| && arrivals[i].packet.number == s;
      NumbersOfPrefix(arrivals, i, |arrivals| - 1);
    }
  }

  lemma NumbersOfPrefix(arrivals: seq<Arrival>, i: nat, k: nat)
    requires i <= k <= |arrivals|
    ensures Numbers(arrivals[..i]) <= Numbers(arrivals[..k])
  {
    forall s | s in Numbers(arrivals[..i]) ensures s in Numbers(arrivals[..k]) {
      var j :| 0 <= j < i && arrivals[..i][j].packet.number == s;
      assert arrivals[..k][j].packet.number == s;
    }
  }

  function StartedAt(a: Arrival): World {
    EMPTY.(buffer := Started(EMPTY.buffer, a.packet.number, a.now))
  }

  lemma StartComplete(a: Arrival)
    ensures Complete(a.packet.number, [], StartedAt(a))
    ensures StartedAt(a).buffer.expected == a.packet.number
  {
  }

  lemma FirstComplete(cfg: Config, a: Arrival, writes: Writes)
    requires AllSucceed(writes) && a.packet.number < MAX_NUMBER
    ensures Complete(a.packet.number, [a], Run(cfg, [a], writes))
  {
    hide Complete, InOrder, Hold, Restart, Run;
    StartComplete(a);
    InOrderComplete(a.packet.number, [], StartedAt(a), a, writes);
    assert [] + [a] == [a];
    RunOfOne(cfg, a, writes);
  }

  lemma RunOfOne(cfg: Config, a: Arrival, writes: Writes)
    ensures Run(cfg, [a], writes) == Arrive(cfg, EMPTY, a, writes)
  {
    assert [a][..0] == [];
  }

  lemma ArriveComplete(cfg: Config, init: seq<Arrival>, w: World, last: Arrival, writes: Writes)
    requires AllSucceed(writes) && WindowFits(cfg)
    requires |init| > 0 && InWindow(cfg, init + [last])
    requires Complete(init[0].packet.number, init, w)
    requires w.buffer.expected < last.packet.number ==> last.now - w.buffer.lastDrain < cfg.hold
    ensures Complete(init[0].packet.number, init + [last], Arrive(cfg, w, last, writes))
  {
    hide InOrder, Hold, Complete, Restart;
    var lo, e, arrivals := init[0].packet.number, w.buffer.expected, init + [last];
    assert arrivals[..|arrivals| - 1] == init && arrivals[|init|] == last;
    CompleteExpected(lo, init, w);
    NumbersSnoc(init, last);
    NothingBeyond(cfg, arrivals, e);
    assert Started(w.buffer, last.packet.number, last.now) == w.buffer;
    assert init[0].packet.number in Numbers(init);
    if last.packet.number < e {
      StaleComplete(lo, init, w, last);
    } else if last.packet.number == e {
      InOrderComplete(lo, init, w, last, writes);
    } else {
      HoldComplete(cfg, lo, init, w, last, writes);
    }
  }

  lemma CompleteExpected(lo: int, arrivals: seq<Arrival>, w: World)
    requires Complete(lo, arrivals, w)
    ensures w.buffer.initialized && lo <= w.buffer.expected && w.buffer.expected !in Numbers(arrivals)
  {
  }

  /** Reordering within the window is undone completely, after every arrival of the run: the expected
      number is the least that has not arrived, exactly the arrived numbers above it wait, and the
      backend has got the unbroken run below it, first copies only, duplicates dropped. */
  lemma {:induction false} ReorderingIsComplete(cfg: Config, arrivals: seq<Arrival>, k: nat, writes: Writes)
    requires AllSucceed(writes) && WindowFits(cfg)
    requires InWindow(cfg, arrivals) && Timely(cfg, arrivals, writes)
    requires 0 < k <= |arrivals|
    ensures Complete(arrivals[0].packet.number, arrivals[..k], Run(cfg, arrivals[..k], writes))
    decreases k
  {
    hide Complete, Arrive;
    if k == 1 {
      FirstComplete(cfg, arrivals[0], writes);
      assert arrivals[..1] == [arrivals[0]];
    } else {
      var init, last := arrivals[..k - 1], arrivals[k - 1];
      ReorderingIsComplete(cfg, arrivals, k - 1, writes);
      assert arrivals[..k] == init + [last] && arrivals[..k][..k - 1] == init;
      InWindowPrefix(cfg, arrivals, k);
      ArriveComplete(cfg, init, Run(cfg, init, writes), last, writes);
    }
  }

  lemma InWindowPrefix(cfg: Config, arrivals: seq<Arrival>, k: nat)
    requires InWindow(cfg, arrivals) && k <= |arrivals|
    ensures InWindow(cfg, arrivals[..k])
  {
    forall i | 0 <= i < k ensures arrivals[..k][..i] == arrivals[..i] {
    }
  }
}

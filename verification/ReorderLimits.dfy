/** How far the reorder buffer's completeness reaches: exactly which windows keep the promise, and exactly
    how much displacement a window undoes. */
module ReorderLimits {
  import opened Bytes
  import opened Reorder
  import opened ReorderCompleteness

  /** Timely arrivals displaced by less than width always come out completely. */
  ghost predicate Undoes(cfg: Config, width: int, writes: Writes) {
    forall arrivals: seq<Arrival> :: |arrivals| > 0 && DisplacedBy(width, arrivals) && Timely(cfg, arrivals, writes) ==>
      Complete(arrivals[0].packet.number, arrivals, Run(cfg, arrivals, writes))
  }

  lemma UndoesWindow(cfg: Config, width: int, writes: Writes)
    requires AllSucceed(writes) && WindowFits(cfg) && width <= cfg.Window()
    ensures Undoes(cfg, width, writes)
  {
    hide Complete, Timely, Run;
    forall arrivals: seq<Arrival> | |arrivals| > 0 && DisplacedBy(width, arrivals) && Timely(cfg, arrivals, writes)
      ensures Complete(arrivals[0].packet.number, arrivals, Run(cfg, arrivals, writes))
    {
      NarrowerIsStronger(width, cfg.Window(), arrivals);
      ReorderingIsComplete(cfg, arrivals, |arrivals|, writes);
      assert arrivals[..|arrivals|] == arrivals;
    }
  }

  // Windows too wide for uint32.

  /** When a packet that has to wait is in time whatever the hold time is. */
  function Soon(cfg: Config): int {
    if cfg.hold > 0 then 0 else cfg.hold - 1
  }

  /** 0, then a number just out of what is left of the window. */
  function Gap(cfg: Config): seq<Arrival>
    requires !WindowFits(cfg)
  {
    [Arrival(Numbered(0, []), 0), Arrival(Numbered(cfg.Reach() + 2, []), Soon(cfg))]
  }

  lemma AfterZero(cfg: Config, writes: Writes)
    requires AllSucceed(writes)
    ensures var a := Arrival(Numbered(0, []), 0);
            Run(cfg, [a], writes).buffer == Buffer(true, 1, map[], 0)
            && Run(cfg, [a], writes).ledger.delivered == [a.packet]
  {
    RunOfOne(cfg, Arrival(Numbered(0, []), 0), writes);
  }

  lemma GapRestarts(cfg: Config, writes: Writes)
    requires AllSucceed(writes) && !WindowFits(cfg)
    ensures DisplacedBy(cfg.Window(), Gap(cfg)) && Timely(cfg, Gap(cfg), writes)
    ensures !Complete(0, Gap(cfg), Run(cfg, Gap(cfg), writes))
  {
    var a, b := Gap(cfg)[0], Gap(cfg)[1];
    AfterZero(cfg, writes);
    assert Gap(cfg)[..1] == [a];
    var w := Arrive(cfg, Run(cfg, [a], writes), b, writes);
    assert Run(cfg, Gap(cfg), writes) == w;
    assert w.ledger.delivered == [a.packet, b.packet] && w.buffer.expected == cfg.Reach() + 3;
  }

  /** The window keeps its promise exactly when it survives the conversion to uint32, or what is left of it
      still spans all numbers. A window of 2^32 keeps nothing: its reach is 0. */
  lemma WindowExactly(cfg: Config, writes: Writes)
    requires AllSucceed(writes)
    ensures Undoes(cfg, cfg.Window(), writes) <==> WindowFits(cfg)
  {
    hide Complete, Timely, Run, DisplacedBy;
    if WindowFits(cfg) {
      UndoesWindow(cfg, cfg.Window(), writes);
    } else {
      GapRestarts(cfg, writes);
    }
  }

  // Displacement.

  /** Number 0, then 2 up to last: number 1 is overtaken by last - 1 packets. */
  function Overtaking(cfg: Config, last: nat): seq<Arrival>
    requires 1 <= last < MAX_NUMBER
  {
    if last == 1 then [Arrival(Numbered(0, []), 0)]
    else Overtaking(cfg, last - 1) + [Arrival(Numbered(last, []), Soon(cfg))]
  }

  lemma {:induction false} OvertakingAt(cfg: Config, last: nat)
    requires 1 <= last < MAX_NUMBER
    ensures |Overtaking(cfg, last)| == last
    ensures forall i :: 0 <= i < last ==>
              Overtaking(cfg, last)[i] == Arrival(Numbered(if i == 0 then 0 else i + 1, []), if i == 0 then 0 else Soon(cfg))
    ensures forall i :: 1 <= i <= last ==> Overtaking(cfg, last)[..i] == Overtaking(cfg, i)
  {
    if last > 1 {
      OvertakingAt(cfg, last - 1);
      var all, init := Overtaking(cfg, last), Overtaking(cfg, last - 1);
      assert forall i :: 1 <= i < last ==> all[..i] == init[..i];
      assert all[..last] == all;
    }
  }

  /** A packet in time joins the waiting ones while there is room. */
  lemma Waits(cfg: Config, w: World, a: Arrival, writes: Writes)
    requires w.buffer.initialized && w.buffer.expected == 1 && w.buffer.lastDrain == 0
    requires 2 <= a.packet.number <= cfg.Window() <= 0xFFFF_FFFD && a.now == Soon(cfg)
    requires a.packet.number !in w.buffer.pending && |w.buffer.pending| + 1 < cfg.Window()
    ensures Arrive(cfg, w, a, writes).buffer
         == w.buffer.(pending := w.buffer.pending[a.packet.number := a.packet.payload])
  {
    hide ForceDrain, InOrder, Restart;
    assert Started(w.buffer, a.packet.number, a.now) == w.buffer;
    var kept := Keep(w, a.packet);
    assert |kept.buffer.pending| == |w.buffer.pending| + 1;
    assert !MustDrain(cfg, kept.buffer, a.now);
  }

  /** While fewer than Window() packets wait, everything waits for number 1. */
  lemma {:induction false} AllWait(cfg: Config, last: nat, writes: Writes)
    requires AllSucceed(writes) && 1 <= last <= cfg.Window() <= 0xFFFF_FFFD
    ensures var b := Run(cfg, Overtaking(cfg, last), writes).buffer;
            && b.initialized && b.expected == 1 && b.lastDrain == 0 && |b.pending| == last - 1
            && forall k :: k in b.pending <==> 2 <= k <= last
  {
    hide Arrive;
    if last == 1 {
      AfterZero(cfg, writes);
    } else {
      AllWait(cfg, last - 1, writes);
      var init, a := Overtaking(cfg, last - 1), Arrival(Numbered(last, []), Soon(cfg));
      RunSnoc(cfg, init, a, writes);
      Waits(cfg, Run(cfg, init, writes), a, writes);
    }
  }

  lemma RunSnoc(cfg: Config, arrivals: seq<Arrival>, a: Arrival, writes: Writes)
    ensures Run(cfg, arrivals + [a], writes) == Arrive(cfg, Run(cfg, arrivals, writes), a, writes)
  {
    assert (arrivals + [a])[..|arrivals|] == arrivals;
  }

  lemma OvertakingTimely(cfg: Config, last: nat, writes: Writes)
    requires AllSucceed(writes) && 1 <= last <= cfg.Window() + 1 <= 0xFFFF_FFFE
    ensures Timely(cfg, Overtaking(cfg, last), writes)
  {
    hide Run;
    OvertakingAt(cfg, last);
    forall i | 0 < i < last
      ensures Run(cfg, Overtaking(cfg, last)[..i], writes).buffer.lastDrain == 0
    {
      AllWait(cfg, i, writes);
    }
  }

  lemma OvertakingDisplaced(cfg: Config, last: nat)
    requires 1 <= last < MAX_NUMBER
    ensures DisplacedBy(last, Overtaking(cfg, last))
  {
    OvertakingAt(cfg, last);
    var all := Overtaking(cfg, last);
    forall i | 0 < i < last ensures 0 in Numbers(all[..i]) {
      assert all[..i][0].packet.number == 0;
    }
  }

  /** One packet too many: to be complete, a full window would have to wait for number 1. */
  lemma OneTooMany(cfg: Config, writes: Writes)
    requires AllSucceed(writes) && cfg.Window() <= 0xFFFF_FFFD
    ensures var all := Overtaking(cfg, cfg.Window() + 1); !Complete(0, all, Run(cfg, all, writes))
  {
    var last := cfg.Window() + 1;
    var all := Overtaking(cfg, last);
    hide Run, Overtaking, Numbers, Complete;
    WindowAlways(cfg, all, writes);
    var w := Run(cfg, all, writes);
    if Complete(0, all, w) {
      OvertakingNumbers(cfg, last);
      MissingOne(Numbers(all), last, all, w);
      AtLeast(w.buffer.pending.Keys, 2, last + 1);
      assert false;
    }
  }

  lemma OvertakingNumbers(cfg: Config, last: nat)
    requires 1 <= last < MAX_NUMBER
    ensures forall k: U32 :: k in Numbers(Overtaking(cfg, last)) <==> k == 0 || 2 <= k <= last
  {
    hide Overtaking;
    OvertakingAt(cfg, last);
    var all := Overtaking(cfg, last);
    forall k: U32 | k == 0 || 2 <= k <= last ensures k in Numbers(all) {
      assert all[if k == 0 then 0 else k - 1].packet.number == k;
    }
  }

  /** Complete without number 1: everything above it waits. */
  lemma MissingOne(numbers: set<U32>, last: nat, arrivals: seq<Arrival>, w: World)
    requires Complete(0, arrivals, w) && numbers == Numbers(arrivals)
    requires forall k: U32 :: k in numbers <==> k == 0 || 2 <= k <= last
    ensures forall k: U32 :: 2 <= k <= last ==> k in w.buffer.pending
  {
    hide Numbers, FirstCopy;
    assert 1 !in numbers && 0 in numbers;
    assert w.buffer.expected <= 1;
  }

  lemma {:induction false} AtLeast(keys: set<U32>, low: U32, high: U32)
    requires low <= high && forall k: U32 :: low <= k < high ==> k in keys
    ensures |keys| >= high - low
    decreases high - low
  {
    if low < high {
      AtLeast(keys - {low}, low + 1, high);
    }
  }

  lemma NarrowerIsStronger(narrow: int, wide: int, arrivals: seq<Arrival>)
    requires narrow <= wide && DisplacedBy(narrow, arrivals)
    ensures DisplacedBy(wide, arrivals)
  {
  }

  /** The window is exactly the displacement the buffer undoes: all of it, and not one number more. */
  lemma DisplacementExactly(cfg: Config, width: int, writes: Writes)
    requires AllSucceed(writes) && cfg.Window() <= 0xFFFF_FFFD
    ensures Undoes(cfg, width, writes) <==> width <= cfg.Window()
  {
    hide Complete, Timely, Run, DisplacedBy, Overtaking;
    if width <= cfg.Window() {
      UndoesWindow(cfg, width, writes);
    } else {
      var last := cfg.Window() + 1;
      var all := Overtaking(cfg, last);
      OvertakingDisplaced(cfg, last);
      NarrowerIsStronger(last, width, all);
      OvertakingTimely(cfg, last, writes);
      OneTooMany(cfg, writes);
      OvertakingAt(cfg, last);
      assert all[0].packet.number == 0;
    }
  }
}

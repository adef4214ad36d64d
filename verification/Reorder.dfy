/** What the server's upstream reorder buffer does with one arrival and with a whole run of them
    (internal/server/server.go: writeUpstreamToBackend, forceDrainReorderLocked), as functions on
    values. Every arrival is entered in a ledger under what became of it. */
module Reorder {
  import opened Bytes

  const MAX_NUMBER: U32 := 0xFFFF_FFFF

  datatype Numbered = Numbered(number: U32, payload: seq<Byte>)

  datatype Arrival = Arrival(packet: Numbered, now: int)

  datatype Config = Config(reorderWindow: int, hold: int) {
    /** max(1, upstreamReorderWindow), which bounds the number of waiting packets. */
    function Window(): (w: int)
      ensures w >= 1
    {
      if reorderWindow > 1 then reorderWindow else 1
    }

    /** The same as a uint32, which bounds the distance from the expected number. */
    function Reach(): U32 {
      Window() % 0x1_0000_0000
    }
  }

  datatype Buffer = Buffer(initialized: bool, expected: U32, pending: map<U32, seq<Byte>>, lastDrain: int)

  /** What has become of the packets: written to the backend, dropped as too old, dropped as already
      waiting, thrown away by a window reset, or lost to a failed write. */
  datatype Ledger = Ledger(
    delivered: seq<Numbered>, stale: multiset<Numbered>, duplicate: multiset<Numbered>,
    cleared: multiset<Numbered>, lost: multiset<Numbered>)

  /** writes(k) says whether the k-th write to the backend succeeds; attempts counts them. */
  datatype World = World(buffer: Buffer, attempts: nat, ledger: Ledger)

  type Writes = nat -> bool

  ghost predicate AllSucceed(writes: Writes) {
    forall k :: writes(k)
  }

  function Successor(x: U32): U32 {
    (x + 1) % 0x1_0000_0000
  }

  function Waiting(pending: map<U32, seq<Byte>>): set<Numbered> {
    set k | k in pending :: Numbered(k, pending[k])
  }

  ghost function Least(keys: set<U32>): (m: U32)
    requires keys != {}
    ensures m in keys && forall k :: k in keys ==> m <= k
  {
    var k :| k in keys;
    if keys == {k} then k
    else
      var m := Least(keys - {k});
      assert keys == (keys - {k}) + {k};
      if k < m then k else m
  }

  /** One write to the backend; on success the expected number moves past the packet. */
  function Deliver(w: World, p: Numbered, now: int, writes: Writes): World {
    if writes(w.attempts) then
      World(w.buffer.(expected := Successor(p.number), lastDrain := now), w.attempts + 1,
            w.ledger.(delivered := w.ledger.delivered + [p]))
    else
      World(w.buffer, w.attempts + 1, w.ledger.(lost := w.ledger.lost + multiset{p}))
  }

  function Unpend(w: World, k: U32): World {
    w.(buffer := w.buffer.(pending := w.buffer.pending - {k}))
  }

  /** The drain loop: waiting packets go out while the expected one is there and writes succeed. */
  function Drain(w: World, now: int, writes: Writes): World
    decreases |w.buffer.pending|
  {
    var b := w.buffer;
    if b.expected !in b.pending then w
    else
      var next := Deliver(Unpend(w, b.expected), Numbered(b.expected, b.pending[b.expected]), now, writes);
      if writes(w.attempts) then Drain(next, now, writes) else next
  }

  ghost function ForceDrain(w: World, now: int, writes: Writes): World {
    if w.buffer.pending == map[] then w
    else Drain(w.(buffer := w.buffer.(expected := Least(w.buffer.pending.Keys))), now, writes)
  }

  function Started(b: Buffer, number: U32, now: int): Buffer {
    if b.initialized then b else b.(initialized := true, expected := number, lastDrain := now)
  }

  function Keep(w: World, p: Numbered): World {
    if p.number in w.buffer.pending then
      w.(ledger := w.ledger.(duplicate := w.ledger.duplicate + multiset{p}))
    else
      w.(buffer := w.buffer.(pending := w.buffer.pending[p.number := p.payload]))
  }

  function ClearPending(w: World): World {
    w.(buffer := w.buffer.(pending := map[]),
       ledger := w.ledger.(cleared := w.ledger.cleared + multiset(Waiting(w.buffer.pending))))
  }

  predicate MustDrain(cfg: Config, b: Buffer, now: int) {
    |b.pending| >= cfg.Window() || now - b.lastDrain >= cfg.hold
  }

  /** The expected number arrived: write it, then whatever it makes deliverable. */
  function InOrder(w: World, a: Arrival, writes: Writes): World {
    var next := Deliver(w, a.packet, a.now, writes);
    if writes(w.attempts) then Drain(next, a.now, writes) else next
  }

  /** A number out of reach: forget what waits and restart the window behind this packet. */
  function Restart(w: World, a: Arrival, writes: Writes): World {
    Deliver(ClearPending(w), a.packet, a.now, writes)
  }

  /** A number ahead of the expected one: keep it; drain by force if too much or too long is waiting. */
  ghost function Hold(cfg: Config, w: World, a: Arrival, writes: Writes): World {
    var kept := Keep(w, a.packet);
    if MustDrain(cfg, kept.buffer, a.now) then ForceDrain(kept, a.now, writes) else kept
  }

  ghost function Arrive(cfg: Config, w: World, a: Arrival, writes: Writes): World {
    var s := w.(buffer := Started(w.buffer, a.packet.number, a.now));
    var expected, number := s.buffer.expected, a.packet.number;
    if number < expected then s.(ledger := s.ledger.(stale := s.ledger.stale + multiset{a.packet}))
    else if number == expected then InOrder(s, a, writes)
    else if number - expected > cfg.Reach() then Restart(s, a, writes)
    else Hold(cfg, s, a, writes)
  }

  const EMPTY: World :=
    World(Buffer(false, 0, map[], 0), 0, Ledger([], multiset{}, multiset{}, multiset{}, multiset{}))

  ghost function Run(cfg: Config, arrivals: seq<Arrival>, writes: Writes): World {
    if |arrivals| == 0 then EMPTY
    else Arrive(cfg, Run(cfg, arrivals[..|arrivals| - 1], writes), arrivals[|arrivals| - 1], writes)
  }

  // The window.

  /** Between calls: every waiting number is above the expected one and within reach of it, so none is
      deliverable, and fewer than Window() packets wait. */
  ghost predicate WindowInv(cfg: Config, b: Buffer) {
    && (!b.initialized ==> b.pending == map[])
    && (forall k :: k in b.pending ==> b.expected < k <= b.expected + cfg.Reach())
    && |b.pending| < cfg.Window()
  }

  /** During a drain the expected number may itself be waiting. */
  ghost predicate DrainInv(cfg: Config, b: Buffer) {
    && b.initialized
    && (forall k :: k in b.pending ==> b.expected <= k <= b.expected + cfg.Reach())
  }

  lemma {:induction false} DrainKeepsWindow(cfg: Config, w: World, now: int, writes: Writes)
    requires DrainInv(cfg, w.buffer)
    ensures var b := Drain(w, now, writes).buffer;
            && DrainInv(cfg, b) && b.expected !in b.pending
            && b.pending.Keys <= w.buffer.pending.Keys
            && (w.buffer.expected in w.buffer.pending ==> |b.pending| < |w.buffer.pending|)
    decreases |w.buffer.pending|
  {
    var b := w.buffer;
    if b.expected in b.pending {
      var p := Numbered(b.expected, b.pending[b.expected]);
      var next := Deliver(Unpend(w, b.expected), p, now, writes);
      assert next.buffer.pending.Keys == b.pending.Keys - {b.expected};
      assert |next.buffer.pending| == |b.pending| - 1;
      if writes(w.attempts) {
        DrainKeepsWindow(cfg, next, now, writes);
      }
    }
  }

  lemma InOrderKeepsWindow(cfg: Config, w: World, a: Arrival, writes: Writes)
    requires WindowInv(cfg, w.buffer) && w.buffer.initialized && a.packet.number == w.buffer.expected
    ensures WindowInv(cfg, InOrder(w, a, writes).buffer)
  {
    if writes(w.attempts) {
      var next := Deliver(w, a.packet, a.now, writes);
      DrainKeepsWindow(cfg, next, a.now, writes);
      if next.buffer.expected !in next.buffer.pending {
        assert Drain(next, a.now, writes) == next;
      }
    }
  }

  lemma HoldKeepsWindow(cfg: Config, w: World, a: Arrival, writes: Writes)
    requires WindowInv(cfg, w.buffer) && w.buffer.initialized
    requires w.buffer.expected < a.packet.number <= w.buffer.expected + cfg.Reach()
    ensures WindowInv(cfg, Hold(cfg, w, a, writes).buffer)
  {
    hide Drain;
    var kept := Keep(w, a.packet);
    assert |kept.buffer.pending| <= |w.buffer.pending| + 1;
    if MustDrain(cfg, kept.buffer, a.now) && kept.buffer.pending != map[] {
      var low := Least(kept.buffer.pending.Keys);
      DrainKeepsWindow(cfg, kept.(buffer := kept.buffer.(expected := low)), a.now, writes);
    }
  }

  lemma ArriveKeepsWindow(cfg: Config, w: World, a: Arrival, writes: Writes)
    requires WindowInv(cfg, w.buffer)
    ensures WindowInv(cfg, Arrive(cfg, w, a, writes).buffer)
  {
    hide Hold, InOrder;
    var s := w.(buffer := Started(w.buffer, a.packet.number, a.now));
    var expected, number := s.buffer.expected, a.packet.number;
    if number == expected {
      InOrderKeepsWindow(cfg, s, a, writes);
    } else if expected < number <= expected + cfg.Reach() {
      HoldKeepsWindow(cfg, s, a, writes);
    }
  }

  /** After every call of every run, whatever the arrivals, the clock and the failing writes, and
      also when numbers wrap around. */
  lemma {:induction false} WindowAlways(cfg: Config, arrivals: seq<Arrival>, writes: Writes)
    ensures WindowInv(cfg, Run(cfg, arrivals, writes).buffer)
  {
    if |arrivals| > 0 {
      WindowAlways(cfg, arrivals[..|arrivals| - 1], writes);
      ArriveKeepsWindow(cfg, Run(cfg, arrivals[..|arrivals| - 1], writes), arrivals[|arrivals| - 1], writes);
    }
  }

  // Conservation.

  ghost function Accounted(w: World): multiset<Numbered> {
    multiset(w.ledger.delivered) + multiset(Waiting(w.buffer.pending))
    + w.ledger.stale + w.ledger.duplicate + w.ledger.cleared + w.ledger.lost
  }

  lemma WaitingWithout(pending: map<U32, seq<Byte>>, k: U32)
    requires k in pending
    ensures multiset(Waiting(pending)) == multiset(Waiting(pending - {k})) + multiset{Numbered(k, pending[k])}
  {
    var p := Numbered(k, pending[k]);
    forall q ensures q in Waiting(pending) <==> q in Waiting(pending - {k}) + {p} {
      assert q in Waiting(pending) <==> q.number in pending && pending[q.number] == q.payload;
      assert q in Waiting(pending - {k}) <==> q.number in pending - {k} && (pending - {k})[q.number] == q.payload;
    }
    assert Waiting(pending) == Waiting(pending - {k}) + {p};
    assert p !in Waiting(pending - {k});
  }

  lemma WaitingWith(pending: map<U32, seq<Byte>>, p: Numbered)
    requires p.number !in pending
    ensures multiset(Waiting(pending[p.number := p.payload])) == multiset(Waiting(pending)) + multiset{p}
  {
    WaitingWithout(pending[p.number := p.payload], p.number);
    assert pending[p.number := p.payload] - {p.number} == pending;
  }

  lemma DeliverAccounts(w: World, p: Numbered, now: int, writes: Writes)
    ensures Accounted(Deliver(w, p, now, writes)) == Accounted(w) + multiset{p}
  {
  }

  lemma {:induction false} DrainAccounts(w: World, now: int, writes: Writes)
    ensures Accounted(Drain(w, now, writes)) == Accounted(w)
    decreases |w.buffer.pending|
  {
    var b := w.buffer;
    if b.expected in b.pending {
      var p := Numbered(b.expected, b.pending[b.expected]);
      WaitingWithout(b.pending, b.expected);
      var u := Unpend(w, b.expected);
      assert Accounted(u) + multiset{p} == Accounted(w);
      DeliverAccounts(u, p, now, writes);
      if writes(w.attempts) {
        DrainAccounts(Deliver(u, p, now, writes), now, writes);
      }
    }
  }

  lemma KeepAccounts(w: World, p: Numbered)
    ensures Accounted(Keep(w, p)) == Accounted(w) + multiset{p}
  {
    if p.number !in w.buffer.pending {
      WaitingWith(w.buffer.pending, p);
    }
  }

  lemma HoldAccounts(cfg: Config, w: World, a: Arrival, writes: Writes)
    ensures Accounted(Hold(cfg, w, a, writes)) == Accounted(w) + multiset{a.packet}
  {
    var kept := Keep(w, a.packet);
    KeepAccounts(w, a.packet);
    if kept.buffer.pending != map[] {
      DrainAccounts(kept.(buffer := kept.buffer.(expected := Least(kept.buffer.pending.Keys))), a.now, writes);
    }
  }

  lemma RestartAccounts(w: World, a: Arrival, writes: Writes)
    ensures Accounted(Restart(w, a, writes)) == Accounted(w) + multiset{a.packet}
  {
    assert Accounted(ClearPending(w)) == Accounted(w);
    DeliverAccounts(ClearPending(w), a.packet, a.now, writes);
  }

  lemma InOrderAccounts(w: World, a: Arrival, writes: Writes)
    ensures Accounted(InOrder(w, a, writes)) == Accounted(w) + multiset{a.packet}
  {
    hide Accounted;
    DeliverAccounts(w, a.packet, a.now, writes);
    DrainAccounts(Deliver(w, a.packet, a.now, writes), a.now, writes);
  }

  lemma ArriveAccounts(cfg: Config, w: World, a: Arrival, writes: Writes)
    ensures Accounted(Arrive(cfg, w, a, writes)) == Accounted(w) + multiset{a.packet}
  {
    hide InOrder, Restart, Hold;
    var s := w.(buffer := Started(w.buffer, a.packet.number, a.now));
    InOrderAccounts(s, a, writes);
    RestartAccounts(s, a, writes);
    HoldAccounts(cfg, s, a, writes);
  }

  function Packets(arrivals: seq<Arrival>): seq<Numbered> {
    seq(|arrivals|, i requires 0 <= i < |arrivals| => arrivals[i].packet)
  }

  lemma NothingAccounted()
    ensures Accounted(EMPTY) == multiset{}
  {
  }

  /** Every arrival of every run is in exactly one place: delivered, waiting, dropped as stale or
      duplicate, cleared by a window reset, or lost to a failed write. */
  lemma {:induction false} Conservation(cfg: Config, arrivals: seq<Arrival>, writes: Writes)
    ensures Accounted(Run(cfg, arrivals, writes)) == multiset(Packets(arrivals))
  {
    hide Arrive, Accounted;
    if |arrivals| == 0 {
      NothingAccounted();
    } else {
      var init, last := arrivals[..|arrivals| - 1], arrivals[|arrivals| - 1];
      Conservation(cfg, init, writes);
      ArriveAccounts(cfg, Run(cfg, init, writes), last, writes);
      assert Packets(arrivals) == Packets(init) + [last.packet];
    }
  }
}

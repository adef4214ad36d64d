/** The reorder buffer as the server keeps it: an object updated in place under its lock, writing to
    the session's backend socket. Proved against the functions of module Reorder. */
module ReorderStates {
  import opened Bytes
  import opened Reorder

  /** A session's backend socket; which writes succeed is decided outside. */
  class Backend {
    const writes: Writes
    var attempts: nat
    var datagrams: seq<seq<Byte>>

    constructor (writes: Writes)
      ensures this.writes == writes && attempts == 0 && datagrams == []
    {
      this.writes := writes;
      attempts, datagrams := 0, [];
    }

    /** writeBackendPacket: reports success. */
    method Write(payload: seq<Byte>) returns (ok: bool)
      modifies this
      ensures ok == writes(old(attempts)) && attempts == old(attempts) + 1
      ensures datagrams == if ok then old(datagrams) + [payload] else old(datagrams)
    {
      ok := writes(attempts);
      attempts := attempts + 1;
      if ok {
        datagrams := datagrams + [payload];
      }
    }
  }

  function Payloads(ps: seq<Numbered>): seq<seq<Byte>> {
    seq(|ps|, i requires 0 <= i < |ps| => ps[i].payload)
  }

  class ReorderState {
    const cfg: Config
    const backend: Backend
    var initialized: bool
    var expected: U32
    var pending: map<U32, seq<Byte>>
    var lastDrain: int
    ghost var ledger: Ledger

    /** The object as a value of module Reorder. */
    ghost function View(): World
      reads this, backend
    {
      World(Buffer(initialized, expected, pending, lastDrain), backend.attempts, ledger)
    }

    /** What the backend received is what the ledger calls delivered. */
    ghost predicate Valid()
      reads this, backend
    {
      backend.datagrams == Payloads(ledger.delivered)
    }

    constructor (cfg: Config, backend: Backend)
      requires backend.attempts == 0 && backend.datagrams == []
      ensures this.cfg == cfg && this.backend == backend
      ensures Valid() && View() == EMPTY
    {
      this.cfg, this.backend := cfg, backend;
      initialized, expected, pending, lastDrain := false, 0, map[], 0;
      ledger := EMPTY.ledger;
    }

    /** One write and the bookkeeping around it; on failure nothing moves and the packet is gone. */
    method WriteOut(number: U32, payload: seq<Byte>, now: int) returns (ok: bool)
      requires Valid()
      modifies this, backend
      ensures Valid()
      ensures ok == backend.writes(old(backend.attempts))
      ensures View() == Deliver(old(View()), Numbered(number, payload), now, backend.writes)
    {
      ok := backend.Write(payload);
      if ok {
        expected := Successor(number);
        lastDrain := now;
        ledger := ledger.(delivered := ledger.delivered + [Numbered(number, payload)]);
      } else {
        ledger := ledger.(lost := ledger.lost + multiset{Numbered(number, payload)});
      }
    }

    /** The drain loop. */
    method DrainPending(now: int)
      requires Valid()
      modifies this, backend
      ensures Valid()
      ensures View() == Drain(old(View()), now, backend.writes)
    {
      ghost var goal := Drain(View(), now, backend.writes);
      while expected in pending
        invariant Valid() && goal == Drain(View(), now, backend.writes)
        decreases |pending|
      {
        hide Deliver;
        var next := pending[expected];
        assert |pending - {expected}| < |pending| by {
          assert (pending - {expected}).Keys == pending.Keys - {expected};
        }
        var before := |pending|;
        pending := pending - {expected};
        ghost var u := View();
        var ok := WriteOut(expected, next, now);
        KeepsPending(u, Numbered(u.buffer.expected, next), now, backend.writes);
        if !ok {
          return;
        }
      }
    }

    /** The scan of the map for its least number, in whatever order the map is iterated. */
    method LeastPending() returns (minSeq: U32)
      requires pending != map[]
      ensures minSeq == Least(pending.Keys)
    {
      minSeq := 0;
      var found := false;
      var unseen := pending.Keys;
      ghost var seen: set<U32> := {};
      while unseen != {}
        invariant seen + unseen == pending.Keys
        invariant found <==> seen != {}
        invariant found ==> minSeq == Least(seen)
        decreases unseen
      {
        var key :| key in unseen;
        unseen := unseen - {key};
        seen := seen + {key};
        if !found || key < minSeq {
          minSeq, found := key, true;
        }
      }
      assert seen == pending.Keys;
    }

    /** forceDrainReorderLocked: the drain starts at the least waiting number. */
    method ForceDrainLocked(now: int)
      requires Valid()
      modifies this, backend
      ensures Valid()
      ensures View() == ForceDrain(old(View()), now, backend.writes)
    {
      hide Drain;
      if |pending| == 0 {
        return;
      }
      expected := LeastPending();
      DrainPending(now);
    }

    /** writeUpstreamToBackend. With striping off the packet goes straight to the backend. */
    method WriteUpstreamToBackend(stripeEnabled: bool, number: U32, payload: seq<Byte>, now: int)
      requires Valid()
      modifies this, backend
      ensures stripeEnabled ==> Valid()
      ensures stripeEnabled ==>
                View() == Arrive(cfg, old(View()), Arrival(Numbered(number, payload), now), backend.writes)
      ensures !stripeEnabled ==>
                && View() == old(View()).(attempts := old(backend.attempts) + 1)
                && backend.datagrams == old(backend.datagrams)
                                        + if backend.writes(old(backend.attempts)) then [payload] else []
    {
      hide Drain, Deliver, ForceDrain;
      if !stripeEnabled {
        var _ := backend.Write(payload);
        return;
      }
      if !initialized {
        initialized, expected, lastDrain := true, number, now;
      }
      ghost var p := Numbered(number, payload);
      if number < expected {
        ledger := ledger.(stale := ledger.stale + multiset{p});
        return;
      }
      if number == expected {
        var ok := WriteOut(number, payload, now);
        if !ok {
          return;
        }
        DrainPending(now);
        return;
      }
      if number - expected > cfg.Reach() {
        ledger := ledger.(cleared := ledger.cleared + multiset(Waiting(pending)));
        pending := map[];
        var _ := WriteOut(number, payload, now);
        return;
      }
      if number !in pending {
        pending := pending[number := payload];
      } else {
        ledger := ledger.(duplicate := ledger.duplicate + multiset{p});
      }
      if |pending| >= cfg.Window() || now - lastDrain >= cfg.hold {
        ForceDrainLocked(now);
      }
    }
  }

  lemma KeepsPending(w: World, p: Numbered, now: int, writes: Writes)
    ensures Deliver(w, p, now, writes).buffer.pending == w.buffer.pending
  {
  }

  /** A session's reorder buffer fed arrival by arrival: the backend holds the payloads the run
      delivers, in that order, and nothing else. */
  method ServeSession(cfg: Config, arrivals: seq<Arrival>, writes: Writes) returns (sent: seq<seq<Byte>>)
    ensures sent == Payloads(Run(cfg, arrivals, writes).ledger.delivered)
  {
    hide Arrive;
    var backend := new Backend(writes);
    var state := new ReorderState(cfg, backend);
    var i := 0;
    while i < |arrivals|
      invariant 0 <= i <= |arrivals|
      invariant state.Valid() && state.View() == Run(cfg, arrivals[..i], writes)
    {
      var a := arrivals[i];
      state.WriteUpstreamToBackend(true, a.packet.number, a.packet.payload, a.now);
      assert arrivals[..i + 1][..i] == arrivals[..i];
      assert Arrival(Numbered(a.packet.number, a.packet.payload), a.now) == a;
      i := i + 1;
    }
    assert arrivals[..i] == arrivals;
    sent := backend.datagrams;
  }
}

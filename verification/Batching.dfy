/** The two batching loops: downstreamWriter.run on the server (internal/server/server.go) and
    handleUpstreamWrites on the client (internal/client/client.go). What the loops do not control
    (which frame is ready when, timers, connections, shutdown) is an input. */
module Batching {
  import opened Bytes
  import opened UpstreamRings

  /** Why a batch was flushed: it was full, nothing more was ready, or ctx.Done cut the timer short. */
  datatype Cause = WasFull | NothingReady | Stopped

  /** One flush: the frames and what happened to them. */
  datatype Flush<C> = Flush(frames: seq<seq<Byte>>, outcome: C, cause: Cause)

  /** All frames of all flushes, sent or dropped, in order. */
  function AllFrames<C>(log: seq<Flush<C>>): seq<seq<Byte>> {
    if |log| == 0 then [] else AllFrames(log[..|log| - 1]) + log[|log| - 1].frames
  }

  /** A batch is not empty, has at most max(1, maxPackets) frames, and once it has more than one the
      bytes before its last frame are below maxBytes. */
  predicate Bounded(frames: seq<seq<Byte>>, maxPackets: int, maxBytes: int) {
    && 1 <= |frames| <= (if maxPackets > 1 then maxPackets else 1)
    && (|frames| > 1 ==> TotalSize(frames[..|frames| - 1]) < maxBytes)
  }

  predicate FlushInv<C>(f: Flush<C>, maxPackets: int, maxBytes: int) {
    && Bounded(f.frames, maxPackets, maxBytes)
    && (f.cause == WasFull ==> |f.frames| >= maxPackets || TotalSize(f.frames) >= maxBytes)
  }

  predicate LogInv<C>(log: seq<Flush<C>>, maxPackets: int, maxBytes: int) {
    forall i :: 0 <= i < |log| ==> FlushInv(log[i], maxPackets, maxBytes)
  }

  lemma AllFramesSnoc<C>(log: seq<Flush<C>>, f: Flush<C>)
    ensures AllFrames(log + [f]) == AllFrames(log) + f.frames
  {
    assert (log + [f])[..|log|] == log;
  }

  lemma SingleBounded(f: seq<Byte>, maxPackets: int, maxBytes: int)
    ensures Bounded([f], maxPackets, maxBytes) && TotalSize([f]) == |f| && |[f]| >= 1
  {
  }

  lemma BoundedSnoc(frames: seq<seq<Byte>>, f: seq<Byte>, maxPackets: int, maxBytes: int)
    requires Bounded(frames, maxPackets, maxBytes) && |frames| < maxPackets && TotalSize(frames) < maxBytes
    ensures Bounded(frames + [f], maxPackets, maxBytes) && TotalSize(frames + [f]) == TotalSize(frames) + |f|
  {
    assert (frames + [f])[..|frames|] == frames;
  }

  // The server's downstream writer.

  datatype Timer = NoDelay | Fired | CutShort

  /** frames: what the lane's channel yields, in order; ready(k): whether the k-th of them is there when a
      non-blocking receive asks for it, which happens at most once; stop(j), timer(j), conns(j): the j-th
      outer select, timer and connection lookup. */
  datatype LaneInput = LaneInput(
    frames: seq<seq<Byte>>, ready: nat -> bool, stop: nat -> bool, timer: nat -> Timer, conns: nat -> Option<nat>)

  /** Why the j-th flush holds what it holds, when its first frame is number `at`: the shutdown cuts a batch
      to its first frame, and any other batch takes every frame that is ready until it is full. */
  predicate FlushExplained(f: Flush<Option<nat>>, input: LaneInput, j: nat, at: nat, maxPackets: nat, maxBytes: nat) {
    && 1 <= |f.frames| <= |input.frames| - at
    && f.frames == input.frames[at..at + |f.frames|]
    && f.outcome == input.conns(j)
    && (f.cause == Stopped <==> 1 < maxPackets && |f.frames[0]| < maxBytes && input.timer(j) == CutShort)
    && (f.cause == Stopped ==> |f.frames| == 1)
    && (forall k :: at < k < at + |f.frames| ==> input.ready(k))
    && (f.cause == NothingReady ==>
          && |f.frames| < maxPackets && TotalSize(f.frames) < maxBytes
          && (at + |f.frames| == |input.frames| || !input.ready(at + |f.frames|)))
  }

  /** Every flush of the log is explained, each beginning where the one before it ended. */
  predicate Explained(log: seq<Flush<Option<nat>>>, input: LaneInput, maxPackets: nat, maxBytes: nat) {
    var n := |log| - 1;
    |log| > 0 ==>
      && Explained(log[..n], input, maxPackets, maxBytes)
      && FlushExplained(log[n], input, n, |AllFrames(log[..n])|, maxPackets, maxBytes)
  }

  lemma ExplainedSnoc(log: seq<Flush<Option<nat>>>, f: Flush<Option<nat>>, input: LaneInput, maxPackets: nat, maxBytes: nat)
    requires Explained(log, input, maxPackets, maxBytes)
    requires FlushExplained(f, input, |log|, |AllFrames(log)|, maxPackets, maxBytes)
    ensures Explained(log + [f], input, maxPackets, maxBytes)
  {
    assert (log + [f])[..|log|] == log;
  }

  lemma ExplainedEmpty(input: LaneInput, maxPackets: nat, maxBytes: nat)
    ensures Explained([], input, maxPackets, maxBytes)
  {
  }

  lemma FlushTakes(f: Flush<Option<nat>>, input: LaneInput, j: nat, at: nat, maxPackets: nat, maxBytes: nat)
    requires at <= |input.frames| && FlushExplained(f, input, j, at, maxPackets, maxBytes)
    ensures |f.frames| > 0 && at + |f.frames| <= |input.frames| && f.outcome == input.conns(j)
    ensures input.frames[..at] + f.frames == input.frames[..at + |f.frames|]
  {
  }

  lemma StoppedByTimer(log: seq<Flush<Option<nat>>>, input: LaneInput, maxPackets: nat, maxBytes: nat)
    requires |log| > 0 && Explained(log, input, maxPackets, maxBytes)
    ensures log[|log| - 1].cause == Stopped ==> input.timer(|log| - 1) == CutShort
  {
  }

  type Handed = Option<array<seq<Byte>>>

  class DownstreamWriter {
    const batchMaxPackets: nat
    const batchMaxBytes: nat
    var log: seq<Flush<Option<nat>>>
    var handed: seq<Handed>     // the frame slices given to AsyncWritev, one entry per flush

    constructor (packets: int, bytes: int)
      ensures log == [] && handed == []
      ensures batchMaxPackets == (if packets > 1 then packets else 1)
      ensures batchMaxBytes == (if bytes > 1 then bytes else 1)
    {
      batchMaxPackets := if packets > 1 then packets else 1;
      batchMaxBytes := if bytes > 1 then bytes else 1;
      log, handed := [], [];
    }

    ghost function HandedArrays(): set<array<seq<Byte>>>
      reads this
    {
      set i | 0 <= i < |handed| && handed[i].Some? :: handed[i].value
    }

    /** Every flush kept the bounds, and every slice handed to an asynchronous write still holds the
        frames of its flush. */
    ghost predicate Valid()
      reads this, HandedArrays()
    {
      && |handed| == |log|
      && LogInv(log, batchMaxPackets, batchMaxBytes)
      && (forall i :: 0 <= i < |log| ==>
            (handed[i].Some? <==> log[i].outcome.Some?)
            && (handed[i].Some? ==> handed[i].value[..] == log[i].frames))
    }

    /** flush: without a connection the frames are dropped; otherwise a fresh copy of the slice goes to
        AsyncWritev, because the batch array is used again at once. */
    method FlushBatch(batch: array<seq<Byte>>, count: nat, conn: Option<nat>, cause: Cause)
      requires Valid() && batch !in HandedArrays()
      requires 1 <= count <= batch.Length == batchMaxPackets
      requires FlushInv(Flush(batch[..count], conn, cause), batchMaxPackets, batchMaxBytes)
      modifies this
      ensures Valid() && fresh(HandedArrays() - old(HandedArrays()))
      ensures log == old(log) + [Flush(batch[..count], conn, cause)]
      ensures handed[..|handed| - 1] == old(handed)
    {
      var entry: Handed := None;
      if conn.Some? {
        var frames := new seq<Byte>[count](i requires 0 <= i < count <= batch.Length reads batch => batch[i]);
        assert frames[..] == batch[..count];
        entry := Some(frames);
      }
      log := log + [Flush(batch[..count], conn, cause)];
      handed := handed + [entry];
    }

    /** The inner loop: tops up a batch holding its first frame with whatever is ready. */
    method TopUp(batch: array<seq<Byte>>, input: LaneInput, taken0: nat) returns (count: nat, cause: Cause)
      requires taken0 < |input.frames| && 1 <= batchMaxPackets == batch.Length
      requires batch[0] == input.frames[taken0]
      modifies batch
      ensures 1 <= count <= batchMaxPackets && taken0 + count <= |input.frames|
      ensures batch[..count] == input.frames[taken0..taken0 + count]
      ensures Bounded(batch[..count], batchMaxPackets, batchMaxBytes)
      ensures cause == WasFull ==> count == batchMaxPackets || TotalSize(batch[..count]) >= batchMaxBytes
      ensures cause != Stopped && forall k :: taken0 < k < taken0 + count ==> input.ready(k)
      ensures cause == NothingReady ==>
                && count < batchMaxPackets && TotalSize(batch[..count]) < batchMaxBytes
                && (taken0 + count == |input.frames| || !input.ready(taken0 + count))
    {
      hide Bounded, TotalSize;
      count, cause := 1, WasFull;
      var batchBytes := |batch[0]|;
      ghost var got := [batch[0]];
      SingleBounded(batch[0], batchMaxPackets, batchMaxBytes);
      while count < batchMaxPackets && batchBytes < batchMaxBytes
        invariant |got| == count <= batchMaxPackets && taken0 + count <= |input.frames|
        invariant batch[..count] == got && got == input.frames[taken0..taken0 + count]
        invariant batchBytes == TotalSize(got) && Bounded(got, batchMaxPackets, batchMaxBytes)
        invariant cause == WasFull && forall k :: taken0 < k < taken0 + count ==> input.ready(k)
        decreases batchMaxPackets - count
      {
        var next := taken0 + count;
        if next == |input.frames| || !input.ready(next) {
          cause := NothingReady;
          break;
        }
        var frame := input.frames[next];
        BoundedSnoc(got, frame, batchMaxPackets, batchMaxBytes);
        batch[count] := frame;
        batchBytes := batchBytes + |frame|;
        got := got + [frame];
        count := count + 1;
      }
    }

    /** One round of the outer loop with a first frame: wait for the timer, top the batch up, flush. */
    method Round(batch: array<seq<Byte>>, input: LaneInput, taken0: nat) returns (taken: nat, stopped: bool)
      requires Valid() && batch !in HandedArrays() && batch.Length == batchMaxPackets
      requires batchMaxPackets >= 1 && batchMaxBytes >= 1
      requires taken0 < |input.frames|
      modifies this, batch
      ensures Valid() && fresh(HandedArrays() - old(HandedArrays())) && batch !in HandedArrays()
      ensures |log| == old(|log|) + 1 && log[..old(|log|)] == old(log)
      ensures FlushExplained(log[old(|log|)], input, old(|log|), taken0, batchMaxPackets, batchMaxBytes)
      ensures taken == taken0 + |log[old(|log|)].frames|
      ensures stopped <==> log[old(|log|)].cause == Stopped
    {
      hide Valid, Bounded, TotalSize;
      var first, j := input.frames[taken0], |log|;
      batch[0] := first;
      if 1 < batchMaxPackets && |first| < batchMaxBytes && input.timer(j) == CutShort {
        assert batch[..1] == [first] == input.frames[taken0..taken0 + 1];
        SingleBounded(first, batchMaxPackets, batchMaxBytes);
        FlushBatch(batch, 1, input.conns(j), Stopped);
        return taken0 + 1, true;
      }
      var count, cause := TopUp(batch, input, taken0);
      FlushBatch(batch, count, input.conns(j), cause);
      taken, stopped := taken0 + count, false;
    }

    lemma EmptyLog()
      requires log == [] && handed == []
      ensures Valid() && HandedArrays() == {} && AllFrames(log) == []
    {
    }

    /** run, up to the point where it returns or waits for a frame that never comes. It ends with the last
        frame or with the shutdown, and nowhere else. */
    method Run(input: LaneInput) returns (taken: nat)
      requires log == [] && handed == [] && batchMaxPackets >= 1 && batchMaxBytes >= 1
      modifies this
      ensures Valid()
      ensures taken <= |input.frames| && AllFrames(log) == input.frames[..taken]
      ensures Explained(log, input, batchMaxPackets, batchMaxBytes)
      ensures forall j :: 0 <= j < |log| ==> log[j].outcome == input.conns(j)
      ensures forall j :: 0 <= j < |log| - 1 ==> log[j].cause != Stopped
      ensures taken == |input.frames| || input.stop(|log|) || (|log| > 0 && log[|log| - 1].cause == Stopped)
      ensures (forall j: nat :: !input.stop(j)) && (forall j: nat :: input.timer(j) != CutShort) ==>
                AllFrames(log) == input.frames
    {
      hide LogInv, Valid, AllFrames, FlushExplained, Explained, Bounded, TotalSize;
      EmptyLog();
      ExplainedEmpty(input, batchMaxPackets, batchMaxBytes);
      var batch := new seq<Byte>[batchMaxPackets](_ => []);
      taken := 0;
      var stopped := false;
      while !stopped && taken < |input.frames| && !input.stop(|log|)
        invariant taken <= |input.frames| && AllFrames(log) == input.frames[..taken]
        invariant Valid() && batch !in HandedArrays() && fresh(HandedArrays())
        invariant Explained(log, input, batchMaxPackets, batchMaxBytes)
        invariant forall j :: 0 <= j < |log| ==> log[j].outcome == input.conns(j)
        invariant stopped ==> |log| > 0 && log[|log| - 1].cause == Stopped
        invariant forall j :: 0 <= j < |log| - (if stopped then 1 else 0) ==> log[j].cause != Stopped
        decreases |input.frames| - taken, !stopped
      {
        ghost var before, from := log, taken;
        taken, stopped := Round(batch, input, taken);
        ghost var f := log[|before|];
        assert log == before + [f];
        AllFramesSnoc(before, f);
        ExplainedSnoc(before, f, input, batchMaxPackets, batchMaxBytes);
        FlushTakes(f, input, |before|, from, batchMaxPackets, batchMaxBytes);
      }
      if stopped {
        StoppedByTimer(log, input, batchMaxPackets, batchMaxBytes);
      }
    }
  }

  // The client's upstream writer.

  /** What writeUpstreamBatch met: no connection, a completed write, or a failing one. */
  datatype WriteOutcome = NoConnection | Written | WriteFailed

  /** What happens around the loop: offers(k) are the packets producers try to send before the k-th ring
      operation and closes(k) whether the ring is closed then, for k < turns; timer(j) and outcome(j)
      belong to the j-th batch. */
  datatype Surroundings = Surroundings(
    turns: nat, offers: nat -> seq<seq<Byte>>, closes: nat -> bool, timer: nat -> Timer, outcome: nat -> WriteOutcome)

  class UpstreamWriter {
    const ring: UpstreamRing
    const maxPackets: int
    const maxBytes: int
    var log: seq<Flush<WriteOutcome>>
    var turn: nat
    ghost const start: nat        // how much of the ring's history came before this writer

    constructor (ring: UpstreamRing, maxPackets: int, maxBytes: int)
      requires ring.Valid()
      ensures this.ring == ring && this.maxPackets == maxPackets && this.maxBytes == maxBytes
      ensures log == [] && turn == 0 && start == ring.readCount
    {
      this.ring, this.maxPackets, this.maxBytes := ring, maxPackets, maxBytes;
      log, turn, start := [], 0, ring.readCount;
    }

    /** The packets popped and not yet released, as they were submitted. */
    ghost function Batched(): seq<seq<Byte>>
      reads ring
    {
      if ring.freeCount <= ring.readCount <= |ring.history| then ring.history[ring.freeCount..ring.readCount] else []
    }

    /** The batch is exactly what has been popped and not released, still intact. */
    ghost predicate Holds(batch: seq<UpstreamPacket>)
      reads ring, ring.slots
      ensures Holds(batch) ==> |Batched()| == |batch| && ring.readCount <= |ring.history|
    {
      && ring.Valid() && ring.readCount == ring.freeCount + |batch|
      && (forall i :: 0 <= i < |batch| ==> batch[i] == ring.At(ring.freeCount + i))
    }

    /** What has been flushed is, in order, what has been popped and released. */
    ghost predicate Conserves()
      reads this`log, ring
    {
      && LogInv(log, maxPackets, maxBytes)
      && start <= ring.freeCount <= |ring.history|
      && AllFrames(log) == ring.history[start..ring.freeCount]
    }

    /** What a turn does: the offered packets that fit are in the ring, and it is closed if Stop closed it. */
    ghost predicate Turned(around: Surroundings, turn: nat, history: seq<seq<Byte>>, closed: bool)
      requires |ring.slots| == ring.capacity > 0
      reads ring
    {
      && ring.history == (if closed then history else ring.Accepted(history, ring.freeCount, around.offers(turn)))
      && ring.closed == (closed || around.closes(turn))
    }

    /** Producers and Stop get their turn between two ring operations, and while the connection is written to. */
    method Interfere(around: Surroundings, batch: seq<UpstreamPacket>)
      requires Holds(batch)
      modifies this`turn, ring, ring.slots
      ensures Holds(batch) && old(ring.history) <= ring.history
      ensures old(Conserves()) ==> Conserves()
      ensures ring.readCount == old(ring.readCount) && ring.freeCount == old(ring.freeCount)
      ensures Batched() == old(Batched())
      ensures turn == old(turn) + if old(turn) < around.turns then 1 else 0
      ensures if old(turn) < around.turns then Turned(around, old(turn), old(ring.history), old(ring.closed))
              else ring.history == old(ring.history) && ring.closed == old(ring.closed)
    {
      hide LogInv, AllFrames, Turned;
      if turn >= around.turns {
        return;
      }
      ghost var was := ring.history;
      TakeTurn(around);
      assert ring.history[ring.freeCount..ring.readCount] == was[ring.freeCount..ring.readCount];
      assert start <= ring.freeCount <= |was| ==> ring.history[start..ring.freeCount] == was[start..ring.freeCount];
    }

    /** Producers offer their packets; Stop may close the ring. */
    method TakeTurn(around: Surroundings)
      requires ring.Valid()
      modifies this`turn, ring, ring.slots
      ensures ring.Valid() && turn == old(turn) + 1 && old(ring.history) <= ring.history
      ensures ring.readCount == old(ring.readCount) && ring.freeCount == old(ring.freeCount)
      ensures Turned(around, old(turn), old(ring.history), old(ring.closed))
    {
      SendAll(ring, around.offers(turn));
      if around.closes(turn) {
        ring.Close();
      }
      turn := turn + 1;
    }

    /** The writev list: the batched packets' data. */
    method Gather(batch: seq<UpstreamPacket>) returns (frames: seq<seq<Byte>>)
      requires Holds(batch)
      ensures frames == Batched()
    {
      frames := [];
      var i := 0;
      while i < |batch|
        invariant 0 <= i <= |batch|
        invariant frames == ring.history[ring.freeCount..ring.freeCount + i]
      {
        assert batch[i].data == ring.history[ring.freeCount + i];
        frames := frames + [batch[i].data];
        i := i + 1;
      }
    }

    /** Gives the first packet of the batch back to the producer. */
    method ReleaseFirst(batch: seq<UpstreamPacket>)
      requires Holds(batch) && |batch| > 0
      modifies ring, batch[0]
      ensures Holds(batch[1..]) && ring.history == old(ring.history)
      ensures ring.readCount == old(ring.readCount) && ring.freeCount == old(ring.freeCount) + 1
    {
      hide UpstreamRing.Valid, UpstreamRing.At;
      CountersOrdered(batch);
      ring.SlotsThere();
      assert batch[0] == ring.At(ring.freeCount + 0);
      assert forall i :: 0 <= i < |batch| - 1 ==> batch[1..][i] == ring.At(ring.freeCount + 1 + i);
      ring.Release(batch[0]);
    }

    /** Gives every packet of the batch back to the producer, in order. */
    method ReleaseAll(around: Surroundings, batch: seq<UpstreamPacket>)
      requires Holds(batch)
      modifies this`turn, ring, ring.slots
      ensures Holds([]) && old(ring.history) <= ring.history
      ensures ring.readCount == old(ring.readCount) && ring.freeCount == ring.readCount
      ensures TurnsTaken(around, old(turn), old(ring.history))
    {
      hide Holds, LogInv, AllFrames;
      ghost var first := ring.freeCount;
      var i := 0;
      assert batch[0..] == batch;
      while i < |batch|
        invariant 0 <= i <= |batch| && Holds(batch[i..])
        invariant old(ring.history) <= ring.history
        invariant ring.readCount == old(ring.readCount) && ring.freeCount == first + i
        invariant TurnsTaken(around, old(turn), old(ring.history))
        modifies this`turn, ring, ring.slots
      {
        Interfere(around, batch[i..]);
        Member(batch[i..]);
        assert batch[i..][1..] == batch[i + 1..];
        ReleaseFirst(batch[i..]);
        i := i + 1;
      }
      AllReleased();
    }

    lemma Member(batch: seq<UpstreamPacket>)
      requires Holds(batch) && |batch| > 0
      ensures batch[0] in ring.slots
    {
      assert batch[0] == ring.At(ring.freeCount + 0);
    }

    lemma CountersOrdered(batch: seq<UpstreamPacket>)
      requires Holds(batch)
      ensures ring.freeCount <= ring.readCount <= |ring.history|
    {
    }

    lemma LogGrows(f: Flush<WriteOutcome>)
      requires Conserves() && FlushInv(f, maxPackets, maxBytes)
      ensures LogInv(log + [f], maxPackets, maxBytes)
    {
    }

    lemma AllReleased()
      requires Holds([])
      ensures ring.freeCount == ring.readCount
    {
    }

    /** Some turns have passed, no more than there are; without one nothing has been submitted. */
    ghost predicate TurnsTaken(around: Surroundings, before: nat, history: seq<seq<Byte>>)
      reads this`turn, ring`history
    {
      && before <= turn <= (if before <= around.turns then around.turns else before)
      && (turn == before ==> ring.history == history)
    }

    /** flush: hand the batch to writeUpstreamBatch, then release it whatever came of the write. */
    method FlushBatch(around: Surroundings, batch: seq<UpstreamPacket>, outcome: WriteOutcome, cause: Cause)
      requires Holds(batch) && Conserves()
      requires FlushInv(Flush(Batched(), outcome, cause), maxPackets, maxBytes)
      requires outcome == around.outcome(|log|)
      requires cause == NothingReady ==>
                 |batch| < maxPackets && TotalSize(Batched()) < maxBytes && ring.readCount == |ring.history|
      requires cause == Stopped ==> |batch| == 1 && around.timer(|log|) == CutShort
      modifies this`log, this`turn, ring, ring.slots
      ensures Holds([]) && Conserves() && old(ring.history) <= ring.history
      ensures ring.readCount == old(ring.readCount) && ring.freeCount == ring.readCount
      ensures log == old(log) + [Flush(old(Batched()), outcome, cause)]
      ensures TurnsTaken(around, old(turn), old(ring.history))
    {
      hide Holds, LogInv, FlushInv, AllFrames;
      ghost var from, to, was := ring.freeCount, ring.readCount, ring.history;
      CountersOrdered(batch);
      LogGrows(Flush(Batched(), outcome, cause));
      var frames := Gather(batch);
      Interfere(around, batch);
      ReleaseAll(around, batch);
      AllFramesSnoc(log, Flush(frames, outcome, cause));
      assert was[start..from] + was[from..to] == was[start..to] == ring.history[start..to];
      log := log + [Flush(frames, outcome, cause)];
    }

    /** One tryPop, its packet put into the batch. */
    method TakeMore(batch: seq<UpstreamPacket>) returns (more: Option<UpstreamPacket>)
      requires Holds(batch) && Conserves()
      modifies ring
      ensures Conserves() && ring.history == old(ring.history) && ring.closed == old(ring.closed)
      ensures ring.freeCount == old(ring.freeCount)
      ensures more.None? ==>
                Holds(batch) && ring.readCount == old(ring.readCount) == |ring.history| && Batched() == old(Batched())
      ensures more.Some? ==>
                && Holds(batch + [more.value]) && ring.readCount == old(ring.readCount) + 1
                && Batched() == old(Batched()) + [more.value.data]
    {
      hide LogInv, AllFrames, UpstreamRing.Valid;
      CountersOrdered(batch);
      ring.SlotsThere();
      ghost var from, to := ring.freeCount, ring.readCount;
      var r := ring.TryPop();
      if r.Popped? {
        assert ring.history[from..to + 1] == ring.history[from..to] + [ring.history[to]];
        assert r.packet == ring.At(from + |batch|);
        more := Some(r.packet);
      } else {
        more := None;
      }
    }

    /** The inner loop: tops up the batch with what can be popped at once. */
    method TopUp(around: Surroundings, first: UpstreamPacket)
      returns (batch: seq<UpstreamPacket>, cause: Cause)
      requires Holds([first]) && Conserves()
      requires Batched() == [first.data]
      modifies this`turn, ring, ring.slots
      ensures Holds(batch) && Conserves() && old(ring.history) <= ring.history
      ensures ring.freeCount == old(ring.freeCount) && old(ring.readCount) <= ring.readCount
      ensures Bounded(Batched(), maxPackets, maxBytes)
      ensures cause == WasFull ==>
                |batch| >= maxPackets || TotalSize(Batched()) >= maxBytes
      ensures cause == NothingReady ==>
                |batch| < maxPackets && TotalSize(Batched()) < maxBytes && ring.readCount == |ring.history|
      ensures cause != Stopped && old(turn) <= turn <= (if old(turn) <= around.turns then around.turns else old(turn))
      ensures turn == old(turn) ==> ring.history == old(ring.history)
    {
      hide LogInv, AllFrames, Bounded, TotalSize, Holds, Conserves, Batched;
      batch, cause := [first], WasFull;
      var batchBytes := |first.data|;
      SingleBounded(first.data, maxPackets, maxBytes);
      while |batch| < maxPackets && batchBytes < maxBytes
        invariant Holds(batch) && Conserves() && old(ring.history) <= ring.history
        invariant ring.freeCount == old(ring.freeCount) && old(ring.readCount) <= ring.readCount
        invariant Bounded(Batched(), maxPackets, maxBytes)
        invariant batchBytes == TotalSize(Batched())
        invariant cause == WasFull
        invariant old(turn) <= turn <= (if old(turn) <= around.turns then around.turns else old(turn))
        invariant turn == old(turn) ==> ring.history == old(ring.history)
        invariant |Batched()| == |batch|
        decreases maxPackets - |batch|
        modifies this`turn, ring, ring.slots
      {
        Interfere(around, batch);
        ghost var got := Batched();
        var more := TakeMore(batch);
        if more.None? {
          cause := NothingReady;
          break;
        }
        BoundedSnoc(got, more.value.data, maxPackets, maxBytes);
        batchBytes := batchBytes + |more.value.data|;
        batch := batch + [more.value];
      }
    }

    /** pop, one turn, with an empty batch. */
    method PopFirst() returns (r: PopResult)
      requires Holds([]) && Conserves()
      modifies ring
      ensures Conserves() && ring.history == old(ring.history) && ring.closed == old(ring.closed)
      ensures ring.freeCount == old(ring.freeCount)
      ensures !r.Popped? ==> Holds([]) && ring.freeCount == ring.readCount == |ring.history|
      ensures r.PopClosed? ==> ring.closed
      ensures r.Popped? ==>
                && Holds([r.packet]) && ring.readCount == old(ring.readCount) + 1 <= |ring.history|
                && Batched() == [r.packet.data]
    {
      hide LogInv, AllFrames;
      r := ring.Pop();
    }

    /** One round of the outer loop with a first packet: wait for the timer, top the batch up, flush. */
    method Round(around: Surroundings, first: UpstreamPacket) returns (stopped: bool)
      requires Holds([first]) && Conserves() && Batched() == [first.data]
      modifies this`log, this`turn, ring, ring.slots
      ensures Holds([]) && Conserves() && old(ring.history) <= ring.history
      ensures ring.freeCount == ring.readCount >= old(ring.readCount)
      ensures |log| == old(|log|) + 1 && log[..old(|log|)] == old(log)
      ensures log[old(|log|)].outcome == around.outcome(old(|log|))
      ensures stopped <==> log[old(|log|)].cause == Stopped
      ensures stopped ==> around.timer(old(|log|)) == CutShort
      ensures TurnsTaken(around, old(turn), old(ring.history))
    {
      hide LogInv, AllFrames, Bounded, TotalSize, Holds, Conserves, Batched, UpstreamRing.Valid;
      var j := |log|;
      SingleBounded(first.data, maxPackets, maxBytes);
      if 1 < maxPackets && |first.data| < maxBytes && around.timer(j) == CutShort {
        FlushBatch(around, [first], around.outcome(j), Stopped);
        return true;
      }
      var batch, cause := TopUp(around, first);
      FlushBatch(around, batch, around.outcome(j), cause);
      stopped := false;
    }

    /** handleUpstreamWrites, up to the point where it returns or waits for a packet that never comes. */
    method Run(around: Surroundings) returns (drained: bool)
      requires Holds([]) && Conserves() && turn == 0
      modifies this`log, this`turn, ring, ring.slots
      ensures Holds([]) && Conserves() && old(ring.history) <= ring.history
      ensures old(log) <= log && forall j :: old(|log|) <= j < |log| ==> log[j].outcome == around.outcome(j)
      ensures drained ==>
                ring.freeCount == ring.readCount == |ring.history| && (ring.closed || turn == around.turns)
      ensures !drained ==>
                |log| > old(|log|) && log[|log| - 1].cause == Stopped && around.timer(|log| - 1) == CutShort
      ensures forall j :: old(|log|) <= j < |log| - (if drained then 0 else 1) ==> log[j].cause != Stopped
    {
      hide LogInv, Holds, Conserves, Batched, Turned, UpstreamRing.Valid;
      drained := true;
      while true
        invariant Holds([]) && Conserves() && old(ring.history) <= ring.history
        invariant old(log) <= log && forall j :: old(|log|) <= j < |log| ==> log[j].outcome == around.outcome(j)
        invariant forall j :: old(|log|) <= j < |log| ==> log[j].cause != Stopped
        invariant turn <= around.turns && ring.readCount <= |ring.history|
        decreases around.turns - turn, |ring.history| - ring.readCount
        modifies this`log, this`turn, ring, ring.slots
      {
        var settled := turn >= around.turns;
        Interfere(around, []);
        var r := PopFirst();
        if r.PopClosed? || (r.Empty? && settled) {
          return;
        }
        if r.Empty? {
          continue;
        }
        var stopped := Round(around, r.packet);
        if stopped {
          drained := false;
          return;
        }
      }
    }
  }
}

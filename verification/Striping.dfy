/** Striping one session over several upstream lanes and putting it together again: numbers go round
    robin over the lanes (internal/client/client.go: selectUpstreamLane), every lane is a FIFO, and the
    server's reorder buffer sees some interleaving of the lanes. */
module Striping {
  import opened Bytes
  import opened Division
  import opened Reorder
  import opened ReorderCompleteness

  /** The numbers of 1..n that selectUpstreamLane puts on this lane, in sending order. */
  function LaneNumbers(n: nat, lanes: nat, lane: nat): seq<nat>
    requires lanes > 0
  {
    if n == 0 then []
    else LaneNumbers(n - 1, lanes, lane) + (if n % lanes == lane then [n] else [])
  }

  /** Position of number k within its lane. */
  function Position(k: nat, lanes: nat): nat
    requires k > 0 && lanes > 0
  {
    (k - 1) / lanes
  }

  /** Numbers a whole stride apart are that many positions apart or more. */
  lemma PositionsApart(k: nat, t: nat, stride: nat, lanes: nat)
    requires lanes > 0 && k > 0 && k + stride * lanes <= t
    ensures Position(k, lanes) + stride <= Position(t, lanes)
  {
    DivShift(k - 1, stride, lanes);
    DivMonotone(k - 1 + stride * lanes, t - 1, lanes);
  }

  /** How many numbers a lane carries, and where each number sits in its lane. */
  lemma {:induction false} LaneLayout(n: nat, lanes: nat, lane: nat)
    requires lane < lanes
    ensures |LaneNumbers(n, lanes, lane)|
         == n / lanes + (if n % lanes >= (if lane == 0 then lanes else lane) then 1 else 0)
    ensures forall k :: 1 <= k <= n && k % lanes == lane ==>
              Position(k, lanes) < |LaneNumbers(n, lanes, lane)|
              && LaneNumbers(n, lanes, lane)[Position(k, lanes)] == k
    ensures forall j :: 0 <= j < |LaneNumbers(n, lanes, lane)| ==>
              var k := LaneNumbers(n, lanes, lane)[j];
              1 <= k <= n && k % lanes == lane && Position(k, lanes) == j
  {
    if n > 0 {
      LaneLayout(n - 1, lanes, lane);
      DivModStep(n - 1, lanes);
    }
  }

  function Count(choices: seq<nat>, lane: nat): nat {
    if |choices| == 0 then 0
    else Count(choices[..|choices| - 1], lane) + (if choices[|choices| - 1] == lane then 1 else 0)
  }

  /** The lanes deliver in the order of choices, each from its front, all of it. */
  ghost predicate Interleaves(choices: seq<nat>, n: nat, lanes: nat) {
    && lanes > 0
    && (forall i :: 0 <= i < |choices| ==> choices[i] < lanes)
    && (forall lane :: 0 <= lane < lanes ==> Count(choices, lane) == |LaneNumbers(n, lanes, lane)|)
  }

  lemma {:induction false} CountMonotone(choices: seq<nat>, i: nat, lane: nat)
    requires i <= |choices|
    ensures Count(choices[..i], lane) <= Count(choices, lane)
    ensures i < |choices| && choices[i] == lane ==> Count(choices[..i], lane) < Count(choices, lane)
    decreases |choices|
  {
    if i == |choices| {
      assert choices[..i] == choices;
    } else {
      var init := choices[..|choices| - 1];
      assert init[..i] == choices[..i];
      CountMonotone(init, i, lane);
    }
  }

  /** The number the i-th arrival carries: the next one of its lane. */
  function NumberAt(choices: seq<nat>, n: nat, lanes: nat, i: nat): nat
    requires Interleaves(choices, n, lanes) && i < |choices|
  {
    CountMonotone(choices, i, choices[i]);
    LaneNumbers(n, lanes, choices[i])[Count(choices[..i], choices[i])]
  }

  /** No lane runs more than skew packets ahead of a lane that still has some to deliver. */
  ghost predicate BoundedSkew(choices: seq<nat>, n: nat, lanes: nat, skew: nat)
    requires lanes > 0
  {
    forall i, lane :: 0 <= i < |choices| && 0 <= lane < lanes ==>
      Count(choices[..i], lane) >= Count(choices[..i], choices[i]) - skew
      || Count(choices[..i], lane) >= |LaneNumbers(n, lanes, lane)|
  }

  /** sent[k - 1] is the payload numbered k; times[i] is the server's clock at the i-th arrival. */
  ghost function Striped(choices: seq<nat>, n: nat, lanes: nat, sent: seq<seq<Byte>>, times: seq<int>): (as_: seq<Arrival>)
    requires Interleaves(choices, n, lanes) && |sent| == n < MAX_NUMBER && |times| == |choices|
    ensures |as_| == |choices|
  {
    seq(|choices|, i requires 0 <= i < |choices| =>
      LaneLayout(n, lanes, choices[i]);
      CountMonotone(choices, i, choices[i]);
      var k := NumberAt(choices, n, lanes, i);
      Arrival(Numbered(k, sent[k - 1]), times[i]))
  }

  /** Before a lane's count has passed a value, some arrival had exactly that count. */
  lemma {:induction false} CountReached(choices: seq<nat>, lane: nat, c: nat) returns (i: nat)
    requires c < Count(choices, lane)
    ensures i < |choices| && choices[i] == lane && Count(choices[..i], lane) == c
  {
    var init := choices[..|choices| - 1];
    if c < Count(init, lane) {
      i := CountReached(init, lane, c);
      assert choices[..i] == init[..i];
    } else {
      i := |choices| - 1;
    }
  }

  /** Once a lane has delivered past the position of k, k has arrived. */
  lemma HasArrived(choices: seq<nat>, n: nat, lanes: nat, sent: seq<seq<Byte>>, times: seq<int>, i: nat, k: nat)
    requires Interleaves(choices, n, lanes) && |sent| == n < MAX_NUMBER && |times| == |choices|
    requires i <= |choices| && 1 <= k <= n
    requires Position(k, lanes) < Count(choices[..i], k % lanes)
    ensures k in Numbers(Striped(choices, n, lanes, sent, times)[..i])
  {
    var all := Striped(choices, n, lanes, sent, times);
    LaneLayout(n, lanes, k % lanes);
    var j := CountReached(choices[..i], k % lanes, Position(k, lanes));
    assert choices[..i][..j] == choices[..j];
    assert NumberAt(choices, n, lanes, j) == k;
    assert all[..i][j].packet.number == k;
  }

  /** At any arrival, every number at least (skew + 1) * lanes below it has already arrived. */
  lemma LateEnough(choices: seq<nat>, n: nat, lanes: nat, skew: nat, i: nat, k: nat)
    requires Interleaves(choices, n, lanes) && BoundedSkew(choices, n, lanes, skew) && i < |choices|
    requires 1 <= k && k + (skew + 1) * lanes <= NumberAt(choices, n, lanes, i)
    ensures k <= n && Position(k, lanes) < Count(choices[..i], k % lanes)
  {
    var t := NumberAt(choices, n, lanes, i);
    CountMonotone(choices, i, choices[i]);
    LaneLayout(n, lanes, choices[i]);
    PositionsApart(k, t, skew + 1, lanes);
    BelowLast(n, lanes, k, t, skew);
    LaneLayout(n, lanes, k % lanes);
  }

  lemma BelowLast(n: nat, lanes: nat, k: nat, t: nat, skew: nat)
    requires lanes > 0 && t <= n && k + (skew + 1) * lanes <= t
    ensures k <= n
  {
    ProductAtLeast(skew + 1, lanes);
  }

  /** Every arrival carries one of 1..n with its payload. */
  lemma StripedPackets(choices: seq<nat>, n: nat, lanes: nat, sent: seq<seq<Byte>>, times: seq<int>)
    requires Interleaves(choices, n, lanes) && |sent| == n < MAX_NUMBER && |times| == |choices|
    ensures forall i :: 0 <= i < |choices| ==>
              var p := Striped(choices, n, lanes, sent, times)[i].packet;
              1 <= p.number <= n && p.payload == sent[p.number - 1]
  {
    forall i | 0 <= i < |choices|
      ensures 1 <= NumberAt(choices, n, lanes, i) <= n
    {
      CountMonotone(choices, i, choices[i]);
      LaneLayout(n, lanes, choices[i]);
    }
  }

  /** Bounded skew between the lanes is bounded displacement at the server. */
  lemma StripedInWindow(cfg: Config, choices: seq<nat>, n: nat, lanes: nat, skew: nat,
                        sent: seq<seq<Byte>>, times: seq<int>)
    requires Interleaves(choices, n, lanes) && |sent| == n < MAX_NUMBER && |times| == |choices|
    requires BoundedSkew(choices, n, lanes, skew) && (skew + 1) * lanes <= cfg.Window()
    requires |choices| > 0 && choices[0] == 1 % lanes
    ensures InWindow(cfg, Striped(choices, n, lanes, sent, times))
    ensures Striped(choices, n, lanes, sent, times)[0].packet.number == 1
  {
    hide Interleaves, BoundedSkew;
    var all := Striped(choices, n, lanes, sent, times);
    StripedPackets(choices, n, lanes, sent, times);
    FirstNumber(choices, n, lanes);
    forall i, s: int | 0 <= i < |choices| && 1 <= s && s + cfg.Window() <= all[i].packet.number
      ensures s in Numbers(all[..i])
    {
      LateEnough(choices, n, lanes, skew, i, s);
      HasArrived(choices, n, lanes, sent, times, i, s);
    }
  }

  lemma FirstNumber(choices: seq<nat>, n: nat, lanes: nat)
    requires Interleaves(choices, n, lanes) && |choices| > 0 && choices[0] == 1 % lanes
    ensures n >= 1 && NumberAt(choices, n, lanes, 0) == 1
  {
    CountMonotone(choices, 0, choices[0]);
    LaneLayout(n, lanes, choices[0]);
    assert Position(1, lanes) == 0;
  }

  function Sequenced(sent: seq<seq<Byte>>): seq<Numbered>
    requires |sent| < MAX_NUMBER
  {
    seq(|sent|, k requires 0 <= k < |sent| => Numbered(k + 1, sent[k]))
  }

  lemma {:induction false} SameCopies(arrivals: seq<Arrival>, sent: seq<seq<Byte>>, k: U32)
    requires forall i :: 0 <= i < |arrivals| ==>
               var p := arrivals[i].packet; 1 <= p.number <= |sent| && p.payload == sent[p.number - 1]
    requires k in Numbers(arrivals)
    ensures 1 <= k <= |sent| && FirstCopy(arrivals, k) == sent[k - 1]
    decreases |arrivals|
  {
    var init, last := arrivals[..|arrivals| - 1], arrivals[|arrivals| - 1];
    assert arrivals == init + [last];
    NumbersSnoc(init, last);
    if k in Numbers(init) {
      SameCopies(init, sent, k);
    }
  }

  /** Complete over all of 1..n means everything came out, in order. */
  lemma AllThrough(arrivals: seq<Arrival>, sent: seq<seq<Byte>>, w: World)
    requires Complete(1, arrivals, w) && |sent| < MAX_NUMBER
    requires forall i :: 0 <= i < |arrivals| ==>
               var p := arrivals[i].packet; 1 <= p.number <= |sent| && p.payload == sent[p.number - 1]
    requires forall k :: 1 <= k <= |sent| ==> k in Numbers(arrivals)
    ensures w.ledger.delivered == Sequenced(sent) && w.buffer.pending == map[]
  {
    forall k | k in Numbers(arrivals) ensures 1 <= k <= |sent| && FirstCopy(arrivals, k) == sent[k - 1] {
      SameCopies(arrivals, sent, k);
    }
    var e: nat := w.buffer.expected;
    assert e > |sent|;
    var above: nat := |sent| + 1;
    assert above < e ==> above in Numbers(arrivals);
    assert e == above;
    forall k | 0 <= k < |sent| ensures w.ledger.delivered[k] == Sequenced(sent)[k] {
      assert w.ledger.delivered[(k + 1) - 1] == Numbered(k + 1, FirstCopy(arrivals, k + 1));
    }
  }

  /** Striping followed by reordering is the identity: with lanes that are FIFOs and stay within the
      skew, packets in time and successful writes, the backend gets 1..n in order, whatever the
      interleaving of the lanes. */
  lemma StripingThenReordering(cfg: Config, choices: seq<nat>, n: nat, lanes: nat, skew: nat,
                               sent: seq<seq<Byte>>, times: seq<int>, writes: Writes)
    requires Interleaves(choices, n, lanes) && |sent| == n < MAX_NUMBER && |times| == |choices|
    requires BoundedSkew(choices, n, lanes, skew)
    requires (skew + 1) * lanes <= cfg.Window() && WindowFits(cfg)
    requires |choices| > 0 ==> choices[0] == 1 % lanes
    requires AllSucceed(writes) && Timely(cfg, Striped(choices, n, lanes, sent, times), writes)
    ensures var w := Run(cfg, Striped(choices, n, lanes, sent, times), writes);
            w.ledger.delivered == Sequenced(sent) && w.buffer.pending == map[]
  {
    hide Complete, Timely, InWindow, Striped, Interleaves, BoundedSkew, Numbers, AllSucceed;
    var all := Striped(choices, n, lanes, sent, times);
    EveryNumberArrives(choices, n, lanes, sent, times);
    if |choices| == 0 {
      assert n == 0;
    } else {
      StripedPackets(choices, n, lanes, sent, times);
      StripedInWindow(cfg, choices, n, lanes, skew, sent, times);
      ReorderingIsComplete(cfg, all, |all|, writes);
      assert all[..|all|] == all;
      AllThrough(all, sent, Run(cfg, all, writes));
    }
  }

  lemma EveryNumberArrives(choices: seq<nat>, n: nat, lanes: nat, sent: seq<seq<Byte>>, times: seq<int>)
    requires Interleaves(choices, n, lanes) && |sent| == n < MAX_NUMBER && |times| == |choices|
    ensures forall k :: 1 <= k <= n ==> k in Numbers(Striped(choices, n, lanes, sent, times))
    ensures |choices| == 0 ==> n == 0
  {
    var all := Striped(choices, n, lanes, sent, times);
    assert choices[..|choices|] == choices && all[..|all|] == all;
    forall k: int | 1 <= k <= n ensures k in Numbers(all) {
      LaneLayout(n, lanes, k % lanes);
      HasArrived(choices, n, lanes, sent, times, |choices|, k);
    }
    assert n > 0 ==> n in Numbers(all);
  }
}

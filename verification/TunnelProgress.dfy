/** The upstream path never gets stuck: whatever has happened, the next datagram is taken in, and every batch and every
    read can go on until each backend has all its packets. */
module TunnelProgress {
  import opened Bytes
  import opened Packet
  import opened Framing
  import opened ServerFraming
  import opened Tunnel
  import opened TunnelSafety

  /** A datagram is cut to the largest size and otherwise left alone. */
  lemma CutMeans(datagram: seq<Byte>, max: nat)
    ensures Cut(datagram, max) <= datagram
    ensures |Cut(datagram, max)| == if |datagram| <= max then |datagram| else max
  {
  }

  /** Which steps a reachable state allows: any datagram of any session may come, any part of a ring may be written,
      any part of what is on the wire may arrive. */
  lemma StepsPossible(u: Setup, s: State, a: Action)
    requires Sane(u) && Inv(u, s)
    ensures Apply(u, s, a).Some? <==>
            match a
            case Input(_, _) => true
            case Flush(lane, frames) => lane < u.lanes && frames <= |s.lanes[lane].queue|
            case Traffic(lane, bytes, _) => lane < u.lanes && bytes <= |s.lanes[lane].stream|
    ensures a.Input? ==> Apply(u, s, a).value.fed == s.fed + [Datagram(a.session, Cut(a.datagram, u.maxPacket))]
  {
    hide LaneInv, Sent, FeedServer, ParseServer, Send, TooLarge, Carry;
    if a.Input? {
      CutMeans(a.datagram, u.maxPacket);
      SendFits(u, s.fed, Datagram(a.session, Cut(a.datagram, u.maxPacket)));
    }
  }

  /** One action more. */
  lemma Further(u: Setup, actions: seq<Action>, a: Action) returns (longer: seq<Action>)
    requires Run(u, actions).Some? && Apply(u, Run(u, actions).value, a).Some?
    ensures longer == actions + [a] && Run(u, longer) == Apply(u, Run(u, actions).value, a)
    ensures Reads(u, longer) == Reads(u, actions) + if a.Input? then [Datagram(a.session, Cut(a.datagram, u.maxPacket))] else []
  {
    longer := actions + [a];
    assert longer[..|actions|] == actions;
  }

  /** Neither a batch nor a read concerns any other lane, or what has been read from the peers. */
  lemma LaneStep(u: Setup, s: State, a: Action)
    requires !a.Input? && Apply(u, s, a).Some?
    ensures var t := Apply(u, s, a).value;
            && t.fed == s.fed && |t.lanes| == |s.lanes| && a.lane < |s.lanes|
            && forall l :: 0 <= l < |s.lanes| && l != a.lane ==> t.lanes[l] == s.lanes[l]
    ensures a.Flush? && a.frames == |s.lanes[a.lane].queue| ==> Apply(u, s, a).value.lanes[a.lane].queue == []
    ensures a.Traffic? && a.bytes == |s.lanes[a.lane].stream| ==>
              && Apply(u, s, a).value.lanes[a.lane].stream == []
              && Apply(u, s, a).value.lanes[a.lane].queue == s.lanes[a.lane].queue
  {
    hide FeedServer, ParseServer, Carry, Flatten;
  }

  /** One lane's ring written out and all its bytes delivered. */
  lemma LaneFinishes(u: Setup, actions: seq<Action>, l: nat, now: int) returns (longer: seq<Action>)
    requires Sane(u) && Run(u, actions).Some? && Harmless(u, Reads(u, actions)) && l < u.lanes
    ensures actions <= longer && Run(u, longer).Some? && Reads(u, longer) == Reads(u, actions)
    ensures forall i :: |actions| <= i < |longer| ==> !longer[i].Input?
    ensures var s, t := Run(u, actions).value, Run(u, longer).value;
            && t.fed == s.fed && |t.lanes| == |s.lanes| == u.lanes && Idle(t.lanes[l])
            && forall k :: 0 <= k < u.lanes && k != l ==> t.lanes[k] == s.lanes[k]
  {
    hide Run, Reads, Sane, Harmless, Apply, LaneInv, Sent;
    RunKeeps(u, actions);
    var s := Run(u, actions).value;
    var a := Flush(l, |s.lanes[l].queue|);
    StepsPossible(u, s, a);
    LaneStep(u, s, a);
    longer := Further(u, actions, a);
    assert Reads(u, longer) == Reads(u, actions);
    RunKeeps(u, longer);
    var t := Run(u, longer).value;
    var b := Traffic(l, |t.lanes[l].stream|, now);
    StepsPossible(u, t, b);
    LaneStep(u, t, b);
    longer := Further(u, longer, b);
  }

  lemma {:induction false} LanesFinish(u: Setup, actions: seq<Action>, n: nat, now: int) returns (longer: seq<Action>)
    requires Sane(u) && Run(u, actions).Some? && Harmless(u, Reads(u, actions)) && n <= u.lanes
    ensures actions <= longer && Run(u, longer).Some? && Reads(u, longer) == Reads(u, actions)
    ensures forall i :: |actions| <= i < |longer| ==> !longer[i].Input?
    ensures var t := Run(u, longer).value; |t.lanes| == u.lanes && forall l :: 0 <= l < n ==> Idle(t.lanes[l])
  {
    hide Run, Reads, Sane, Harmless, Idle;
    if n == 0 {
      longer := actions;
      RunKeeps(u, actions);
    } else {
      var before := LanesFinish(u, actions, n - 1, now);
      longer := LaneFinishes(u, before, n - 1, now);
    }
  }

  /** From any moment of any run without striping, and without another datagram coming in, the path can be run empty;
      then every session's backend has received all the session's packets. */
  lemma EverythingArrives(u: Setup, actions: seq<Action>, now: int) returns (longer: seq<Action>)
    requires Sane(u) && !u.striped && Run(u, actions).Some? && Harmless(u, Reads(u, actions))
    ensures actions <= longer && Run(u, longer).Some?
    ensures forall i :: |actions| <= i < |longer| ==> !longer[i].Input?
    ensures forall session: U32 :: Received(u, Run(u, longer).value, session) == Inputs(Reads(u, actions), session)
  {
    hide Run, Reads, Sane, Harmless, Idle, Received, Inputs;
    longer := LanesFinish(u, actions, u.lanes, now);
    SaneLanes(u);
    forall session: U32 ensures Received(u, Run(u, longer).value, session) == Inputs(Reads(u, actions), session) {
      EndToEnd(u, longer, session);
    }
  }

  lemma SaneLanes(u: Setup)
    requires Sane(u)
    ensures u.lanes > 0
  {
  }
}

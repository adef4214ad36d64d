/** What every interleaving of clients, control loops and connections keeps. */
module LanesSafety {
  import opened Bytes
  import opened Control
  import opened Lanes

  /** Changing one link without closing it or changing its context. */
  lemma LinkKeeps(counts: LaneCounts, s: State, c: Conn, link: Link)
    requires Inv(counts, s) && c in s.links && LinkInv(counts, |s.writers|, link)
    requires link.client == s.links[c].client && link.lane == s.links[c].lane
    requires s.links[c].open ==> link.open
    requires s.links[c].ctxLane.Some? ==> link.ctxLane == s.links[c].ctxLane
    ensures Inv(counts, s.(links := s.links[c := link]))
  {
  }

  lemma ServeRestKeeps(counts: LaneCounts, s: State, c: Conn)
    requires Inv(counts, s) && c in s.links && s.links[c].work.Rest? && StepServe(s, c).Some?
    ensures Inv(counts, StepServe(s, c).value)
  {
    hide Inv;
    LinkFacts(counts, s, c);
    LinkKeeps(counts, s, c, StepServe(s, c).value.links[c]);
  }

  lemma LinkFacts(counts: LaneCounts, s: State, c: Conn)
    requires Inv(counts, s) && c in s.links
    ensures |s.writers| > 0 && LinkInv(counts, |s.writers|, s.links[c])
  {
  }

  lemma WriterKeeps(counts: LaneCounts, s: State, c: Conn, lane: nat)
    requires Inv(counts, s) && c in s.links && s.links[c].open && s.links[c].ctxLane == Some(lane) && lane < |s.writers|
    ensures Inv(counts, s.(writers := s.writers[lane := Some(c)]))
  {
  }

  lemma ServeAttachKeeps(counts: LaneCounts, s: State, c: Conn)
    requires Inv(counts, s) && c in s.links && s.links[c].work.Attach? && StepServe(s, c).Some?
    ensures Inv(counts, StepServe(s, c).value)
  {
    hide Inv;
    LinkFacts(counts, s, c);
    var lane := s.links[c].work.lane;
    WriterKeeps(counts, s, c, lane);
    var t := s.(writers := s.writers[lane := Some(c)]);
    LinkKeeps(counts, t, c, StepServe(s, c).value.links[c]);
  }

  lemma MapKeeps(counts: LaneCounts, s: State, id: U32, lane: nat)
    requires Inv(counts, s) && lane == id % |s.writers|
    ensures Inv(counts, s.(sessionLane := s.sessionLane[id := lane]))
  {
  }

  /** A session about to be stored belongs to the lane the server's hash names. */
  lemma StoredAgrees(counts: LaneCounts, laneCount: nat, link: Link)
    requires CountsAgree(counts, laneCount) && LinkInv(counts, laneCount, link)
    requires link.work.Store? && |link.work.ids| > 0
    ensures laneCount > 0 && link.work.lane == link.work.ids[0] % laneCount
  {
    assert CutAgreesFor(counts(link.client), link.work.ids[0]);
  }

  lemma ServeStoreKeeps(counts: LaneCounts, s: State, c: Conn)
    requires CountsAgree(counts, |s.writers|)
    requires Inv(counts, s) && c in s.links && s.links[c].work.Store? && StepServe(s, c).Some?
    ensures Inv(counts, StepServe(s, c).value)
  {
    hide Inv;
    LinkFacts(counts, s, c);
    var link := s.links[c];
    if |link.work.ids| == 0 {
      LinkKeeps(counts, s, c, link.(work := Rest));
    } else {
      StoredAgrees(counts, |s.writers|, link);
      MapKeeps(counts, s, link.work.ids[0], link.work.lane);
      var t := s.(sessionLane := s.sessionLane[link.work.ids[0] := link.work.lane]);
      LinkKeeps(counts, t, c, StepServe(s, c).value.links[c]);
    }
  }

  lemma ServeKeeps(counts: LaneCounts, s: State, c: Conn)
    requires CountsAgree(counts, |s.writers|)
    requires Inv(counts, s) && StepServe(s, c).Some?
    ensures Inv(counts, StepServe(s, c).value)
  {
    hide Inv;
    if s.links[c].work.Rest? {
      ServeRestKeeps(counts, s, c);
    } else if s.links[c].work.Attach? {
      ServeAttachKeeps(counts, s, c);
    } else {
      ServeStoreKeeps(counts, s, c);
    }
  }

  lemma CloseKeeps(counts: LaneCounts, s: State, c: Conn)
    requires Inv(counts, s) && StepClose(s, c).Some?
    ensures Inv(counts, StepClose(s, c).value)
  {
  }

  lemma QueueKeeps(counts: LaneCounts, s: State, k: (Client, nat), lane: ClientLane)
    requires Inv(counts, s)
    requires lane.queue == [] || AllFor(lane.queue, counts(k.0), k.1)
    requires lane.conn.Some? ==> Carries(s, lane.conn.value, k)
    ensures Inv(counts, s.(lanes := s.lanes[k := lane]))
  {
  }

  lemma LaneFacts(counts: LaneCounts, s: State, k: (Client, nat))
    requires Inv(counts, s)
    ensures var lane := LaneOf(s, k);
            && (lane.queue == [] || AllFor(lane.queue, counts(k.0), k.1))
            && (lane.conn.Some? ==> Carries(s, lane.conn.value, k))
  {
  }

  lemma SendKeeps(counts: LaneCounts, s: State, k: (Client, nat), subtype: Byte, ids: seq<U32>)
    requires Inv(counts, s) && AllFor(ids, counts(k.0), k.1)
    ensures Inv(counts, SendControl(counts, s, k, subtype, ids))
  {
    hide Inv;
    LaneFacts(counts, s, k);
    var lane := LaneOf(s, k);
    if lane.conn.Some? {
      LinkFacts(counts, s, lane.conn.value);
      var t := SendControl(counts, s, k, subtype, ids);
      if t != s {
        LinkKeeps(counts, s, lane.conn.value, t.links[lane.conn.value]);
      }
    }
  }

  lemma AnnounceKeeps(counts: LaneCounts, s: State, client: Client, session: U32)
    requires Inv(counts, s) && Apply(counts, s, Announce(client, session)).Some?
    ensures Inv(counts, Apply(counts, s, Announce(client, session)).value)
  {
    hide Inv;
    var k := (client, ClientChoice(session, counts(client)));
    LaneFacts(counts, s, k);
    var lane := LaneOf(s, k);
    QueueKeeps(counts, s, k, lane.(queue := lane.queue + [session]));
  }

  lemma NewLinkKeeps(counts: LaneCounts, s: State, c: Conn, link: Link)
    requires Inv(counts, s) && c !in s.links && LinkInv(counts, |s.writers|, link)
    ensures Inv(counts, s.(links := s.links[c := link]))
  {
  }

  lemma ConnectKeeps(counts: LaneCounts, s: State, client: Client, lane: nat, c: Conn)
    requires Inv(counts, s) && Apply(counts, s, Connect(client, lane, c)).Some?
    ensures Inv(counts, Apply(counts, s, Connect(client, lane, c)).value)
  {
    hide Inv;
    var k, link := (client, lane), Link(client, lane, {}, [], true, None, Rest);
    NewLinkKeeps(counts, s, c, link);
    LaneFacts(counts, s, k);
    QueueKeeps(counts, s.(links := s.links[c := link]), k, LaneOf(s, k).(conn := Some(c)));
  }

  lemma LoseKeeps(counts: LaneCounts, s: State, client: Client, lane: nat)
    requires Inv(counts, s)
    ensures Inv(counts, Apply(counts, s, Lose(client, lane)).value)
  {
    hide Inv;
    LaneFacts(counts, s, (client, lane));
    QueueKeeps(counts, s, (client, lane), LaneOf(s, (client, lane)).(conn := None));
  }

  lemma TakeKeeps(counts: LaneCounts, s: State, c: Conn)
    requires Inv(counts, s) && Apply(counts, s, TakeSession(c)).Some?
    ensures Inv(counts, Apply(counts, s, TakeSession(c)).value)
  {
    hide Inv;
    var k := (s.links[c].client, s.links[c].lane);
    var lane := LaneOf(s, k);
    LaneFacts(counts, s, k);
    LinkFacts(counts, s, c);
    QueueKeeps(counts, s, k, lane.(queue := lane.queue[1..]));
    var t := s.(lanes := s.lanes[k := lane.(queue := lane.queue[1..])]);
    LinkKeeps(counts, t, c, s.links[c].(pending := s.links[c].pending + {lane.queue[0]}));
  }

  lemma FlushKeeps(counts: LaneCounts, s: State, c: Conn, ids: seq<U32>)
    requires Inv(counts, s) && Apply(counts, s, FlushPending(c, ids)).Some?
    ensures Inv(counts, Apply(counts, s, FlushPending(c, ids)).value)
  {
    hide Inv;
    var k := (s.links[c].client, s.links[c].lane);
    LinkFacts(counts, s, c);
    LinkKeeps(counts, s, c, s.links[c].(pending := {}));
    forall i | 0 <= i < |ids| ensures ids[i] in s.links[c].pending {
      assert ids[i] in (set j | 0 <= j < |ids| :: ids[j]);
    }
    SendKeeps(counts, s.(links := s.links[c := s.links[c].(pending := {})]), k, SUBTYPE_REGISTER, ids);
  }

  lemma ExpireKeeps(counts: LaneCounts, s: State, session: U32)
    requires Inv(counts, s)
    ensures Inv(counts, s.(sessionLane := s.sessionLane - {session}))
  {
  }

  lemma ApplyKeeps(counts: LaneCounts, s: State, a: Action)
    requires Inv(counts, s) && CountsAgree(counts, |s.writers|) && Apply(counts, s, a).Some?
    ensures Inv(counts, Apply(counts, s, a).value)
  {
    hide Inv, StepServe, StepClose, SendControl, CountsAgree;
    match a
    case Announce(client, session) => AnnounceKeeps(counts, s, client, session);
    case Connect(client, lane, c) => ConnectKeeps(counts, s, client, lane, c);
    case Lose(client, lane) => LoseKeeps(counts, s, client, lane);
    case SendHello(c) =>
      LinkFacts(counts, s, c);
      SendKeeps(counts, s, (s.links[c].client, s.links[c].lane), SUBTYPE_HELLO, []);
    case SendHeartbeat(c) =>
      LinkFacts(counts, s, c);
      SendKeeps(counts, s, (s.links[c].client, s.links[c].lane), SUBTYPE_HEARTBEAT, []);
    case RegisterAll(client, lane, ids) =>
      SendKeeps(counts, s, (client, lane), SUBTYPE_REGISTER, ids);
    case TakeSession(c) => TakeKeeps(counts, s, c);
    case FlushPending(c, ids) => FlushKeeps(counts, s, c, ids);
    case Discard(c) =>
      LinkFacts(counts, s, c);
      LinkKeeps(counts, s, c, s.links[c].(wire := s.links[c].wire[1..]));
    case Serve(c) => ServeKeeps(counts, s, c);
    case OnClose(c) => CloseKeeps(counts, s, c);
    case Expire(session) => ExpireKeeps(counts, s, session);
  }

  lemma InitialInv(counts: LaneCounts, laneCount: nat)
    requires laneCount > 0
    ensures Inv(counts, Initial(laneCount))
  {
  }

  lemma {:induction false} RunKeeps(counts: LaneCounts, s: State, actions: seq<Action>)
    requires Inv(counts, s) && CountsAgree(counts, |s.writers|) && Run(counts, s, actions).Some?
    ensures Inv(counts, Run(counts, s, actions).value)
    ensures |Run(counts, s, actions).value.writers| == |s.writers|
  {
    hide Inv, Apply, CountsAgree;
    if |actions| > 0 {
      RunKeeps(counts, s, actions[..|actions| - 1]);
      var t := Run(counts, s, actions[..|actions| - 1]).value;
      ApplyKeeps(counts, t, actions[|actions| - 1]);
      WritersConstant(counts, t, actions[|actions| - 1]);
    }
  }

  lemma WritersConstant(counts: LaneCounts, s: State, a: Action)
    requires Apply(counts, s, a).Some?
    ensures |Apply(counts, s, a).value.writers| == |s.writers|
  {
  }
}

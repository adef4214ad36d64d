/** What the lanes protocol guarantees in every reachable state, and what breaks it. */
module LanesResults {
  import opened Bytes
  import opened Control
  import opened Division
  import opened Lanes
  import opened LanesSafety

  ghost predicate Reaches(counts: LaneCounts, laneCount: nat, actions: seq<Action>) {
    laneCount > 0 && CountsFit(counts) && Run(counts, Initial(laneCount), actions).Some?
  }

  function After(counts: LaneCounts, laneCount: nat, actions: seq<Action>): State
    requires Reaches(counts, laneCount, actions)
  {
    Run(counts, Initial(laneCount), actions).value
  }

  lemma FitAgrees(counts: LaneCounts, laneCount: nat)
    requires CountsFit(counts)
    ensures CountsAgree(counts, laneCount)
  {
    forall client, session: U32 ensures CutAgreesFor(counts(client), session) {
      CutNothing(counts(client), session);
    }
  }

  lemma ReachableInv(counts: LaneCounts, laneCount: nat, actions: seq<Action>)
    requires Reaches(counts, laneCount, actions)
    ensures var s := After(counts, laneCount, actions); Inv(counts, s) && |s.writers| == laneCount
  {
    InitialInv(counts, laneCount);
    FitAgrees(counts, laneCount);
    RunKeeps(counts, Initial(laneCount), actions);
  }

  /** The server sends a session's traffic on the lane the hash names, registered or not; that is the
      lane a client with as many lanes uses for it. */
  lemma LaneAgreesWithHash(counts: LaneCounts, laneCount: nat, actions: seq<Action>, session: U32)
    requires Reaches(counts, laneCount, actions)
    ensures var s := After(counts, laneCount, actions);
            && |s.writers| == laneCount
            && LaneForSession(s, session) == session % laneCount
            && (forall client :: counts(client) == laneCount ==>
                  LaneForSession(s, session) == ClientChoice(session, counts(client)))
  {
    ReachableInv(counts, laneCount, actions);
  }

  /** Every id in a register queue, a pending set or a frame on its way belongs to the lane it is with. */
  lemma IdsBelong(counts: LaneCounts, laneCount: nat, actions: seq<Action>)
    requires Reaches(counts, laneCount, actions)
    ensures var s := After(counts, laneCount, actions);
            && (forall k, i :: k in s.lanes && 0 <= i < |s.lanes[k].queue| ==>
                  counts(k.0) > 0 && ClientChoice(s.lanes[k].queue[i], counts(k.0)) == k.1)
            && (forall c, id :: c in s.links && id in s.links[c].pending ==>
                  counts(s.links[c].client) > 0 && ClientChoice(id, counts(s.links[c].client)) == s.links[c].lane)
            && (forall c, i :: c in s.links && 0 <= i < |s.links[c].wire| ==>
                  s.links[c].wire[i].laneId == s.links[c].lane && s.links[c].wire[i].laneCount == counts(s.links[c].client)
                  && AllFor(s.links[c].wire[i].sessions, counts(s.links[c].client), s.links[c].lane))
  {
    ReachableInv(counts, laneCount, actions);
    var s := After(counts, laneCount, actions);
    forall c, id | c in s.links && id in s.links[c].pending
      ensures counts(s.links[c].client) > 0 && ClientChoice(id, counts(s.links[c].client)) == s.links[c].lane
    {
      LinkFacts(counts, s, c);
    }
  }

  /** A lane writer refers only to an open connection, dialled for that lane, and no other writer
      refers to the same one. */
  lemma WritersOpen(counts: LaneCounts, laneCount: nat, actions: seq<Action>, l: nat)
    requires Reaches(counts, laneCount, actions)
    requires l < |After(counts, laneCount, actions).writers| && After(counts, laneCount, actions).writers[l].Some?
    ensures var s := After(counts, laneCount, actions);
            var c := s.writers[l].value;
            && c in s.links && s.links[c].open && s.links[c].lane == l
            && (forall m :: 0 <= m < |s.writers| && s.writers[m] == Some(c) ==> m == l)
  {
    ReachableInv(counts, laneCount, actions);
    var s := After(counts, laneCount, actions);
    LinkFacts(counts, s, s.writers[l].value);
  }

  /** After OnClose no writer refers to the connection; writers that had moved on to another connection,
      such as a newer one of the same lane, keep it. */
  lemma LateCloseHarmless(counts: LaneCounts, laneCount: nat, actions: seq<Action>, c: Conn)
    requires Reaches(counts, laneCount, actions) && StepClose(After(counts, laneCount, actions), c).Some?
    ensures var s := After(counts, laneCount, actions);
            var t := StepClose(s, c).value;
            && |t.writers| == |s.writers|
            && forall l :: 0 <= l < |s.writers| ==> t.writers[l] == if s.writers[l] == Some(c) then None else s.writers[l]
  {
    ReachableInv(counts, laneCount, actions);
    var s := After(counts, laneCount, actions);
    LinkFacts(counts, s, c);
  }

  /** Any later hello, register or heartbeat from a live connection of a client with the right number of
      lanes makes it its lane's connection again, whatever happened to the lane before. */
  lemma ControlFrameRestores(counts: LaneCounts, laneCount: nat, actions: seq<Action>, c: Conn)
    requires Reaches(counts, laneCount, actions)
    requires var s := After(counts, laneCount, actions);
             && c in s.links && s.links[c].open && s.links[c].work.Rest? && |s.links[c].wire| > 0
             && s.links[c].wire[0].subtype in {SUBTYPE_HELLO, SUBTYPE_REGISTER, SUBTYPE_HEARTBEAT}
             && counts(s.links[c].client) == laneCount
    ensures var s := After(counts, laneCount, actions);
            var t := StepServe(s, c);
            && t.Some? && StepServe(t.value, c).Some?
            && s.links[c].lane < |StepServe(t.value, c).value.writers|
            && StepServe(t.value, c).value.writers[s.links[c].lane] == Some(c)
  {
    hide Inv, Run;
    ReachableInv(counts, laneCount, actions);
    var s := After(counts, laneCount, actions);
    LinkFacts(counts, s, c);
  }

  // Lane counts above 16 bits.

  /** In every run with a server of this many lanes, its lane for any session is the one the hash names. */
  ghost predicate HashAlwaysNamed(counts: LaneCounts, laneCount: nat) {
    forall actions, session: U32 ::
      Run(counts, Initial(laneCount), actions).Some? ==> Named(Run(counts, Initial(laneCount), actions).value, session)
  }

  predicate Named(s: State, session: U32) {
    |s.writers| > 0 && LaneForSession(s, session) == session % |s.writers|
  }

  /** Whatever the lane counts of the clients: the server names the hash's lane in every run exactly when every
      client it listens to, that is, every client whose count is the server's modulo 2^16, has a count that
      fits 16 bits, or the server's count divides 2^16. */
  lemma HashExactly(counts: LaneCounts, laneCount: nat)
    requires laneCount > 0 && forall client :: 0 < counts(client) <= 0xFFFF_FFFF
    ensures HashAlwaysNamed(counts, laneCount) <==>
            forall client :: Cut(counts(client)) == laneCount ==> counts(client) <= 0xFFFF || 0x1_0000 % laneCount == 0
  {
    hide CutAgrees, HashAlwaysNamed, Run;
    HashByCuts(counts, laneCount);
    forall client | Cut(counts(client)) == laneCount
      ensures CutAgrees(counts(client)) <==> counts(client) <= 0xFFFF || 0x1_0000 % laneCount == 0
    {
      CutHarmlessExactly(counts(client));
    }
  }

  lemma HashByCuts(counts: LaneCounts, laneCount: nat)
    requires laneCount > 0
    ensures HashAlwaysNamed(counts, laneCount) <==> CountsAgree(counts, laneCount)
  {
    hide Run, CutAgreesFor;
    if CountsAgree(counts, laneCount) {
      forall actions, session: U32 | Run(counts, Initial(laneCount), actions).Some?
        ensures Named(Run(counts, Initial(laneCount), actions).value, session)
      {
        InitialInv(counts, laneCount);
        RunKeeps(counts, Initial(laneCount), actions);
      }
    } else {
      var client, session: U32 :| Cut(counts(client)) == laneCount && !CutAgreesFor(counts(client), session);
      var actions := Misnamed(counts, laneCount, client, session);
    }
  }

  /** A client whose cut lane number disagrees with the hash connects, registers the session, and is believed. */
  lemma Misnamed(counts: LaneCounts, laneCount: nat, client: Client, session: U32) returns (actions: seq<Action>)
    requires laneCount > 0 && Cut(counts(client)) == laneCount && !CutAgreesFor(counts(client), session)
    ensures Run(counts, Initial(laneCount), actions).Some?
    ensures !Named(Run(counts, Initial(laneCount), actions).value, session)
  {
    hide Run, Apply, Cut;
    var lane := session % counts(client);
    var ctrl := LaneControl(SUBTYPE_REGISTER, Cut(lane), Cut(counts(client)), [session]);
    var s := Initial(laneCount);
    RunNone(counts, s);
    var s1 := ConnectStep(counts, s, client, lane);
    actions := RunOne(counts, s, [], Connect(client, lane, 0), s, s1);
    var s2 := RegisterStep(counts, s1, client, lane, session);
    actions := RunOne(counts, s, actions, RegisterAll(client, lane, [session]), s1, s2);
    var s3 := AdmitStep(counts, s2, ctrl);
    actions := RunOne(counts, s, actions, Serve(0), s2, s3);
    var s4 := AttachStep(counts, s3, Cut(lane), session);
    actions := RunOne(counts, s, actions, Serve(0), s3, s4);
    var s5 := StoreStep(counts, s4, Cut(lane), session);
    actions := RunOne(counts, s, actions, Serve(0), s4, s5);
  }

  lemma RunNone(counts: LaneCounts, s: State)
    ensures Run(counts, s, []) == Some(s)
  {
  }

  lemma RunOne(counts: LaneCounts, s: State, actions: seq<Action>, a: Action, t: State, u: State)
    returns (longer: seq<Action>)
    requires Run(counts, s, actions) == Some(t) && Apply(counts, t, a) == Some(u)
    ensures longer == actions + [a] && Run(counts, s, longer) == Some(u)
  {
    longer := actions + [a];
    assert longer[..|actions|] == actions;
  }

  lemma ConnectStep(counts: LaneCounts, s: State, client: Client, lane: nat) returns (t: State)
    requires s.lanes == map[] && s.links == map[] && lane < counts(client)
    ensures Apply(counts, s, Connect(client, lane, 0)) == Some(t)
    ensures LaneOf(t, (client, lane)).conn == Some(0) && t.writers == s.writers
    ensures 0 in t.links && t.links[0] == Link(client, lane, {}, [], true, None, Rest)
  {
    t := Apply(counts, s, Connect(client, lane, 0)).value;
  }

  lemma RegisterStep(counts: LaneCounts, s: State, client: Client, lane: nat, session: U32) returns (t: State)
    requires LaneOf(s, (client, lane)).conn == Some(0)
    requires 0 in s.links && s.links[0] == Link(client, lane, {}, [], true, None, Rest)
    requires counts(client) > 0 && lane == session % counts(client) && Cut(lane) < Cut(counts(client))
    ensures Apply(counts, s, RegisterAll(client, lane, [session])) == Some(t) && t.writers == s.writers
    ensures 0 in t.links && t.links[0].open && t.links[0].work.Rest? && t.links[0].ctxLane == None
    ensures t.links[0].wire == [LaneControl(SUBTYPE_REGISTER, Cut(lane), Cut(counts(client)), [session])]
  {
    hide Cut, LaneOf;
    t := Apply(counts, s, RegisterAll(client, lane, [session])).value;
  }

  lemma AdmitStep(counts: LaneCounts, s: State, ctrl: LaneControl) returns (t: State)
    requires 0 in s.links && s.links[0].open && s.links[0].work.Rest? && s.links[0].ctxLane == None
    requires s.links[0].wire == [ctrl] && ctrl.subtype == SUBTYPE_REGISTER
    requires ctrl.laneId < ctrl.laneCount == |s.writers|
    ensures Apply(counts, s, Serve(0)) == Some(t) && t.writers == s.writers
    ensures 0 in t.links && t.links[0].open && t.links[0].work == Attach(ctrl.laneId, ctrl.sessions)
  {
    t := Apply(counts, s, Serve(0)).value;
  }

  lemma AttachStep(counts: LaneCounts, s: State, lane: nat, session: U32) returns (t: State)
    requires 0 in s.links && s.links[0].open && s.links[0].work == Attach(lane, [session]) && lane < |s.writers|
    ensures Apply(counts, s, Serve(0)) == Some(t) && |t.writers| == |s.writers|
    ensures 0 in t.links && t.links[0].open && t.links[0].work == Store(lane, [session])
  {
    t := Apply(counts, s, Serve(0)).value;
  }

  lemma StoreStep(counts: LaneCounts, s: State, lane: nat, session: U32) returns (t: State)
    requires 0 in s.links && s.links[0].open && s.links[0].work == Store(lane, [session]) && lane < |s.writers|
    ensures Apply(counts, s, Serve(0)) == Some(t) && t.writers == s.writers
    ensures session in t.sessionLane && t.sessionLane[session] == lane
  {
    t := Apply(counts, s, Serve(0)).value;
  }

  /** Cutting lane number and lane count to 16 bits is harmless exactly when the count fits, or what is
      left of it is 0 (nothing is ever sent) or divides 2^16. */
  lemma CutHarmlessExactly(n: nat)
    requires 0 < n <= 0xFFFF_FFFF
    ensures CutAgrees(n) <==> n <= 0xFFFF || n % 0x1_0000 == 0 || 0x1_0000 % (n % 0x1_0000) == 0
  {
    hide CutAgreesFor;
    if n <= 0xFFFF || n % 0x1_0000 == 0 {
      forall session: U32 ensures CutAgreesFor(n, session) {
        CutNothing(n, session);
      }
    } else if 0x1_0000 % (n % 0x1_0000) == 0 {
      forall session: U32 ensures CutAgreesFor(n, session) {
        CutAgreesByDivision(n, session);
      }
    } else {
      CutDisagrees(n);
    }
  }

  lemma CutNothing(n: nat, session: U32)
    requires 0 < n <= 0xFFFF || n % 0x1_0000 == 0
    ensures CutAgreesFor(n, session)
  {
    if n % 0x1_0000 != 0 {
      QuotientUnique(n, 0x1_0000, 0, n);
      DivModIdentity(session, n);
      QuotientUnique(session % n, 0x1_0000, 0, session % n);
    }
  }

  lemma CutAgreesByDivision(n: nat, session: U32)
    requires n > 0 && n % 0x1_0000 > 0 && 0x1_0000 % (n % 0x1_0000) == 0
    ensures CutAgreesFor(n, session)
  {
    if session % n % 0x1_0000 < n % 0x1_0000 {
      CutDivides(n, session);
    }
  }

  /** Session 2^16: its lane number is cut to 0, but 2^16 is not a multiple of the cut lane count. */
  lemma CutDisagrees(n: nat)
    requires n > 0xFFFF && n % 0x1_0000 != 0 && 0x1_0000 % (n % 0x1_0000) != 0
    ensures !CutAgreesFor(n, 0x1_0000)
  {
    assert n != 0x1_0000;
    QuotientUnique(0x1_0000, n, 0, 0x1_0000);
    QuotientUnique(0x1_0000, 0x1_0000, 1, 0);
  }

  lemma CutDivides(n: nat, session: U32)
    requires n > 0 && n % 0x1_0000 > 0 && 0x1_0000 % (n % 0x1_0000) == 0
    requires session % n % 0x1_0000 < n % 0x1_0000
    ensures session % (n % 0x1_0000) == session % n % 0x1_0000
  {
    var m, k := n % 0x1_0000, session % n;
    var d, q, j, t := 0x1_0000 / m, n / 0x1_0000, k / 0x1_0000, session / n;
    DivModIdentity(0x1_0000, m);
    DivModIdentity(n, 0x1_0000);
    DivModIdentity(session, n);
    DivModIdentity(k, 0x1_0000);
    assert n == (q * d + 1) * m by {
      assert q * (d * m) == q * d * m;
    }
    assert session == (t * (q * d + 1) + j * d) * m + k % 0x1_0000 by {
      assert t * n == t * (q * d + 1) * m;
      assert j * (d * m) == j * d * m;
    }
    QuotientUnique(session, m, t * (q * d + 1) + j * d, k % 0x1_0000);
  }
}

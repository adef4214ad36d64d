/** The client's two session tables (internal/client/client.go: getOrCreateSession, cleanupSessions): one by
    address, one by session id, with ids from a 32-bit counter that wraps. */
module Sessions {
  import opened Bytes

  type U128 = x: int | 0 <= x < 0x1_0000_0000_0000_0000_0000_0000_0000_0000

  /** An IP address as netip.Addr holds it; an IPv6 address may carry a zone. */
  datatype Addr = V4(ip4: U32) | V6(ip6: U128, zone: string)

  datatype AddrPort = AddrPort(addr: Addr, port: U16)

  /** IPv4-mapped: ::ffff:0:0/96 (section 2.5.5.2 of RFC 4291). */
  predicate Is4In6(a: Addr) {
    a.V6? && a.ip6 / WRAP == 0xFFFF
  }

  /** Unmap: the IPv4 address inside an IPv4-mapped one, without its zone; other addresses as they are. */
  function Unmap(a: Addr): Addr {
    if Is4In6(a) then V4(a.ip6 % WRAP) else a
  }

  /** The key a session is filed under. */
  function Key(a: AddrPort): AddrPort {
    AddrPort(Unmap(a.addr), a.port)
  }

  /** The IPv4-mapped spelling of an IPv4 address. */
  function Mapped(ip: U32, zone: string): Addr {
    V6(0xFFFF * WRAP + ip, zone)
  }

  /** Two spellings are filed under one key exactly when they are equal or name one IPv4 endpoint, and no
      key is itself an IPv4-mapped address. */
  lemma KeysExactly(a: AddrPort, b: AddrPort)
    ensures Key(a) == Key(b) <==>
            a == b || (a.port == b.port && exists ip: U32 :: Spells(a.addr, ip) && Spells(b.addr, ip))
    ensures !Is4In6(Key(a).addr) && Key(Key(a)) == Key(a)
  {
    if Key(a) == Key(b) && a != b {
      var ip := if a.addr.V4? then a.addr.ip4 else a.addr.ip6 % WRAP;
      assert Spells(a.addr, ip) && Spells(b.addr, ip);
    }
  }

  ghost predicate Spells(a: Addr, ip: U32) {
    a == V4(ip) || (a.V6? && a == Mapped(ip, a.zone))
  }

  // The tables as values.

  /** A session: the serial-th one created, for this key. Its id is the counter's value then. */
  datatype Entry = Entry(serial: nat, key: AddrPort) {
    function Id(): U32 {
      serial % WRAP
    }
  }

  datatype Tables = Tables(sessions: map<AddrPort, Entry>, byId: map<U32, Entry>, created: nat, active: int)

  /** The arithmetic of the 32-bit ActiveSessions counter. */
  function Int32(x: int): int {
    (x + 0x8000_0000) % WRAP - 0x8000_0000
  }

  function Get(t: Tables, addr: AddrPort): Tables {
    var key := Key(addr);
    if key in t.sessions then t else Created(t, key)
  }

  function Created(t: Tables, key: AddrPort): Tables {
    var e := Entry(t.created + 1, key);
    Tables(t.sessions[key := e], t.byId[e.Id() := e], t.created + 1, Int32(t.active + 1))
  }

  /** One expiry removal. */
  function Remove(t: Tables, key: AddrPort): Tables {
    if key !in t.sessions then t
    else
      Tables(t.sessions - {key}, t.byId - {t.sessions[key].Id()}, t.created, Int32(t.active - 1))
  }

  datatype Action = Datagram(addr: AddrPort) | Expiry(key: AddrPort)

  function Apply(t: Tables, a: Action): Tables {
    match a
    case Datagram(addr) => Get(t, addr)
    case Expiry(key) => Remove(t, key)
  }

  const NONE: Tables := Tables(map[], map[], 0, 0)

  function Run(actions: seq<Action>): Tables {
    if |actions| == 0 then NONE else Apply(Run(actions[..|actions| - 1]), actions[|actions| - 1])
  }

  /** Both tables hold the same sessions, each under its own key and its own id. */
  ghost predicate OneToOne(t: Tables) {
    && (forall k :: k in t.sessions ==> var e := t.sessions[k]; e.Id() in t.byId && t.byId[e.Id()] == e)
    && (forall i :: i in t.byId ==> var e := t.byId[i]; e.key in t.sessions && t.sessions[e.key] == e && e.Id() == i)
  }

  /** Keys are normalised and serials in range. */
  ghost predicate Normalised(sessions: map<AddrPort, Entry>, created: nat) {
    forall k :: k in sessions ==> !Is4In6(k.addr) && sessions[k].key == k && 1 <= sessions[k].serial <= created
  }

  ghost predicate Distinct(sessions: map<AddrPort, Entry>) {
    forall j, k :: j in sessions && k in sessions && sessions[j].serial == sessions[k].serial ==> j == k
  }

  /** What holds in every run: keys are normalised, serials are distinct and in range, sessions are counted. */
  ghost predicate Filed(t: Tables) {
    Normalised(t.sessions, t.created) && Distinct(t.sessions) && t.active == Int32(|t.sessions|)
  }

  predicate Creates(t: Tables, a: Action) {
    a.Datagram? && Key(a.addr) !in t.sessions
  }

  /** The id the next session gets. */
  function NextId(t: Tables): U32 {
    (t.created + 1) % WRAP
  }

  lemma Counting(x: int)
    ensures Int32(Int32(x) + 1) == Int32(x + 1) && Int32(Int32(x) - 1) == Int32(x - 1)
  {
  }

  lemma SizeWithout<K, V>(m: map<K, V>, k: K)
    requires k in m
    ensures |m - {k}| == |m| - 1
  {
    assert (m - {k}).Keys == m.Keys - {k};
  }

  lemma GetFiled(t: Tables, addr: AddrPort)
    requires Filed(t)
    ensures Filed(Get(t, addr))
  {
    hide Filed, Created, Key, Is4In6;
    if Key(addr) !in t.sessions {
      KeysExactly(addr, addr);
      CreatedFiled(t, Key(addr));
    }
  }

  lemma CreatedFiled(t: Tables, key: AddrPort)
    requires Filed(t) && key !in t.sessions && !Is4In6(key.addr)
    ensures Filed(Created(t, key))
  {
    hide Int32, Is4In6, Distinct;
    Counting(|t.sessions|);
    StillDistinct(t.sessions, t.created, key);
  }

  lemma StillDistinct(sessions: map<AddrPort, Entry>, created: nat, key: AddrPort)
    requires Normalised(sessions, created) && Distinct(sessions) && key !in sessions
    ensures Distinct(sessions[key := Entry(created + 1, key)])
  {
    hide Is4In6;
  }

  lemma RemoveFiled(t: Tables, key: AddrPort)
    requires Filed(t)
    ensures Filed(Remove(t, key))
  {
    hide Int32, Is4In6, Distinct;
    Counting(|t.sessions|);
    if key in t.sessions {
      SizeWithout(t.sessions, key);
      FewerDistinct(t.sessions, key);
    }
  }

  lemma FewerDistinct(sessions: map<AddrPort, Entry>, key: AddrPort)
    requires Distinct(sessions)
    ensures Distinct(sessions - {key})
  {
  }

  lemma {:induction false} RunFiled(actions: seq<Action>)
    ensures Filed(Run(actions))
  {
    hide Filed, Get, Remove;
    if |actions| == 0 {
      NoneAgrees();
    } else {
      var t, a := Run(actions[..|actions| - 1]), actions[|actions| - 1];
      RunFiled(actions[..|actions| - 1]);
      match a
      case Datagram(addr) => GetFiled(t, addr);
      case Expiry(key) => RemoveFiled(t, key);
    }
  }

  /** A step keeps the tables in agreement exactly when it does not create a session under an id still
      in use. */
  lemma StepAgrees(t: Tables, a: Action)
    requires OneToOne(t) && Filed(t)
    ensures OneToOne(Apply(t, a)) <==> (Creates(t, a) ==> NextId(t) !in t.byId)
  {
    hide OneToOne, Filed, Get, Remove;
    if Creates(t, a) {
      CreationAgrees(t, a.addr);
    } else if a.Datagram? {
      assert Get(t, a.addr) == t by { Known(t, a.addr); }
    } else {
      ExpiryAgrees(t, a.key);
    }
  }

  lemma Known(t: Tables, addr: AddrPort)
    requires Key(addr) in t.sessions
    ensures Get(t, addr) == t
  {
  }

  lemma CreationAgrees(t: Tables, addr: AddrPort)
    requires OneToOne(t) && Filed(t) && Key(addr) !in t.sessions
    ensures OneToOne(Get(t, addr)) <==> NextId(t) !in t.byId
  {
    hide Key, Int32;
    if NextId(t) in t.byId {
      var holder := t.byId[NextId(t)];
      assert holder.key in Get(t, addr).sessions;
    }
  }

  lemma ExpiryAgrees(t: Tables, key: AddrPort)
    requires OneToOne(t) && Filed(t)
    ensures OneToOne(Remove(t, key))
  {
    hide Int32;
    if key in t.sessions {
      OtherIds(t, key);
      hide Filed;
      var after, gone := Remove(t, key), t.sessions[key].Id();
      forall i | i in after.byId ensures after.byId[i].key in after.sessions {
        assert t.byId[i].Id() == i != gone;
      }
    }
  }

  lemma OtherIds(t: Tables, key: AddrPort)
    requires OneToOne(t) && Filed(t) && key in t.sessions
    ensures forall k :: k in t.sessions && k != key ==> t.sessions[k].Id() != t.sessions[key].Id()
  {
  }

  ghost predicate AgreesThroughout(actions: seq<Action>) {
    forall k :: 0 <= k <= |actions| ==> OneToOne(Run(actions[..k]))
  }

  ghost predicate NeverReuses(actions: seq<Action>) {
    forall k :: 0 <= k < |actions| ==>
      (Creates(Run(actions[..k]), actions[k]) ==> NextId(Run(actions[..k])) !in Run(actions[..k]).byId)
  }

  lemma ThroughoutSnoc(actions: seq<Action>, a: Action)
    ensures AgreesThroughout(actions + [a]) <==> AgreesThroughout(actions) && OneToOne(Run(actions + [a]))
    ensures NeverReuses(actions + [a]) <==>
            && NeverReuses(actions)
            && (Creates(Run(actions), a) ==> NextId(Run(actions)) !in Run(actions).byId)
    ensures AgreesThroughout(actions) ==> OneToOne(Run(actions))
  {
    hide OneToOne, Run, Creates, NextId;
    var all, n := actions + [a], |actions|;
    assert forall k :: 0 <= k <= n ==> all[..k] == actions[..k];
    assert actions[..n] == actions && all[..n + 1] == all && all[n] == a;
  }

  /** The tables agree throughout a run exactly when no creation in it reuses an id still in use. */
  lemma {:induction false} AgreementExactly(actions: seq<Action>)
    ensures AgreesThroughout(actions) <==> NeverReuses(actions)
  {
    hide OneToOne, Filed, NextId, Creates, AgreesThroughout, NeverReuses, Apply, Run;
    if |actions| == 0 {
      StartAgrees();
      assert actions == [];
    } else {
      var init, last := actions[..|actions| - 1], actions[|actions| - 1];
      assert actions == init + [last];
      AgreementExactly(init);
      ThroughoutSnoc(init, last);
      RunFiled(init);
      RunOnce(init, last);
      if OneToOne(Run(init)) {
        StepAgrees(Run(init), last);
      }
    }
  }

  lemma StartAgrees()
    ensures AgreesThroughout([]) && NeverReuses([])
  {
    NoneAgrees();
    var none: seq<Action> := [];
    assert none[..0] == none;
  }

  lemma NoneAgrees()
    ensures OneToOne(Run([])) && Filed(Run([]))
  {
  }

  /** While at most 2^32 sessions have been created the next id is not in use. */
  lemma NextIdNew(t: Tables)
    requires OneToOne(t) && Filed(t) && t.created < WRAP
    ensures NextId(t) !in t.byId
  {
    if NextId(t) in t.byId {
      var e := t.byId[NextId(t)];
      assert t.sessions[e.key] == e && 1 <= e.serial <= t.created;
      assert e.Id() == NextId(t) && e.serial < t.created + 1 <= WRAP;
      DistinctIds(e.serial, t.created + 1);
    }
  }

  lemma DistinctIds(a: nat, b: nat)
    requires 1 <= a < b <= WRAP
    ensures a % WRAP != b % WRAP
  {
  }

  /** Up to 2^32 creations every id is new, so the tables agree whatever happens; ActiveSessions is then the
      number of sessions, except that 2^31 and more show as negative. */
  lemma {:induction false} TablesAgree(actions: seq<Action>)
    requires Run(actions).created <= WRAP
    ensures var t := Run(actions);
            && OneToOne(t) && Filed(t)
            && (t.active == |t.sessions| <==> |t.sessions| < 0x8000_0000)
  {
    hide OneToOne, Filed, Get, Remove, NextId, Int32;
    RunFiled(actions);
    if |actions| == 0 {
      NoneAgrees();
    } else {
      var t, a := Run(actions[..|actions| - 1]), actions[|actions| - 1];
      CreatedSteps(t, a);
      TablesAgree(actions[..|actions| - 1]);
      if Creates(t, a) {
        NextIdNew(t);
      }
      StepAgrees(t, a);
    }
    ActiveExactly(actions);
  }

  lemma CreatedSteps(t: Tables, a: Action)
    ensures Apply(t, a).created == t.created + (if Creates(t, a) then 1 else 0)
  {
  }

  lemma ActiveExactly(actions: seq<Action>)
    requires Run(actions).created <= WRAP
    ensures var t := Run(actions); t.active == |t.sessions| <==> |t.sessions| < 0x8000_0000
  {
    hide Apply;
    RunFiled(actions);
    FewSessions(Run(actions));
  }

  /** No more sessions than serials. */
  lemma FewSessions(t: Tables)
    requires Filed(t)
    ensures |t.sessions| <= t.created
  {
    var serials := set k | k in t.sessions :: t.sessions[k].serial;
    SameSize(t.sessions.Keys, k requires k in t.sessions => t.sessions[k].serial, serials);
    Interval(serials, t.created);
  }

  lemma {:induction false} SameSize<K>(keys: set<K>, f: K --> nat, image: set<nat>)
    requires forall k :: k in keys ==> f.requires(k)
    requires image == set k | k in keys :: f(k)
    requires forall j, k :: j in keys && k in keys && f(j) == f(k) ==> j == k
    ensures |keys| == |image|
    decreases keys
  {
    if keys != {} {
      var k :| k in keys;
      assert (set j | j in keys - {k} :: f(j)) == image - {f(k)};
      SameSize(keys - {k}, f, image - {f(k)});
    }
  }

  lemma {:induction false} Interval(s: set<nat>, n: nat)
    requires forall x :: x in s ==> 1 <= x <= n
    ensures |s| <= n
  {
    if n == 0 {
      assert s == {};
    } else {
      Interval(s - {n}, n - 1);
    }
  }

  // The counter wraps.

  /** One client stays; another comes and expires n times. */
  function Churn(stays: AddrPort, comes: AddrPort, n: nat): seq<Action> {
    if n == 0 then [Datagram(stays)] else Churn(stays, comes, n - 1) + [Datagram(comes), Expiry(Key(comes))]
  }

  lemma RunTwice(actions: seq<Action>, a: Action, b: Action)
    ensures Run(actions + [a, b]) == Apply(Apply(Run(actions), a), b)
  {
    var all := actions + [a, b];
    assert all[..|all| - 1] == actions + [a];
    assert (actions + [a])[..|actions|] == actions;
  }

  lemma Counts()
    ensures Int32(0) == 0 && Int32(1) == 1 && Int32(2) == 2
  {
  }

  lemma {:induction false} ChurnState(stays: AddrPort, comes: AddrPort, n: nat)
    requires Key(stays) != Key(comes) && n < WRAP
    ensures var e := Entry(1, Key(stays));
            Run(Churn(stays, comes, n)) == Tables(map[Key(stays) := e], map[1 := e], n + 1, 1)
  {
    hide Key, Int32;
    assert Int32(0) == 0 && Int32(1) == 1 && Int32(2) == 2 by { Counts(); }
    if n == 0 {
      assert Churn(stays, comes, 0)[..0] == [];
    } else {
      ChurnState(stays, comes, n - 1);
      RunTwice(Churn(stays, comes, n - 1), Datagram(comes), Expiry(Key(comes)));
      var t := Run(Churn(stays, comes, n - 1));
      assert NextId(t) != 1;
      assert Get(t, comes).sessions - {Key(comes)} == t.sessions;
      assert Get(t, comes).byId - {NextId(t)} == t.byId;
    }
  }

  /** The session after that shares the id of the one that stayed: replies for the one go to the other,
      and once the newcomer expires the one that stayed is no longer found by its id. */
  lemma WrapAliases(stays: AddrPort, comes: AddrPort)
    requires Key(stays) != Key(comes)
    ensures var first, last := Entry(1, Key(stays)), Entry(WRAP + 1, Key(comes));
            var t := Run(Churn(stays, comes, WRAP - 1) + [Datagram(comes)]);
            && t.sessions == map[first.key := first, last.key := last] && t.byId == map[1 := last]
            && first.Id() == 1 == last.Id()
            && first.key in Remove(t, last.key).sessions && 1 !in Remove(t, last.key).byId
  {
    hide Churn, Key, Int32, Run;
    ChurnState(stays, comes, WRAP - 1);
    RunOnce(Churn(stays, comes, WRAP - 1), Datagram(comes));
  }

  lemma RunOnce(actions: seq<Action>, a: Action)
    ensures Run(actions + [a]) == Apply(Run(actions), a)
  {
    assert (actions + [a])[..|actions|] == actions;
  }
}

/** The same tables as the client keeps them: maps from keys and ids to session objects. */
module SessionTables {
  import opened Bytes
  import opened Sessions

  lemma CounterStep(created: nat)
    ensures (created % WRAP + 1) % WRAP == (created + 1) % WRAP
  {
  }

  lemma CreatedView(t: Tables, from: AddrPort)
    requires Key(from) !in t.sessions
    ensures Created(t, Key(from)) == Get(t, from)
  {
  }

  class UDPSession {
    const sessionID: U32
    const key: AddrPort
    ghost const serial: nat
    var lastActive: int
    var sequenceID: U32

    constructor (sessionID: U32, key: AddrPort, now: int, ghost serial: nat)
      ensures this.sessionID == sessionID && this.key == key && this.serial == serial
      ensures lastActive == now && sequenceID == 0
    {
      this.sessionID, this.key, this.serial := sessionID, key, serial;
      lastActive, sequenceID := now, 0;
    }

    method UpdateLastActive(now: int)
      modifies this`lastActive
      ensures lastActive == now
    {
      lastActive := now;
    }

    /** NextSequenceID: the first number is 1, and 0 follows 2^32 - 1. */
    method NextSequenceID() returns (n: U32)
      modifies this`sequenceID
      ensures n == sequenceID == (old(sequenceID) + 1) % WRAP
    {
      sequenceID := (sequenceID + 1) % WRAP;
      n := sequenceID;
    }

    predicate IsExpired(now: int, timeout: int)
      reads this
    {
      now - lastActive > timeout
    }

    ghost function View(): Entry {
      Entry(serial, key)
    }
  }

  ghost function ViewOf(sessions: map<AddrPort, UDPSession>, byId: map<U32, UDPSession>, created: nat, active: int): Tables {
    Tables(map k | k in sessions :: sessions[k].View(), map i | i in byId :: byId[i].View(), created, active)
  }

  lemma ViewExtended(sessions: map<AddrPort, UDPSession>, byId: map<U32, UDPSession>, created: nat, active: int,
                     s: UDPSession)
    requires s.serial == created + 1 && s.sessionID == s.serial % WRAP
    ensures ViewOf(sessions[s.key := s], byId[s.sessionID := s], created + 1, Int32(active + 1))
         == Created(ViewOf(sessions, byId, created, active), s.key)
  {
  }

  lemma ViewRemoved(sessions: map<AddrPort, UDPSession>, byId: map<U32, UDPSession>, created: nat, active: int,
                    key: AddrPort)
    requires key in sessions ==> sessions[key].sessionID == sessions[key].serial % WRAP
    ensures Remove(ViewOf(sessions, byId, created, active), key)
         == if key !in sessions then ViewOf(sessions, byId, created, active)
            else ViewOf(sessions - {key}, byId - {sessions[key].sessionID}, created, Int32(active - 1))
  {
    hide Int32;
  }

  ghost function IdsOf(sessions: map<AddrPort, UDPSession>, keys: set<AddrPort>): set<U32> {
    set k | k in keys && k in sessions :: sessions[k].sessionID
  }

  lemma OneMoreId(sessions: map<AddrPort, UDPSession>, keys: set<AddrPort>, k: AddrPort)
    requires k in sessions
    ensures IdsOf(sessions, keys + {k}) == IdsOf(sessions, keys) + {sessions[k].sessionID}
    ensures k in keys ==> keys + {k} == keys
  {
  }

  lemma NoIds(sessions: map<AddrPort, UDPSession>)
    ensures IdsOf(sessions, {}) == {}
  {
  }

  class ClientSessions {
    var sessions: map<AddrPort, UDPSession>
    var sessionsByID: map<U32, UDPSession>
    var sessionCounter: U32
    var activeSessions: int
    /** Every session ever created, by serial. */
    ghost var created: seq<UDPSession>

    ghost function View(): Tables
      reads this
    {
      ViewOf(sessions, sessionsByID, |created|, activeSessions)
    }

    ghost predicate Known(s: UDPSession)
      reads this
    {
      && s.sessionID == s.serial % WRAP
      && 1 <= s.serial <= |created| && created[s.serial - 1] == s
    }

    ghost predicate Valid()
      reads this
    {
      && sessionCounter == |created| % WRAP
      && (forall k :: k in sessions ==> Known(sessions[k]))
      && (forall i :: i in sessionsByID ==> Known(sessionsByID[i]))
    }

    constructor ()
      ensures Valid() && View() == NONE
    {
      sessions, sessionsByID, sessionCounter, activeSessions, created := map[], map[], 0, 0, [];
    }

    method GetOrCreateSession(from: AddrPort, now: int) returns (s: UDPSession)
      requires Valid()
      modifies this, sessions.Values`lastActive
      ensures Valid() && View() == Get(old(View()), from)
      ensures Key(from) in sessions && s == sessions[Key(from)] && s.lastActive == now
      ensures Key(from) in old(sessions) ==> s == old(sessions[Key(from)])
      ensures Key(from) !in old(sessions) ==> fresh(s) && s.sequenceID == 0
      ensures forall o :: o in old(sessions.Values) && o != s ==> o.lastActive == old(o.lastActive)
    {
      hide Key, Known, Created;
      var addr := Key(from);
      if addr in sessions {
        s := sessions[addr];
        s.UpdateLastActive(now);
        return;
      }
      s := CreateSession(addr, now);
      CreatedView(old(View()), from);
    }

    method CreateSession(addr: AddrPort, now: int) returns (s: UDPSession)
      requires Valid() && addr !in sessions
      modifies this
      ensures Valid() && fresh(s) && s.lastActive == now && s.sequenceID == 0
      ensures sessions == old(sessions)[addr := s]
      ensures View() == Created(old(View()), addr)
    {
      hide ViewOf, Created, Int32;
      CounterStep(|created|);
      sessionCounter := (sessionCounter + 1) % WRAP;
      s := new UDPSession(sessionCounter, addr, now, |created| + 1);
      ViewExtended(sessions, sessionsByID, |created|, activeSessions, s);
      created := created + [s];
      sessions := sessions[addr := s];
      sessionsByID := sessionsByID[s.sessionID := s];
      activeSessions := Int32(activeSessions + 1);
    }

    /** The removal of one expired key. */
    method RemoveExpired(key: AddrPort)
      requires Valid()
      modifies this
      ensures Valid() && View() == Remove(old(View()), key)
      ensures sessions == old(sessions) - {key}
      ensures sessionsByID == old(sessionsByID) - (if key in old(sessions) then {old(sessions)[key].sessionID} else {})
      ensures activeSessions == if key in old(sessions) then Int32(old(activeSessions) - 1) else old(activeSessions)
    {
      hide ViewOf, Remove, Int32;
      ViewRemoved(sessions, sessionsByID, |created|, activeSessions, key);
      if key in sessions {
        var s := sessions[key];
        sessions := sessions - {key};
        sessionsByID := sessionsByID - {s.sessionID};
        activeSessions := Int32(activeSessions - 1);
      } else {
        assert sessions == sessions - {key};
        assert sessionsByID == sessionsByID - {};
      }
    }

    ghost function Expired(now: int, timeout: int): set<AddrPort>
      reads this, sessions.Values
    {
      set k | k in sessions && sessions[k].IsExpired(now, timeout)
    }

    /** The first pass of cleanupSessions: the keys of the sessions idle for longer than the timeout, in
        whatever order the table is iterated. */
    method ExpiredKeys(now: int, timeout: int) returns (keys: seq<AddrPort>)
      ensures forall k :: k in keys <==> k in Expired(now, timeout)
    {
      keys := [];
      var unseen := sessions.Keys;
      while unseen != {}
        invariant unseen <= sessions.Keys
        invariant forall k :: k in keys <==> k in Expired(now, timeout) && k !in unseen
        decreases unseen
      {
        var key :| key in unseen;
        unseen := unseen - {key};
        if sessions[key].IsExpired(now, timeout) {
          keys := keys + [key];
        }
      }
    }

    /** One round of cleanupSessions: both tables lose the idle sessions and nothing else, and agree
        afterwards if they did before. */
    method CleanupSessions(now: int, timeout: int)
      requires Valid()
      modifies this
      ensures Valid()
      ensures sessions == old(sessions) - old(Expired(now, timeout))
      ensures sessionsByID == old(sessionsByID) - IdsOf(old(sessions), old(Expired(now, timeout)))
      ensures forall k :: k in old(sessions) ==> (k in sessions <==> now - old(sessions[k].lastActive) <= timeout)
      ensures forall k :: k in sessions ==> k in old(sessions) && sessions[k] == old(sessions[k])
      ensures old(OneToOne(View()) && Filed(View())) ==> OneToOne(View()) && Filed(View())
    {
      hide OneToOne, Filed, View, IdsOf;
      ghost var idle := Expired(now, timeout);
      var keys := ExpiredKeys(now, timeout);
      assert forall k :: k in keys <==> k in idle;
      assert forall k :: k in idle ==> k in sessions;
      RemoveAll(keys, idle);
    }

    /** The second pass: one removal after another. A key listed twice is removed once. */
    method RemoveAll(keys: seq<AddrPort>, ghost idle: set<AddrPort>)
      requires Valid()
      requires forall k :: k in keys <==> k in idle
      requires forall k :: k in idle ==> k in sessions
      modifies this
      ensures Valid()
      ensures sessions == old(sessions) - idle && sessionsByID == old(sessionsByID) - IdsOf(old(sessions), idle)
      ensures old(OneToOne(View()) && Filed(View())) ==> OneToOne(View()) && Filed(View())
    {
      hide OneToOne, Filed, Known, View, Remove, Int32, IdsOf;
      NoIds(old(sessions));
      var i := 0;
      ghost var gone: set<AddrPort> := {};
      while i < |keys|
        invariant 0 <= i <= |keys| && Valid()
        invariant forall k :: k in gone <==> k in keys[..i]
        invariant sessions == old(sessions) - gone
        invariant sessionsByID == old(sessionsByID) - IdsOf(old(sessions), gone)
        invariant old(OneToOne(View()) && Filed(View())) ==> OneToOne(View()) && Filed(View())
      {
        if OneToOne(View()) && Filed(View()) {
          ExpiryAgrees(View(), keys[i]);
          RemoveFiled(View(), keys[i]);
        }
        RemoveExpired(keys[i]);
        assert keys[i] in idle;
        OneMoreId(old(sessions), gone, keys[i]);
        assert keys[..i + 1] == keys[..i] + [keys[i]];
        gone := gone + {keys[i]};
        i := i + 1;
      }
      assert keys[..i] == keys;
      assert gone == idle;
    }

    /** While the tables agree, finding a session by its id gives the very object found by its address. */
    lemma SameObjects()
      requires Valid() && OneToOne(View())
      ensures forall k :: k in sessions ==>
                sessions[k].sessionID in sessionsByID && sessionsByID[sessions[k].sessionID] == sessions[k]
      ensures forall i :: i in sessionsByID ==>
                && sessionsByID[i].sessionID == i
                && sessionsByID[i].key in sessions && sessions[sessionsByID[i].key] == sessionsByID[i]
    {
      forall k | k in sessions
        ensures sessions[k].sessionID in sessionsByID && sessionsByID[sessions[k].sessionID] == sessions[k]
      {
        var e := View().sessions[k];
        assert e.Id() in View().byId && View().byId[e.Id()] == e;
      }
      forall i | i in sessionsByID
        ensures sessionsByID[i].sessionID == i
          && sessionsByID[i].key in sessions && sessions[sessionsByID[i].key] == sessionsByID[i]
      {
        var e := View().byId[i];
        assert e.key in View().sessions && View().sessions[e.key] == e && e.Id() == i;
      }
    }
  }

  /** A datagram at time t, then a cleanup: at any time up to t + timeout the session is still there, the same object
      in both tables; after that it is in neither. */
  method SessionLifetime(c: ClientSessions, from: AddrPort, t: int, later: int, timeout: int) returns (s: UDPSession)
    requires c.Valid() && OneToOne(c.View()) && Filed(c.View()) && |c.created| < WRAP
    modifies c, c.sessions.Values
    ensures c.Valid() && OneToOne(c.View())
    ensures later - t <= timeout ==>
              && Key(from) in c.sessions && c.sessions[Key(from)] == s
              && s.sessionID in c.sessionsByID && c.sessionsByID[s.sessionID] == s
    ensures later - t > timeout ==> Key(from) !in c.sessions && s.sessionID !in c.sessionsByID
  {
    hide OneToOne, Filed;
    NextIdNew(c.View());
    StepAgrees(c.View(), Datagram(from));
    GetFiled(c.View(), from);
    s := c.GetOrCreateSession(from, t);
    c.SameObjects();
    ghost var ids := c.sessionsByID;
    c.CleanupSessions(later, timeout);
    c.SameObjects();
    assert s.sessionID in ids && ids[s.sessionID] == s;
  }
}

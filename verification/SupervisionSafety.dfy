/** What every interleaving of the lane's manager, watchers and writer keeps: no wake-up is lost and
    no connection is leaked, and the lane always finds its way back to dialling. */
module SupervisionSafety {
  import opened Bytes
  import opened Supervision

  lemma ManagerKeepsWakeups(s: State)
    requires Inv(s) && StepManager(s).Some?
    ensures NoLostWakeup(StepManager(s).value)
  {
  }

  lemma ManagerKeeps(s: State)
    requires Inv(s) && StepManager(s).Some?
    ensures Inv(StepManager(s).value)
  {
    ManagerKeepsWakeups(s);
    hide NoLostWakeup;
  }

  /** A watcher that takes the connection away goes on to send a token; other watchers keep theirs. */
  lemma WatcherKeepsWakeups(s: State, c: Conn)
    requires Inv(s) && StepWatcher(s, c).Some?
    ensures NoLostWakeup(StepWatcher(s, c).value)
  {
    var t := StepWatcher(s, c).value;
    if s.watchers[c].Woken? {
      assert t.watchers[c].Notifying?;
    } else if s.watchers[c].Reading? && TokenComing(s) && !s.writer.Notify? {
      var d :| d in s.watchers && s.watchers[d].Notifying?;
      assert t.watchers[d].Notifying?;
    }
  }

  lemma WatcherKeeps(s: State, c: Conn)
    requires Inv(s) && StepWatcher(s, c).Some?
    ensures Inv(StepWatcher(s, c).value)
  {
    hide NoLostWakeup;
    WatcherKeepsWakeups(s, c);
  }

  lemma WriterKeeps(s: State, ok: bool)
    requires Inv(s) && StepWriter(s, ok).Some?
    ensures Inv(StepWriter(s, ok).value)
  {
  }

  lemma ApplyKeeps(s: State, a: Action)
    requires Inv(s) && Apply(s, a).Some?
    ensures Inv(Apply(s, a).value)
  {
    hide StepManager, StepWatcher, StepWriter;
    match a
    case ManagerStep => ManagerKeeps(s);
    case WatcherStep(c) => WatcherKeeps(s, c);
    case WriterStep(ok) => WriterKeeps(s, ok);
    case DialFails =>
    case DelayOver =>
  }

  lemma InitialInv()
    ensures Inv(INITIAL)
  {
  }

  /** In every interleaving: a manager that waits without a connection has a token waiting for it or
      being sent, and every dialled connection is in use, in the manager's hands, or closed exactly once. */
  lemma {:induction false} AlwaysSupervised(actions: seq<Action>)
    requires Run(INITIAL, actions).Some?
    ensures var s := Run(INITIAL, actions).value; Inv(s) && NoLostWakeup(s) && NoLeak(s) && Watched(s)
  {
    hide Apply, NoLostWakeup, NoLeak, Watched;
    if |actions| == 0 {
      InitialInv();
    } else {
      AlwaysSupervised(actions[..|actions| - 1]);
      ApplyKeeps(Run(INITIAL, actions[..|actions| - 1]).value, actions[|actions| - 1]);
    }
  }

  /** A watcher closes no connection but its own, only while that is the lane's, and leaves every other
      connection in place: an old watcher never closes a newer connection. */
  lemma WatcherClosesOwn(s: State, c: Conn)
    requires Inv(s) && StepWatcher(s, c).Some?
    ensures var t := StepWatcher(s, c).value;
            && (forall d: Conn :: d != c ==> t.closes[d] == s.closes[d])
            && (t.closes[c] == s.closes[c] || (s.conn == Some(c) && t.closes[c] == 1))
            && (s.conn != Some(c) ==> t.conn == s.conn)
  {
  }

  // Back to dialling.

  /** The next steps of threads that need nothing from outside: a pending token is sent, the manager
      moves on. Neither new traffic nor a watcher's Read is needed. */
  ghost function Onward(s: State): Action {
    if s.writer.Notify? then WriterStep(false)
    else if s.manager.Backoff? then DelayOver
    else if s.manager.Wait? && !s.token && TokenComing(s) then
      var c :| c in s.watchers && s.watchers[c].Notifying?;
      WatcherStep(c)
    else ManagerStep
  }

  /** How far a lane without a connection is from dialling. */
  function Distance(s: State): nat {
    (if s.writer.Notify? then 10 else 0)
    + match s.manager
      case Dial => 0
      case Check => 1
      case Backoff => 2
      case Wait => if s.token then 2 else 3
      case Drain => if s.token then 3 else 2
      case Spawn(_) => 4
      case Have(_) => 0
  }

  lemma OnwardStep(s: State)
    requires Inv(s) && s.conn.None? && (s.writer.Notify? || (!s.manager.Dial? && !s.manager.Have?))
    ensures Apply(s, Onward(s)).Some?
    ensures var t := Apply(s, Onward(s)).value; t.conn.None? && Distance(t) < Distance(s)
  {
  }

  /** From every reachable state without a connection the lane gets to a state where the manager dials,
      or holds a freshly dialled connection, by at most 14 such steps: no deadlock, no lost wake-up. */
  lemma {:induction false} DialsAgain(s: State) returns (actions: seq<Action>)
    requires Inv(s) && s.conn.None?
    ensures Run(s, actions).Some? && |actions| <= Distance(s)
    ensures var t := Run(s, actions).value; t.conn.None? && t.MutexFree() && (t.manager.Dial? || t.manager.Have?)
    decreases Distance(s)
  {
    if s.MutexFree() && (s.manager.Dial? || s.manager.Have?) {
      actions := [];
    } else {
      hide Inv, Distance, Apply;
      NoWriteWithoutConn(s);
      OnwardStep(s);
      ApplyKeeps(s, Onward(s));
      var t := Apply(s, Onward(s)).value;
      var more := DialsAgain(t);
      RunFirst(s, Onward(s), more);
      actions := [Onward(s)] + more;
    }
  }

  lemma NoWriteWithoutConn(s: State)
    requires Inv(s) && s.conn.None?
    ensures s.writer.Outside? || s.writer.Notify?
  {
  }

  lemma {:induction false} RunFirst(s: State, a: Action, rest: seq<Action>)
    requires Apply(s, a).Some?
    ensures Run(s, [a] + rest) == Run(Apply(s, a).value, rest)
    decreases |rest|
  {
    hide Apply;
    if |rest| == 0 {
      assert [a] + rest == [a] && [a][..0] == [];
      assert Run(s, [a][..0]) == Some(s);
    } else {
      var init := rest[..|rest| - 1];
      RunFirst(s, a, init);
      assert ([a] + rest)[..|rest|] == [a] + init;
    }
  }
}

/** What comes of dialling: a dial that succeeds gives the lane its connection, on every schedule, and what breaks
    a connection makes way for the next. */
module SupervisionConnects {
  import opened Bytes
  import opened Supervision
  import opened SupervisionSafety
  import opened SupervisionProgress

  // To a connection.

  /** A bound on the steps left before the lane has a connection, as long as no dial fails. */
  function Left(s: State): nat {
    Remaining(s) + if s.manager.Have? then 1 else 2
  }

  predicate NoFailures(actions: seq<Action>) {
    forall i :: 0 <= i < |actions| ==> !actions[i].DialFails?
  }

  /** Any step of any thread but a failing dial: it changes nothing, or it brings the lane nearer to a connection, or
      it is the one that gives the lane the connection dialled last. */
  lemma EveryStepNearer(s: State, a: Action)
    requires Inv(s) && s.conn.None? && !a.DialFails? && Apply(s, a).Some?
    ensures var t := Apply(s, a).value;
            || t == s
            || (t.conn.None? && Left(t) < Left(s))
            || (t.conn == Some(s.dialled - 1) && t.manager == Spawn(s.dialled - 1) && t.dialled == s.dialled && t.MutexFree())
  {
    hide WatcherWork, NoLeak, NoLostWakeup;
    NoWriteWithoutConn(s);
    var t := Apply(s, a).value;
    if a.WatcherStep? {
      WatcherMoves(s, a.c);
    } else if a.ManagerStep? && s.manager.Spawn? {
      NewWatcher(s, t, s.manager.c);
    } else {
      SameWatchers(s, t);
    }
  }

  /** The lane has just been given the connection dialled last. */
  predicate JustConnected(s: State) {
    s.dialled > 0 && s.conn == Some(s.dialled - 1) && s.manager == Spawn(s.dialled - 1) && s.MutexFree()
  }

  lemma {:induction false} StillWithout(s: State, actions: seq<Action>) returns (k: Option<nat>)
    requires Inv(s) && s.conn.None? && Run(s, actions).Some? && NoFailures(actions)
    ensures k.Some? ==>
              && k.value <= |actions| && Run(s, actions[..k.value]).Some?
              && Inv(Run(s, actions[..k.value]).value) && JustConnected(Run(s, actions[..k.value]).value)
    ensures k.None? ==>
              var t := Run(s, actions).value;
              Inv(t) && t.conn.None? && Left(t) + Moves(s, actions) <= Left(s)
    decreases |actions|
  {
    hide Inv, Apply, Left;
    if |actions| == 0 {
      k := None;
    } else {
      var n := |actions| - 1;
      var init, last := actions[..n], actions[n];
      k := StillWithout(s, init);
      if k.Some? {
        assert init[..k.value] == actions[..k.value];
      } else {
        var t := Run(s, init).value;
        EveryStepNearer(t, last);
        ApplyKeeps(t, last);
        if Run(s, actions).value.conn.Some? {
          k := Some(n + 1);
          assert actions[..n + 1] == actions;
        }
      }
    }
  }

  /** Every schedule on which no dial fails, from every state without a connection: once more steps have changed
      something than Left allows, the lane has got the connection dialled last on the way. */
  lemma EveryScheduleConnects(s: State, actions: seq<Action>) returns (k: nat)
    requires Inv(s) && s.conn.None? && Run(s, actions).Some? && NoFailures(actions) && Moves(s, actions) > Left(s)
    ensures k <= |actions| && Run(s, actions[..k]).Some?
    ensures Inv(Run(s, actions[..k]).value) && JustConnected(Run(s, actions[..k]).value)
  {
    var r := StillWithout(s, actions);
    k := r.value;
  }

  /** And there is always a step that changes something, without a failing dial, new traffic, or a Read returning. */
  lemma NeverStuckWithout(s: State) returns (a: Action)
    requires Inv(s) && s.conn.None?
    ensures Apply(s, a).Some? && Apply(s, a).value != s
    ensures !a.DialFails? && (a.WatcherStep? ==> a.c in s.watchers && s.watchers[a.c].Notifying?)
  {
    if s.writer.Notify? {
      a := WriterStep(false);
    } else if Reached(s) {
      a := ManagerStep;
      NoWriteWithoutConn(s);
    } else {
      a := NeverStuck(s);
    }
  }

  /** So there is a schedule that gives the lane a connection, whatever state it is in. */
  lemma {:induction false} Reconnects(s: State) returns (actions: seq<Action>)
    requires Inv(s) && s.conn.None?
    ensures NoFailures(actions) && |actions| <= Left(s)
    ensures Run(s, actions).Some? && JustConnected(Run(s, actions).value)
    decreases Left(s)
  {
    hide Inv, Left, Apply;
    var a := NeverStuckWithout(s);
    EveryStepNearer(s, a);
    ApplyKeeps(s, a);
    var t := Apply(s, a).value;
    var more: seq<Action> := [];
    if t.conn.None? {
      more := Reconnects(t);
    } else {
      LeftPositive(s);
      assert Run(t, []) == Some(t);
    }
    RunFirst(s, a, more);
    actions := [a] + more;
  }

  lemma LeftPositive(s: State)
    ensures Left(s) > 0
  {
  }

  // With a connection.

  /** Watchers that may still send a token. */
  function Waking(s: State): set<Conn> {
    set d | d in s.watchers && !s.watchers[d].Gone?
  }

  /** A bound on the manager's steps before it waits for the connection to break: the tokens it may meet, and the
      places it passes. */
  function Settling(s: State): nat {
    |Waking(s)| + (if s.token then 1 else 0)
    + match s.manager
      case Spawn(_) => 4
      case Drain => 2
      case Check => 1
      case _ => 0
  }

  /** Neither the writer nor the connection's watcher has met an error. */
  predicate Healthy(s: State, c: Conn) {
    s.conn == Some(c) && !s.writer.Failed? && (c in s.watchers ==> s.watchers[c].Reading?)
  }

  predicate Harmless(a: Action, c: Conn) {
    a != WatcherStep(c) && a != WriterStep(false)
  }

  lemma HealthyPlace(s: State, c: Conn)
    requires Inv(s) && Healthy(s, c)
    ensures s.manager.Check? || s.manager.Wait? || s.manager.Spawn? || s.manager.Drain?
    ensures !s.writer.Notify?
    ensures !s.manager.Spawn? ==> c in s.watchers
    ensures s.manager.Spawn? ==> s.manager.c !in s.watchers
  {
  }

  lemma HealthyWatcher(s: State, c: Conn, d: Conn)
    requires Healthy(s, c) && d != c && StepWatcher(s, d).Some?
    ensures Healthy(StepWatcher(s, d).value, c) && Settling(StepWatcher(s, d).value) <= Settling(s)
  {
    var t := StepWatcher(s, d).value;
    if s.watchers[d].Notifying? {
      assert Waking(t) == Waking(s) - {d};
    } else {
      assert Waking(t) == Waking(s);
    }
  }

  lemma HealthyManager(s: State, c: Conn)
    requires Inv(s) && Healthy(s, c) && !s.manager.Wait? && StepManager(s).Some?
    ensures Healthy(StepManager(s).value, c)
    ensures StepManager(s).value.manager.Wait? || Settling(StepManager(s).value) < Settling(s)
  {
    hide Inv, Waking;
    HealthyPlace(s, c);
    var t := StepManager(s).value;
    if s.manager.Spawn? {
      NewWaking(s, t, s.manager.c);
    } else {
      SameWaking(s, t);
    }
  }

  lemma NewWaking(s: State, t: State, c: Conn)
    requires c !in s.watchers && t.watchers == s.watchers[c := Reading]
    ensures |Waking(t)| == |Waking(s)| + 1
  {
    assert Waking(t) == Waking(s) + {c};
  }

  lemma SameWaking(s: State, t: State)
    requires t.watchers == s.watchers
    ensures Waking(t) == Waking(s)
  {
  }

  lemma HealthyStep(s: State, c: Conn, a: Action)
    requires Inv(s) && Healthy(s, c) && Harmless(a, c) && Apply(s, a).Some? && !s.manager.Wait?
    ensures var t := Apply(s, a).value;
            && Healthy(t, c)
            && (t.manager.Wait? || Settling(t) + (if a.ManagerStep? then 1 else 0) <= Settling(s))
  {
    hide Inv, StepWatcher, StepManager, Waking;
    HealthyPlace(s, c);
    match a
    case WatcherStep(d) => HealthyWatcher(s, c, d);
    case ManagerStep => HealthyManager(s, c);
    case WriterStep(ok) => SameWaking(s, Apply(s, a).value);
    case DialFails =>
    case DelayOver =>
  }

  lemma StaysHealthy(s: State, c: Conn, a: Action)
    requires Inv(s) && Healthy(s, c) && Harmless(a, c) && Apply(s, a).Some?
    ensures Healthy(Apply(s, a).value, c)
  {
  }

  /** How many steps the manager has taken. */
  function ManagerSteps(actions: seq<Action>): nat {
    if |actions| == 0 then 0
    else ManagerSteps(actions[..|actions| - 1]) + if actions[|actions| - 1].ManagerStep? then 1 else 0
  }

  lemma {:induction false} StillSettling(s: State, c: Conn, actions: seq<Action>) returns (k: Option<nat>)
    requires Inv(s) && Healthy(s, c) && Run(s, actions).Some?
    requires forall i :: 0 <= i < |actions| ==> Harmless(actions[i], c)
    ensures Healthy(Run(s, actions).value, c) && Inv(Run(s, actions).value)
    ensures k.Some? ==>
              && k.value <= |actions| && Run(s, actions[..k.value]).Some?
              && Watching(Run(s, actions[..k.value]).value, c)
    ensures k.None? ==>
              var t := Run(s, actions).value;
              !t.manager.Wait? && Settling(t) + ManagerSteps(actions) <= Settling(s)
  {
    hide Inv, Apply, Settling, Healthy, Harmless;
    if |actions| == 0 {
      k := if s.manager.Wait? then Some(0) else None;
      assert actions[..0] == actions;
      WaitWatches(s, c);
    } else {
      var n := |actions| - 1;
      var init, last := actions[..n], actions[n];
      k := StillSettling(s, c, init);
      var t := Run(s, init).value;
      StaysHealthy(t, c, last);
      ApplyKeeps(t, last);
      if k.Some? {
        assert init[..k.value] == actions[..k.value];
      } else {
        HealthyStep(t, c, last);
      }
      if k.None? && Run(s, actions).value.manager.Wait? {
        k := Some(n + 1);
        assert actions[..n + 1] == actions;
        WaitWatches(Run(s, actions).value, c);
      }
    }
  }

  /** The manager waits for news, and the connection's watcher will see it break. */
  predicate Watching(s: State, c: Conn) {
    s.conn == Some(c) && s.manager.Wait? && c in s.watchers && s.watchers[c].Reading?
  }

  lemma WaitWatches(s: State, c: Conn)
    requires Inv(s) && Healthy(s, c)
    ensures s.manager.Wait? ==> Watching(s, c)
  {
    HealthyPlace(s, c);
  }

  /** As long as nothing breaks the connection the lane keeps it, and once the manager has taken more steps than
      Settling allows it has come to wait, with the connection's watcher reading. */
  lemma EveryScheduleSettles(s: State, c: Conn, actions: seq<Action>) returns (k: nat)
    requires Inv(s) && Healthy(s, c) && Run(s, actions).Some?
    requires forall i :: 0 <= i < |actions| ==> Harmless(actions[i], c)
    requires ManagerSteps(actions) > Settling(s)
    ensures Run(s, actions).value.conn == Some(c)
    ensures k <= |actions| && Run(s, actions[..k]).Some? && Watching(Run(s, actions[..k]).value, c)
  {
    var r := StillSettling(s, c, actions);
    k := r.value;
  }

  /** Until then the manager can take its step, once the writer is done. */
  lemma ManagerCanStep(s: State, c: Conn)
    requires Inv(s) && Healthy(s, c) && !s.manager.Wait?
    ensures s.MutexFree() ==> StepManager(s).Some?
    ensures !s.MutexFree() ==> Apply(s, WriterStep(true)).Some? && Apply(s, WriterStep(true)).value.MutexFree()
  {
  }

  /** Nothing is left that could wake the manager but the connection's own end. */
  predicate AtRest(s: State, c: Conn) {
    Watching(s, c) && !s.writer.Failed? && !s.token && Waking(s) == {c}
  }

  lemma RestStep(s: State, c: Conn, a: Action)
    requires Inv(s) && AtRest(s, c) && Harmless(a, c) && Apply(s, a).Some?
    ensures AtRest(Apply(s, a).value, c) && !a.ManagerStep? && !a.WatcherStep?
  {
    HealthyPlace(s, c);
    OthersGone(s, c);
  }

  lemma OthersGone(s: State, c: Conn)
    requires Waking(s) == {c}
    ensures forall d: Conn :: StepWatcher(s, d).Some? ==> d == c
    ensures forall t: State :: t.watchers == s.watchers ==> Waking(t) == {c}
  {
    forall d: Conn | StepWatcher(s, d).Some? ensures d == c {
      assert d in Waking(s);
    }
  }

  /** Then the manager stays where it is: as long as nothing breaks the connection nobody but the writer takes a step. */
  lemma {:induction false} StaysAtRest(s: State, c: Conn, actions: seq<Action>)
    requires Inv(s) && AtRest(s, c) && Run(s, actions).Some?
    requires forall i :: 0 <= i < |actions| ==> Harmless(actions[i], c)
    ensures AtRest(Run(s, actions).value, c) && Inv(Run(s, actions).value)
    ensures forall i :: 0 <= i < |actions| ==> actions[i].WriterStep?
  {
    if |actions| > 0 {
      hide Inv, Apply, AtRest;
      var init, last := actions[..|actions| - 1], actions[|actions| - 1];
      StaysAtRest(s, c, init);
      var t := Run(s, init).value;
      RestStep(t, c, last);
      ApplyKeeps(t, last);
      NoDialAtRest(t, c, last);
      assert forall i :: 0 <= i < |init| ==> actions[i] == init[i];
    }
  }

  lemma NoDialAtRest(s: State, c: Conn, a: Action)
    requires AtRest(s, c) && Apply(s, a).Some?
    ensures !a.DialFails? && !a.DelayOver?
  {
  }

  // What breaks, and what does not.

  /** One step after another. */
  lemma Two(s: State, a: Action, b: Action)
    ensures Run(s, [a, b]) == match Apply(s, a) { case None => None case Some(t) => Apply(t, b) }
  {
    assert [a, b][..1] == [a] && [a][..0] == [];
    assert Run(s, []) == Some(s);
  }

  lemma Three(s: State, a: Action, b: Action, c: Action)
    requires Run(s, [a, b]).Some?
    ensures Run(s, [a, b, c]) == Apply(Run(s, [a, b]).value, c)
  {
    assert [a, b, c][..2] == [a, b];
  }

  lemma Four(s: State, a: Action, b: Action, c: Action, d: Action)
    requires Run(s, [a, b, c]).Some?
    ensures Run(s, [a, b, c, d]) == Apply(Run(s, [a, b, c]).value, d)
  {
    assert [a, b, c, d][..3] == [a, b, c];
  }

  /** drainReconnect goes on until it finds the channel empty: a token sent while it drains is taken as well. */
  lemma LateTokenDrained(s: State, d: Conn)
    requires s.manager.Drain? && s.token && d in s.watchers && s.watchers[d].Notifying?
    ensures Run(s, [ManagerStep, WatcherStep(d), ManagerStep, ManagerStep])
         == Some(s.(token := false, manager := Check, watchers := s.watchers[d := Gone]))
  {
    hide Run;
    Two(s, ManagerStep, WatcherStep(d));
    Three(s, ManagerStep, WatcherStep(d), ManagerStep);
    Four(s, ManagerStep, WatcherStep(d), ManagerStep, ManagerStep);
  }

  /** A dial that fails leaves everything as it was once the delay is over or a token has come. */
  lemma FailedDialRetries(s: State)
    requires Inv(s) && s.manager.Dial? && s.MutexFree()
    ensures Run(s, [DialFails, DelayOver, ManagerStep]) == Some(s)
    ensures s.token ==> Run(s, [DialFails, ManagerStep, ManagerStep]) == Some(s.(token := false))
  {
    Two(s, DialFails, DelayOver);
    Three(s, DialFails, DelayOver, ManagerStep);
    if s.token {
      Two(s, DialFails, ManagerStep);
      Three(s, DialFails, ManagerStep, ManagerStep);
    }
  }

  /** A batch is written to the lane's connection if it has one; a write that succeeds leaves everything as it was. */
  lemma GoodWriteHarmless(s: State, any: bool)
    requires s.writer.Outside?
    ensures s.conn.Some? ==>
              && Apply(s, WriterStep(any)) == Some(s.(writer := Writing(s.conn.value)))
              && Run(s, [WriterStep(any), WriterStep(true)]) == Some(s)
    ensures s.conn.None? ==> Apply(s, WriterStep(any)) == Some(s)
  {
    Two(s, WriterStep(any), WriterStep(true));
  }

  /** A write that fails closes the connection, once, takes it from the lane and sends a token. */
  lemma FailedWriteDrops(s: State, c: Conn, x: bool, y: bool)
    requires Inv(s) && s.writer == Writing(c)
    ensures var t := Run(s, [WriterStep(false), WriterStep(x), WriterStep(y)]);
            && t.Some? && t.value.conn == None && t.value.token && t.value.MutexFree() && t.value.manager == s.manager
            && s.closes[c] == 0 && t.value.closes == s.closes + multiset{c}
  {
    hide NoLostWakeup, Watched;
    Two(s, WriterStep(false), WriterStep(x));
    Three(s, WriterStep(false), WriterStep(x), WriterStep(y));
  }

  /** A Read that returns on the lane's connection does the same through the connection's watcher, once the mutex is
      free. */
  lemma BrokenReadDrops(s: State, c: Conn)
    requires Inv(s) && s.conn == Some(c) && c in s.watchers && s.watchers[c].Reading? && s.MutexFree()
    ensures var t := Run(s, [WatcherStep(c), WatcherStep(c), WatcherStep(c)]);
            && t.Some? && Inv(t.value) && t.value.conn == None && t.value.token && t.value.manager == s.manager
            && s.closes[c] == 0 && t.value.closes == s.closes + multiset{c} && t.value.dialled == s.dialled
  {
    hide NoLostWakeup, Watched;
    Two(s, WatcherStep(c), WatcherStep(c));
    Three(s, WatcherStep(c), WatcherStep(c), WatcherStep(c));
    var t1 := Apply(s, WatcherStep(c)).value;
    ApplyKeeps(s, WatcherStep(c));
    var t2 := Apply(t1, WatcherStep(c)).value;
    ApplyKeeps(t1, WatcherStep(c));
    ApplyKeeps(t2, WatcherStep(c));
  }
}

/** A lane without a connection gets back to dialling on every schedule, not just on a suitable one: each step
    that changes anything brings it nearer, and there is always such a step. */
module SupervisionProgress {
  import opened Bytes
  import opened Supervision
  import opened SupervisionSafety

  /** The manager is about to dial, or has just dialled. */
  predicate Reached(s: State) {
    s.manager.Dial? || s.manager.Have?
  }

  function WatchersAt(s: State, w: Watcher): set<Conn> {
    set c | c in s.watchers && s.watchers[c] == w
  }

  /** What the watchers may still do: each step of one costs more than the token it may send gives back. */
  function WatcherWork(s: State): nat {
    6 * |WatchersAt(s, Reading)| + 4 * |WatchersAt(s, Woken)| + 2 * |WatchersAt(s, Notifying)|
  }

  function OtherWork(s: State): nat {
    (if s.token then 1 else 0) + (if s.writer.Notify? then 2 else 0)
    + match s.manager
      case Check => 1
      case Wait => 2
      case Backoff => 2
      case Drain => 2
      case Spawn(_) => 9
      case Dial => 0
      case Have(_) => 0
  }

  /** A bound on the steps left before the manager dials. */
  function Remaining(s: State): nat {
    WatcherWork(s) + OtherWork(s)
  }

  lemma OneMoves(s: State, t: State, c: Conn, to: Watcher)
    requires c in s.watchers && t.watchers == s.watchers[c := to] && s.watchers[c] != to
    ensures |WatchersAt(t, s.watchers[c])| == |WatchersAt(s, s.watchers[c])| - 1
    ensures |WatchersAt(t, to)| == |WatchersAt(s, to)| + 1
    ensures forall w: Watcher :: w != s.watchers[c] && w != to ==> WatchersAt(t, w) == WatchersAt(s, w)
  {
    assert WatchersAt(t, s.watchers[c]) == WatchersAt(s, s.watchers[c]) - {c};
    assert WatchersAt(t, to) == WatchersAt(s, to) + {c};
  }

  lemma WatcherMoves(s: State, c: Conn)
    requires s.conn.None? && StepWatcher(s, c).Some?
    ensures var t := StepWatcher(s, c).value;
            && t.conn.None? && t.manager == s.manager && t.writer == s.writer
            && WatcherWork(t) + 2 <= WatcherWork(s) && (t.token ==> s.token || s.watchers[c].Notifying?)
  {
    hide WatchersAt;
    OneMoves(s, StepWatcher(s, c).value, c, StepWatcher(s, c).value.watchers[c]);
  }

  lemma NewWatcher(s: State, t: State, c: Conn)
    requires c !in s.watchers && t.watchers == s.watchers[c := Reading]
    ensures WatcherWork(t) == WatcherWork(s) + 6
  {
    assert WatchersAt(t, Reading) == WatchersAt(s, Reading) + {c};
    assert forall w: Watcher :: w != Reading ==> WatchersAt(t, w) == WatchersAt(s, w);
  }

  lemma SameWatchers(s: State, t: State)
    requires t.watchers == s.watchers
    ensures WatcherWork(t) == WatcherWork(s)
  {
    assert forall w: Watcher :: WatchersAt(t, w) == WatchersAt(s, w);
  }

  /** Any step of any thread: it changes nothing, or it brings the lane nearer to dialling. */
  lemma EveryStepCounts(s: State, a: Action)
    requires Inv(s) && s.conn.None? && !Reached(s) && Apply(s, a).Some?
    ensures var t := Apply(s, a).value; t == s || (t.conn.None? && Remaining(t) < Remaining(s))
  {
    hide WatcherWork;
    NoWriteWithoutConn(s);
    var t := Apply(s, a).value;
    if a.WatcherStep? {
      WatcherMoves(s, a.c);
    } else if a.ManagerStep? && s.manager.Spawn? {
      NewWatcher(s, t, s.manager.c);
    } else {
      SameWatchers(s, t);
    }
  }

  /** How many steps of a run change the state. */
  function Moves(s: State, actions: seq<Action>): nat
    requires Run(s, actions).Some?
  {
    if |actions| == 0 then 0
    else
      var init := actions[..|actions| - 1];
      Moves(s, init) + if Run(s, actions) == Run(s, init) then 0 else 1
  }

  /** The run so far, unless the manager has dialled in it. */
  lemma {:induction false} StillWaiting(s: State, actions: seq<Action>) returns (k: Option<nat>)
    requires Inv(s) && s.conn.None? && Run(s, actions).Some?
    ensures k.Some? ==>
              && k.value <= |actions| && Run(s, actions[..k.value]).Some?
              && Reached(Run(s, actions[..k.value]).value) && Run(s, actions[..k.value]).value.conn.None?
    ensures k.None? ==>
              var t := Run(s, actions).value;
              Inv(t) && t.conn.None? && !Reached(t) && Remaining(t) + Moves(s, actions) <= Remaining(s)
    decreases |actions|
  {
    hide Inv, Apply, Remaining;
    if |actions| == 0 {
      k := if Reached(s) then Some(0) else None;
      assert actions[..0] == actions;
    } else {
      var n := |actions| - 1;
      var init, last := actions[..n], actions[n];
      k := StillWaiting(s, init);
      if k.Some? {
        assert init[..k.value] == actions[..k.value];
      } else {
        var t := Run(s, init).value;
        EveryStepCounts(t, last);
        ApplyKeeps(t, last);
        if Reached(Run(s, actions).value) {
          k := Some(n + 1);
          assert actions[..n + 1] == actions;
        }
      }
    }
  }

  /** Every schedule, from every state without a connection: once more steps have changed something than
      Remaining allows, the manager has dialled on the way. */
  lemma EveryScheduleDials(s: State, actions: seq<Action>) returns (k: nat)
    requires Inv(s) && s.conn.None? && Run(s, actions).Some? && Moves(s, actions) > Remaining(s)
    ensures k <= |actions| && Run(s, actions[..k]).Some?
    ensures Reached(Run(s, actions[..k]).value) && Run(s, actions[..k]).value.conn.None?
  {
    var r := StillWaiting(s, actions);
    k := r.value;
  }

  /** And no such state is stuck: some thread can take a step that changes it, without new traffic, a dial or a
      watcher's Read returning. */
  lemma NeverStuck(s: State) returns (a: Action)
    requires Inv(s) && s.conn.None? && !Reached(s)
    ensures Apply(s, a).Some? && Apply(s, a).value != s
    ensures !a.DialFails? && (a.WatcherStep? ==> a.c in s.watchers && s.watchers[a.c].Notifying?)
  {
    OnwardStep(s);
    a := Onward(s);
  }
}

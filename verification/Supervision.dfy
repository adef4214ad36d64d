/** Supervision of one upstream lane's connection (internal/client/client.go): the manager that dials,
    one watcher per dialled connection, the batch writer, the one-place reconnect channel and the lane's
    mutex, as atomic steps that interleave in any way. Stop is not part of this model. */
module Supervision {
  import opened Bytes

  type Conn = nat   // connections are numbered in the order they are dialled

  datatype Manager =
    | Check             // about to look at lane.conn
    | Wait              // saw a connection: blocked on the reconnect channel
    | Dial
    | Backoff           // dialling failed: waiting for a delay or a token
    | Have(c: Conn)     // dialled, not yet stored
    | Spawn(c: Conn)    // stored, watcher not yet started
    | Drain             // emptying the reconnect channel

  datatype Watcher =
    | Reading           // blocked in Read
    | Woken             // Read has returned
    | Notifying         // about to send a token
    | Gone

  datatype Writer =
    | Outside
    | Writing(c: Conn)  // holds the mutex, writing to c
    | Failed(c: Conn)   // holds the mutex, the write failed
    | Notify            // holds the mutex, about to send a token

  /** closes counts the Close calls made on each connection. */
  datatype State = State(
    conn: Option<Conn>, token: bool, manager: Manager, watchers: map<Conn, Watcher>, writer: Writer,
    dialled: nat, closes: multiset<Conn>)
  {
    predicate MutexFree() {
      writer.Outside?
    }
  }

  datatype Action =
    | ManagerStep
    | DialFails
    | DelayOver                    // the backoff delay ends without a token
    | WatcherStep(c: Conn)
    | WriterStep(ok: bool)

  const INITIAL: State := State(None, false, Check, map[], Outside, 0, multiset{})

  function StepManager(s: State): Option<State> {
    match s.manager
    case Check =>
      if !s.MutexFree() then None
      else Some(s.(manager := if s.conn.Some? then Wait else Dial))
    case Wait => if s.token then Some(s.(token := false, manager := Check)) else None
    case Dial => Some(s.(manager := Have(s.dialled), dialled := s.dialled + 1))
    case Backoff => if s.token then Some(s.(token := false, manager := Check)) else None
    case Have(c) =>
      if !s.MutexFree() then None else Some(s.(conn := Some(c), manager := Spawn(c)))
    case Spawn(c) => Some(s.(watchers := s.watchers[c := Reading], manager := Drain))
    case Drain =>
      Some(if s.token then s.(token := false) else s.(manager := Check))
  }

  function StepWatcher(s: State, c: Conn): Option<State> {
    if c !in s.watchers then None
    else
      match s.watchers[c]
      case Reading => Some(s.(watchers := s.watchers[c := Woken]))
      case Woken =>
        if !s.MutexFree() then None
        else
          var t := s.(watchers := s.watchers[c := Notifying]);
          Some(if s.conn == Some(c) then t.(conn := None, closes := s.closes + multiset{c}) else t)
      case Notifying => Some(s.(watchers := s.watchers[c := Gone], token := true))
      case Gone => None
  }

  function StepWriter(s: State, ok: bool): Option<State> {
    match s.writer
    case Outside => Some(if s.conn.Some? then s.(writer := Writing(s.conn.value)) else s)
    case Writing(c) => Some(s.(writer := if ok then Outside else Failed(c)))
    case Failed(c) => Some(s.(closes := s.closes + multiset{c}, conn := None, writer := Notify))
    case Notify => Some(s.(token := true, writer := Outside))
  }

  function Apply(s: State, a: Action): Option<State> {
    match a
    case ManagerStep => StepManager(s)
    case DialFails => if s.manager.Dial? then Some(s.(manager := Backoff)) else None
    case DelayOver => if s.manager.Backoff? then Some(s.(manager := Check)) else None
    case WatcherStep(c) => StepWatcher(s, c)
    case WriterStep(ok) => StepWriter(s, ok)
  }

  function Run(s: State, actions: seq<Action>): Option<State> {
    if |actions| == 0 then Some(s)
    else
      match Run(s, actions[..|actions| - 1])
      case None => None
      case Some(t) => Apply(t, actions[|actions| - 1])
  }

  /** Somebody is about to send a token. */
  ghost predicate TokenComing(s: State) {
    s.writer.Notify? || exists c :: c in s.watchers && s.watchers[c].Notifying?
  }

  ghost predicate NoLostWakeup(s: State) {
    s.manager.Wait? && s.conn.None? ==> s.token || TokenComing(s)
  }

  /** Every dialled connection is the lane's, is in the manager's hands, or has been closed once; the
      lane's and the manager's are open. */
  ghost predicate NoLeak(s: State) {
    && (forall c: Conn :: c < s.dialled ==> s.conn == Some(c) || s.manager == Have(c) || s.closes[c] == 1)
    && (forall c: Conn :: s.conn == Some(c) || s.manager == Have(c) ==> c < s.dialled && s.closes[c] == 0)
    && (forall c: Conn :: c >= s.dialled ==> s.closes[c] == 0)
  }

  /** Each connection has its own watcher, except while the manager still has to start it. */
  ghost predicate Watched(s: State) {
    && (forall c: Conn :: c in s.watchers ==> c < s.dialled)
    && (forall c: Conn :: c < s.dialled && s.manager != Have(c) && s.manager != Spawn(c) ==> c in s.watchers)
    && (s.manager.Have? || s.manager.Spawn? ==> s.manager.c == s.dialled - 1 && s.manager.c !in s.watchers)
  }

  ghost predicate Inv(s: State) {
    && NoLostWakeup(s) && NoLeak(s) && Watched(s)
    && (s.manager.Dial? || s.manager.Backoff? || s.manager.Have? ==> s.conn.None?)
    && (s.writer.Writing? || s.writer.Failed? ==> s.conn == Some(s.writer.c))
    && (s.writer.Notify? ==> s.conn.None?)
  }
}

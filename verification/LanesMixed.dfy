/** What a connection that names more than one lane leaves behind, for any list of messages on it. Conforming
    clients name one lane per connection. */
module LanesMixed {
  import opened Bytes
  import opened Control
  import opened Lanes
  import opened LaneServers

  function LastContext(n: nat, ctx: Option<nat>, ctrls: seq<LaneControl>): Option<nat>
    decreases |ctrls|
  {
    if |ctrls| == 0 then ctx else LastContext(n, Context(n, ctx, ctrls[0]), ctrls[1..])
  }

  /** The lanes the messages give the connection to. */
  function Given(n: nat, ctx: Option<nat>, ctrls: seq<LaneControl>): set<nat>
    decreases |ctrls|
  {
    if |ctrls| == 0 then {}
    else
      (if Admitted(n, ctx, ctrls[0]) then {ctrls[0].laneId as nat} else {})
      + Given(n, Context(n, ctx, ctrls[0]), ctrls[1..])
  }

  /** All the messages on the connection, handled one after the other. */
  function Served(s: State, c: Conn): State
    decreases if c in s.links then |s.links[c].wire| else 0
  {
    if !HasFrame(s, c) then s
    else
      HandledFrame(s, c);
      Served(HandleFrame(s, c), c)
  }

  lemma {:induction false} ServedGives(s: State, c: Conn)
    requires c in s.links && s.links[c].open && s.links[c].work.Rest?
    ensures var t, link := Served(s, c), s.links[c];
            && c in t.links && t.links[c].open && t.links[c].work.Rest? && |t.writers| == |s.writers|
            && t.links[c].ctxLane == LastContext(|s.writers|, link.ctxLane, link.wire)
            && (forall l: nat :: l < |s.writers| ==>
                  (t.writers[l] == Some(c) <==>
                   l in Given(|s.writers|, link.ctxLane, link.wire) || s.writers[l] == Some(c)))
    decreases |s.links[c].wire|
  {
    hide Stored, HandleFrame;
    if HasFrame(s, c) {
      HandledFrame(s, c);
      ServedGives(HandleFrame(s, c), c);
    }
  }

  /** After any messages and then the close, some writer still refers to the connection exactly when a lane it was
      given to, then or before, is not the one its context names in the end. */
  lemma DanglesExactly(s: State, c: Conn)
    requires c in s.links && s.links[c].open && s.links[c].work.Rest?
    ensures var n, link := |s.writers|, s.links[c];
            var last, given, end := LastContext(n, link.ctxLane, link.wire), Given(n, link.ctxLane, link.wire),
                                    StepClose(Served(s, c), c);
            && end.Some? && |end.value.writers| == n
            && ((exists l: nat :: l < n && end.value.writers[l] == Some(c)) <==>
                (exists l: nat :: l < n && (l in given || s.writers[l] == Some(c)) && last != Some(l)))
  {
    hide Served, LastContext, Given;
    ServedGives(s, c);
    var t, end := Served(s, c), StepClose(Served(s, c), c).value;
    forall l: nat | l < |s.writers|
      ensures end.writers[l] == Some(c) <==> t.writers[l] == Some(c) && t.links[c].ctxLane != Some(l)
    {
    }
  }
}

/** When the last presence write is right over a whole run: exactly as long as no heartbeat speaks for a user who
    has no socket left. */
module GatewayPresence {
  import opened Gateway

  /** A heartbeat handled for user u while u has no registered socket. */
  predicate Stray(s: State, e: Event, u: User) {
    Enabled(s, e) && e.Heartbeat? && u !in s.userSocketMap
    && (if e.socket in s.socketAuthMap then s.socketAuthMap[e.socket] else s.tokens[e.socket]) == u
  }

  lemma HeartbeatStep(s: State, k: Socket, u: User)
    requires k in s.tokens && PresenceRight(s, u)
    ensures PresenceRight(OnHeartbeat(s, k), u) <==> !Stray(s, Heartbeat(k), u)
  {
    LastWriteSnoc(s.writes, Presence(UserOf(s, k).value, true), u);
  }

  /** From right presence a step goes wrong if and only if it is a stray heartbeat. */
  lemma PresenceStepIff(s: State, e: Event, u: User)
    requires Invariant(s) && PresenceRight(s, u)
    ensures PresenceRight(Step(s, e), u) <==> !Stray(s, e, u)
  {
    if Enabled(s, e) {
      match e
      case Heartbeat(k) => HeartbeatStep(s, k, u);
      case _ => PresenceKeeps(s, e, u);
    }
  }

  ghost predicate RightAt(events: seq<Event>, n: nat, u: User)
    requires n <= |events|
  {
    PresenceRight(Run(events[..n]), u)
  }

  /** At every await point of the run the last presence write is right. */
  ghost predicate AlwaysRight(events: seq<Event>, u: User) {
    forall n :: 0 <= n <= |events| ==> RightAt(events, n, u)
  }

  ghost predicate InOrderAt(events: seq<Event>, i: nat, u: User)
    requires i < |events|
  {
    !Stray(Run(events[..i]), events[i], u)
  }

  ghost predicate NeverStray(events: seq<Event>, u: User) {
    forall i :: 0 <= i < |events| ==> InOrderAt(events, i, u)
  }

  lemma AlwaysRightSnoc(events: seq<Event>, u: User)
    requires events != []
    ensures AlwaysRight(events, u) <==> AlwaysRight(events[..|events| - 1], u) && PresenceRight(Run(events), u)
  {
    var n := |events| - 1;
    forall k | 0 <= k <= n
      ensures RightAt(events[..n], k, u) <==> RightAt(events, k, u)
    {
      assert events[..n][..k] == events[..k];
    }
    assert events[..n + 1] == events;
    assert RightAt(events, n + 1, u) <==> PresenceRight(Run(events), u);
  }

  lemma NeverStraySnoc(events: seq<Event>, u: User)
    requires events != []
    ensures NeverStray(events, u)
       <==> NeverStray(events[..|events| - 1], u) && !Stray(Run(events[..|events| - 1]), events[|events| - 1], u)
  {
    var n := |events| - 1;
    forall i | 0 <= i < n
      ensures InOrderAt(events[..n], i, u) <==> InOrderAt(events, i, u)
    {
      assert events[..n][..i] == events[..i];
    }
    assert InOrderAt(events, n, u) <==> !Stray(Run(events[..n]), events[n], u);
  }

  /** Over any interleaving: presence is right at every await point if and only if no heartbeat was stray. Late
      heartbeats of users who still have another socket do no harm. */
  lemma {:induction false} RunPresenceIff(events: seq<Event>, u: User)
    ensures AlwaysRight(events, u) <==> NeverStray(events, u)
  {
    if events == [] {
      assert events[..0] == [];
    } else {
      var n := |events| - 1;
      RunPresenceIff(events[..n], u);
      RunInvariant(events[..n]);
      AlwaysRightSnoc(events, u);
      NeverStraySnoc(events, u);
      if AlwaysRight(events[..n], u) {
        assert RightAt(events[..n], n, u) && events[..n][..n] == events[..n];
        PresenceStepIff(Run(events[..n]), events[n], u);
      }
    }
  }
}

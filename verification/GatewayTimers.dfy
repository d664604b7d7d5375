/** Heartbeat timers: when one is left behind for a socket that is gone, and whose timers a change touches. */
module GatewayTimers {
  import opened Gateway

  // ---------------------------------------------------------------- timers of dead sockets

  /** Every socket that a timer is kept for is connected or has a disconnect in flight. */
  ghost predicate NoDeadTimer(s: State) {
    s.heartbeatTimeouts.Keys <= s.live + s.disconnecting
  }

  /** A handler that sets a timer runs for a socket whose disconnect is already over. */
  predicate Late(s: State, e: Event) {
    Enabled(s, e) && (e.ResumeConnect? || e.Heartbeat?) && e.socket !in s.live + s.disconnecting
  }

  /** A step leaves the first timer for a dead socket if and only if it is late. */
  lemma DeadTimerIff(s: State, e: Event)
    requires Invariant(s) && NoDeadTimer(s)
    ensures NoDeadTimer(Step(s, e)) <==> !Late(s, e)
  {
    if Late(s, e) {
      assert e.socket in Step(s, e).heartbeatTimeouts.Keys;
    } else if Enabled(s, e) && e.Disconnect? {
      DisconnectTimers(s, e.socket);
    }
  }

  lemma DisconnectTimers(s: State, k: Socket)
    requires Invariant(s) && NoDeadTimer(s) && k in s.live
    ensures NoDeadTimer(OnDisconnect(s, k))
  {
    assert k in s.socketAuthMap && k in SocketsOf(s, s.socketAuthMap[k]);
  }

  /** Whatever has a timer or is about to get one has connected before. */
  ghost predicate TimersCovered(s: State) {
    s.heartbeatTimeouts.Keys <= s.tokens.Keys && s.connecting <= s.tokens.Keys
  }

  lemma CoveredKeeps(s: State, e: Event)
    requires TimersCovered(s)
    ensures TimersCovered(Step(s, e))
  {
  }

  /** Socket ids do not come back, so nothing ever clears such a timer's entry. */
  lemma DeadTimerStays(s: State, e: Event)
    requires Invariant(s) && TimersCovered(s) && !NoDeadTimer(s)
    ensures !NoDeadTimer(Step(s, e))
  {
    var k :| k in s.heartbeatTimeouts.Keys && k !in s.live + s.disconnecting;
    assert k in Step(s, e).heartbeatTimeouts.Keys;
  }

  /** In any interleaving: no entry of a dead socket is kept if and only if no handler was late. */
  lemma {:induction false} RunDeadTimerIff(events: seq<Event>)
    ensures TimersCovered(Run(events))
    ensures NoDeadTimer(Run(events)) <==> NeverLate(events)
  {
    if events != [] {
      var init, e := events[..|events| - 1], events[|events| - 1];
      RunDeadTimerIff(init);
      RunInvariant(init);
      CoveredKeeps(Run(init), e);
      NeverLateSnoc(events);
      if NoDeadTimer(Run(init)) {
        DeadTimerIff(Run(init), e);
      } else {
        DeadTimerStays(Run(init), e);
      }
    }
  }

  /** No handler of the run was late when it ran. */
  ghost predicate NeverLate(events: seq<Event>) {
    forall i :: 0 <= i < |events| ==> OnTime(events, i)
  }

  ghost predicate OnTime(events: seq<Event>, i: nat)
    requires i < |events|
  {
    !Late(Run(events[..i]), events[i])
  }

  lemma NeverLateSnoc(events: seq<Event>)
    requires events != []
    ensures NeverLate(events)
       <==> NeverLate(events[..|events| - 1]) && !Late(Run(events[..|events| - 1]), events[|events| - 1])
  {
    var n := |events| - 1;
    forall i | 0 <= i < n
      ensures OnTime(events[..n], i) <==> OnTime(events, i)
    {
      assert events[..n][..i] == events[..i];
    }
    assert OnTime(events, n) <==> !Late(Run(events[..n]), events[n]);
  }

  // ---------------------------------------------------------------- whose timers change

  /** No two sockets are mapped to one timer. */
  ghost predicate OwnTimers(s: State) {
    forall j, k :: j in s.heartbeatTimeouts && k in s.heartbeatTimeouts && j != k ==>
      s.heartbeatTimeouts[j] != s.heartbeatTimeouts[k]
  }

  lemma OwnTimersKeep(s: State, e: Event)
    requires TimersMapped(s) && OwnTimers(s)
    ensures OwnTimers(Step(s, e))
  {
  }

  lemma {:induction false} RunOwnTimers(events: seq<Event>)
    ensures OwnTimers(Run(events))
  {
    if events != [] {
      RunOwnTimers(events[..|events| - 1]);
      RunInvariant(events[..|events| - 1]);
      OwnTimersKeep(Run(events[..|events| - 1]), events[|events| - 1]);
    }
  }

  /** The pending timers of a socket. */
  ghost function TimersOf(pending: map<Timer, Socket>, k: Socket): set<Timer> {
    set t | t in pending && pending[t] == k
  }

  /** Clearing takes a socket's only timer and no other's. */
  lemma ClearTimers(s: State, k: Socket, j: Socket)
    requires TimersMapped(s) && OwnTimers(s)
    ensures var t := ClearHeartbeatTimeout(s, k);
            TimersOf(t.pendingTimers, j) == if j == k then {} else TimersOf(s.pendingTimers, j)
  {
  }

  /** Setting leaves a socket with exactly one timer, the mapped one, and every other socket with its own. */
  lemma SetupTimers(s: State, k: Socket, j: Socket)
    requires TimersMapped(s) && OwnTimers(s)
    ensures var t := SetupHeartbeatTimeout(s, k);
            TimersOf(t.pendingTimers, j) == if j == k then {t.heartbeatTimeouts[k]} else TimersOf(s.pendingTimers, j)
  {
    ClearTimers(s, k, j);
    var c, t := ClearHeartbeatTimeout(s, k), SetupHeartbeatTimeout(s, k);
    assert c.nextTimer !in c.pendingTimers;
    AddedTimer(c.pendingTimers, c.nextTimer, k, j);
  }

  lemma AddedTimer(pending: map<Timer, Socket>, t: Timer, k: Socket, j: Socket)
    requires t !in pending
    ensures TimersOf(pending[t := k], j) == if j == k then TimersOf(pending, j) + {t} else TimersOf(pending, j)
  {
  }
}

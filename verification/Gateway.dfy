/** The WebSocket gateway as an event loop. A handler runs without interruption from one await to the next,
    so each stretch between awaits is one step, and steps of different handlers interleave freely. */
module Gateway {
  import opened Sequences

  type User = string
  type Socket = string
  type Timer = nat

  /** A presence write in the order it was issued to Redis. */
  datatype Presence = Presence(user: User, online: bool)

  datatype State = State(
    userSocketMap: map<User, set<Socket>>,
    socketAuthMap: map<Socket, User>,
    heartbeatTimeouts: map<Socket, Timer>,
    pendingTimers: map<Timer, Socket>,     // timers that are set and neither cleared nor fired
    nextTimer: Timer,
    writes: seq<Presence>,
    live: set<Socket>,                     // sockets whose disconnect event is still to come
    tokens: map<Socket, User>,             // the user in a socket's verified token, kept for good
    connecting: set<Socket>,               // handleConnection waits for its presence write
    disconnecting: set<Socket>)            // handleDisconnect waits for its presence write

  const Initial := State(map[], map[], map[], map[], 0, [], {}, map[], {}, {})

  datatype Event =
    | Connect(socket: Socket, user: User)
    | ResumeConnect(socket: Socket)
    | Disconnect(socket: Socket)
    | ResumeDisconnect(socket: Socket)
    | Heartbeat(socket: Socket)
    | Fire(timer: Timer)

  // ---------------------------------------------------------------- the pieces handlers are made of

  function SocketsOf(s: State, u: User): set<Socket> {
    if u in s.userSocketMap then s.userSocketMap[u] else {}
  }

  function ClearHeartbeatTimeout(s: State, k: Socket): State {
    if k !in s.heartbeatTimeouts then s
    else s.(pendingTimers := s.pendingTimers - {s.heartbeatTimeouts[k]}, heartbeatTimeouts := s.heartbeatTimeouts - {k})
  }

  function SetupHeartbeatTimeout(s: State, k: Socket): State {
    var c := ClearHeartbeatTimeout(s, k);
    c.(pendingTimers := c.pendingTimers[c.nextTimer := k],
       heartbeatTimeouts := c.heartbeatTimeouts[k := c.nextTimer],
       nextTimer := c.nextTimer + 1)
  }

  function WritePresence(s: State, u: User, online: bool): State {
    s.(writes := s.writes + [Presence(u, online)])
  }

  /** The end of handleDisconnect. */
  function Forget(s: State, k: Socket): State {
    ClearHeartbeatTimeout(s.(socketAuthMap := s.socketAuthMap - {k}), k)
  }

  /** The user a handler takes a socket for: the registration first, the token otherwise. */
  function UserOf(s: State, k: Socket): Option<User> {
    if k in s.socketAuthMap then Some(s.socketAuthMap[k])
    else if k in s.tokens then Some(s.tokens[k]) else None
  }

  // ---------------------------------------------------------------- steps

  /** Which events can happen. A heartbeat may come late: its guard runs before the handler does. */
  predicate Enabled(s: State, e: Event) {
    match e
    case Connect(k, u) => k !in s.tokens
    case ResumeConnect(k) => k in s.connecting
    case Disconnect(k) => k in s.live
    case ResumeDisconnect(k) => k in s.disconnecting
    case Heartbeat(k) => k in s.tokens
    case Fire(t) => t in s.pendingTimers
  }

  function OnConnect(s: State, k: Socket, u: User): State {
    WritePresence(
      s.(userSocketMap := s.userSocketMap[u := SocketsOf(s, u) + {k}],
         socketAuthMap := s.socketAuthMap[k := u],
         live := s.live + {k}, tokens := s.tokens[k := u], connecting := s.connecting + {k}),
      u, true)
  }

  function OnResumeConnect(s: State, k: Socket): State {
    SetupHeartbeatTimeout(s.(connecting := s.connecting - {k}), k)
  }

  function OnDisconnect(s: State, k: Socket): State {
    var gone := s.(live := s.live - {k});
    if k !in s.socketAuthMap || s.socketAuthMap[k] !in s.userSocketMap then Forget(gone, k)
    else
      var u := s.socketAuthMap[k];
      if s.userSocketMap[u] - {k} == {} then
        WritePresence(gone.(userSocketMap := s.userSocketMap - {u}, disconnecting := s.disconnecting + {k}), u, false)
      else
        Forget(gone.(userSocketMap := s.userSocketMap[u := s.userSocketMap[u] - {k}]), k)
  }

  function OnResumeDisconnect(s: State, k: Socket): State {
    Forget(s.(disconnecting := s.disconnecting - {k}), k)
  }

  function OnHeartbeat(s: State, k: Socket): State {
    if UserOf(s, k).None? then s
    else WritePresence(SetupHeartbeatTimeout(s, k), UserOf(s, k).value, true)
  }

  function OnFire(s: State, t: Timer): State {
    s.(pendingTimers := s.pendingTimers - {t})
  }

  /** An event that cannot happen changes nothing. */
  function Step(s: State, e: Event): State {
    if !Enabled(s, e) then s
    else
      match e
      case Connect(k, u) => OnConnect(s, k, u)
      case ResumeConnect(k) => OnResumeConnect(s, k)
      case Disconnect(k) => OnDisconnect(s, k)
      case ResumeDisconnect(k) => OnResumeDisconnect(s, k)
      case Heartbeat(k) => OnHeartbeat(s, k)
      case Fire(t) => OnFire(s, t)
  }

  function Run(events: seq<Event>): State {
    if events == [] then Initial else Step(Run(events[..|events| - 1]), events[|events| - 1])
  }

  // ---------------------------------------------------------------- what holds at every await point

  /** The two maps are inverse to each other, but for sockets whose disconnect awaits its presence write. */
  ghost predicate MapsInverse(s: State) {
    && (forall u :: u in s.userSocketMap ==> s.userSocketMap[u] != {})
    && (forall u, k :: u in s.userSocketMap && k in s.userSocketMap[u] ==>
         k in s.socketAuthMap && s.socketAuthMap[k] == u)
    && (forall k :: k in s.socketAuthMap ==> (k in s.disconnecting <==> k !in SocketsOf(s, s.socketAuthMap[k])))
    && s.disconnecting <= s.socketAuthMap.Keys
  }

  /** A pending timer is the one its socket is mapped to, so no socket has two. */
  ghost predicate TimersMapped(s: State) {
    && (forall t :: t in s.pendingTimers ==>
          t < s.nextTimer && s.pendingTimers[t] in s.heartbeatTimeouts && s.heartbeatTimeouts[s.pendingTimers[t]] == t)
    && (forall k :: k in s.heartbeatTimeouts ==> s.heartbeatTimeouts[k] < s.nextTimer)
  }

  /** Sockets are registered while they live, under the user of their token. */
  ghost predicate SocketsKnown(s: State) {
    && s.live <= s.tokens.Keys && s.live !! s.disconnecting
    && s.socketAuthMap.Keys == s.live + s.disconnecting
    && (forall k :: k in s.socketAuthMap ==> k in s.tokens && s.tokens[k] == s.socketAuthMap[k])
  }

  ghost predicate Invariant(s: State) {
    MapsInverse(s) && TimersMapped(s) && SocketsKnown(s)
  }

  function LastWrite(writes: seq<Presence>, u: User): Option<bool> {
    if writes == [] then None
    else if writes[|writes| - 1].user == u then Some(writes[|writes| - 1].online)
    else LastWrite(writes[..|writes| - 1], u)
  }

  /** The last presence write for a user says online exactly if the user has a socket. */
  ghost predicate PresenceRight(s: State, u: User) {
    match LastWrite(s.writes, u)
    case None => u !in s.userSocketMap
    case Some(online) => online <==> u in s.userSocketMap
  }

  lemma LastWriteSnoc(writes: seq<Presence>, w: Presence, u: User)
    ensures LastWrite(writes + [w], u) == if w.user == u then Some(w.online) else LastWrite(writes, u)
  {
    assert (writes + [w])[..|writes|] == writes;
  }

  // ---------------------------------------------------------------- preservation

  lemma ClearKeepsTimers(s: State, k: Socket)
    requires TimersMapped(s)
    ensures TimersMapped(ClearHeartbeatTimeout(s, k))
    ensures forall t :: t in ClearHeartbeatTimeout(s, k).pendingTimers ==>
              ClearHeartbeatTimeout(s, k).pendingTimers[t] != k
  {
  }

  lemma SetupKeepsTimers(s: State, k: Socket)
    requires TimersMapped(s)
    ensures TimersMapped(SetupHeartbeatTimeout(s, k))
  {
    ClearKeepsTimers(s, k);
  }

  lemma TimersKeep(s: State, e: Event)
    requires TimersMapped(s)
    ensures TimersMapped(Step(s, e))
  {
    if Enabled(s, e) {
      match e {
        case Connect(k, u) =>
        case ResumeConnect(k) => SetupKeepsTimers(s.(connecting := s.connecting - {k}), k);
        case Disconnect(k) =>
          var gone := s.(live := s.live - {k});
          if k in s.socketAuthMap && s.socketAuthMap[k] in s.userSocketMap {
            var u := s.socketAuthMap[k];
            if s.userSocketMap[u] - {k} != {} {
              ForgetKeepsTimers(gone.(userSocketMap := s.userSocketMap[u := s.userSocketMap[u] - {k}]), k);
            }
          } else {
            ForgetKeepsTimers(gone, k);
          }
        case ResumeDisconnect(k) => ForgetKeepsTimers(s.(disconnecting := s.disconnecting - {k}), k);
        case Heartbeat(k) => SetupKeepsTimers(s, k);
        case Fire(t) =>
      }
    }
  }

  lemma ForgetKeepsTimers(s: State, k: Socket)
    requires TimersMapped(s)
    ensures TimersMapped(Forget(s, k))
  {
    ClearKeepsTimers(s.(socketAuthMap := s.socketAuthMap - {k}), k);
  }

  lemma ConnectKeepsMaps(s: State, k: Socket, u: User)
    requires MapsInverse(s) && SocketsKnown(s) && k !in s.tokens
    ensures MapsInverse(OnConnect(s, k, u)) && SocketsKnown(OnConnect(s, k, u))
  {
    var t := OnConnect(s, k, u);
    assert k !in s.socketAuthMap && k !in s.disconnecting;
    assert forall w :: w != u ==> SocketsOf(t, w) == SocketsOf(s, w);
    assert SocketsOf(t, u) == SocketsOf(s, u) + {k};
    forall w, h | w in t.userSocketMap && h in t.userSocketMap[w]
      ensures h in t.socketAuthMap && t.socketAuthMap[h] == w
    {
      assert h in SocketsOf(t, w);
      assert h == k || (w in s.userSocketMap && h in s.userSocketMap[w]);
    }
    forall h | h in t.socketAuthMap
      ensures h in t.disconnecting <==> h !in SocketsOf(t, t.socketAuthMap[h])
    {
      if h != k {
        assert h in s.socketAuthMap;
      }
    }
  }

  lemma ResumeDisconnectKeepsMaps(s: State, k: Socket)
    requires MapsInverse(s) && SocketsKnown(s) && k in s.disconnecting
    ensures MapsInverse(OnResumeDisconnect(s, k)) && SocketsKnown(OnResumeDisconnect(s, k))
  {
  }

  /** Timers, writes and the wait of a connect play no part in the maps. */
  lemma MapsFrame(s: State, t: State)
    requires MapsInverse(s) && SocketsKnown(s)
    requires t.userSocketMap == s.userSocketMap && t.socketAuthMap == s.socketAuthMap
    requires t.live == s.live && t.tokens == s.tokens && t.disconnecting == s.disconnecting
    ensures MapsInverse(t) && SocketsKnown(t)
  {
    assert forall w :: SocketsOf(t, w) == SocketsOf(s, w);
  }

  lemma LastSocketGone(s: State, k: Socket)
    requires MapsInverse(s) && SocketsKnown(s) && k in s.live && s.userSocketMap[s.socketAuthMap[k]] == {k}
    ensures MapsInverse(OnDisconnect(s, k)) && SocketsKnown(OnDisconnect(s, k))
  {
    assert k in s.socketAuthMap && k !in s.disconnecting;
  }

  lemma OtherSocketsStay(s: State, k: Socket)
    requires MapsInverse(s) && SocketsKnown(s) && k in s.live
    requires s.userSocketMap[s.socketAuthMap[k]] - {k} != {}
    ensures MapsInverse(OnDisconnect(s, k)) && SocketsKnown(OnDisconnect(s, k))
  {
    assert k in s.socketAuthMap && k !in s.disconnecting;
  }

  lemma DisconnectKeepsMaps(s: State, k: Socket)
    requires MapsInverse(s) && SocketsKnown(s) && k in s.live
    ensures MapsInverse(OnDisconnect(s, k)) && SocketsKnown(OnDisconnect(s, k))
  {
    assert k in s.socketAuthMap && k !in s.disconnecting;
    var u := s.socketAuthMap[k];
    assert k in SocketsOf(s, u);
    if s.userSocketMap[u] - {k} == {} {
      assert s.userSocketMap[u] == {k};
      LastSocketGone(s, k);
    } else {
      OtherSocketsStay(s, k);
    }
  }

  lemma ConnectKeepsInvariant(s: State, k: Socket, u: User)
    requires Invariant(s) && k !in s.tokens
    ensures Invariant(OnConnect(s, k, u))
  {
    ConnectKeepsMaps(s, k, u);
  }

  lemma MapsKeep(s: State, e: Event)
    requires MapsInverse(s) && SocketsKnown(s)
    ensures MapsInverse(Step(s, e)) && SocketsKnown(Step(s, e))
  {
    if Enabled(s, e) {
      match e {
        case Connect(k, u) => ConnectKeepsMaps(s, k, u);
        case Disconnect(k) => DisconnectKeepsMaps(s, k);
        case ResumeDisconnect(k) => ResumeDisconnectKeepsMaps(s, k);
        case _ => MapsFrame(s, Step(s, e));
      }
    }
  }

  lemma ConnectPresence(s: State, k: Socket, v: User, u: User)
    requires PresenceRight(s, u)
    ensures PresenceRight(OnConnect(s, k, v), u)
  {
    LastWriteSnoc(s.writes, Presence(v, true), u);
  }

  lemma DisconnectPresence(s: State, k: Socket, u: User)
    requires Invariant(s) && PresenceRight(s, u) && k in s.live
    ensures PresenceRight(OnDisconnect(s, k), u)
  {
    assert k in s.socketAuthMap && k in SocketsOf(s, s.socketAuthMap[k]);
    LastWriteSnoc(s.writes, Presence(s.socketAuthMap[k], false), u);
  }

  lemma HeartbeatPresence(s: State, k: Socket, u: User)
    requires Invariant(s) && PresenceRight(s, u) && k in s.live
    ensures PresenceRight(OnHeartbeat(s, k), u)
  {
    assert k in s.socketAuthMap && k in SocketsOf(s, s.socketAuthMap[k]);
    LastWriteSnoc(s.writes, Presence(s.socketAuthMap[k], true), u);
  }

  /** Connects, disconnects, timers and resumed handlers keep the presence of every user right. */
  lemma PresenceKeeps(s: State, e: Event, u: User)
    requires Invariant(s) && PresenceRight(s, u)
    requires e.Heartbeat? ==> e.socket in s.live
    ensures PresenceRight(Step(s, e), u)
  {
    if Enabled(s, e) {
      match e
      case Connect(k, v) => ConnectPresence(s, k, v, u);
      case Disconnect(k) => DisconnectPresence(s, k, u);
      case Heartbeat(k) => HeartbeatPresence(s, k, u);
      case _ =>
    }
  }

  /** A heartbeat, late or not, leaves its user's presence right if and only if the user has a socket. */
  lemma HeartbeatPresenceIff(s: State, k: Socket)
    requires k in s.tokens && PresenceRight(s, UserOf(s, k).value)
    ensures PresenceRight(Step(s, Heartbeat(k)), UserOf(s, k).value) <==> UserOf(s, k).value in s.userSocketMap
  {
    LastWriteSnoc(s.writes, Presence(UserOf(s, k).value, true), UserOf(s, k).value);
  }

  // ---------------------------------------------------------------- runs

  /** At every await point of every interleaving: the maps are inverse up to disconnects in flight,
      no stored set is empty, and each socket has at most one pending timer, the mapped one. */
  lemma {:induction false} RunInvariant(events: seq<Event>)
    ensures Invariant(Run(events))
  {
    if events != [] {
      var init, e := events[..|events| - 1], events[|events| - 1];
      RunInvariant(init);
      TimersKeep(Run(init), e);
      MapsKeep(Run(init), e);
    }
  }

  /** Heartbeats come from sockets that are still connected when the handler runs. */
  ghost predicate PunctualHeartbeats(events: seq<Event>) {
    forall i :: 0 <= i < |events| && events[i].Heartbeat? ==> events[i].socket in Run(events[..i]).live
  }

  /** With punctual heartbeats the last presence write is right for every user at every await point. */
  lemma {:induction false} RunPresence(events: seq<Event>, u: User)
    requires PunctualHeartbeats(events)
    ensures PresenceRight(Run(events), u)
  {
    if events != [] {
      var n := |events| - 1;
      forall i | 0 <= i < n && events[..n][i].Heartbeat?
        ensures events[..n][i].socket in Run(events[..n][..i]).live
      {
        assert events[..n][..i] == events[..i];
      }
      RunPresence(events[..n], u);
      RunInvariant(events[..n]);
      PresenceKeeps(Run(events[..n]), events[n], u);
    }
  }

  /** Once nothing is in flight, the registered sockets are exactly the live ones and the map of users
      groups them without loss. */
  lemma QuietPoint(s: State, k: Socket)
    requires Invariant(s) && s.disconnecting == {}
    ensures k in s.live <==> k in s.socketAuthMap
    ensures k in s.live <==> exists u :: u in s.userSocketMap && k in s.userSocketMap[u]
  {
    if k in s.live {
      var u := s.socketAuthMap[k];
      assert k in SocketsOf(s, u);
      assert u in s.userSocketMap && k in s.userSocketMap[u];
    }
  }

  /** A disconnect that overtakes the connect's presence write leaves a timer behind for a dead socket. */
  lemma OvertakenConnect(s: State, k: Socket)
    requires Invariant(s) && k in s.connecting && k in s.live
    ensures var f := Step(Step(s, Disconnect(k)), ResumeDisconnect(k));
            var t := Step(f, ResumeConnect(k));
            && k !in t.live && k !in t.socketAuthMap
            && k in t.heartbeatTimeouts && t.heartbeatTimeouts[k] in t.pendingTimers
  {
    DisconnectedFully(s, k);
    var f := Step(Step(s, Disconnect(k)), ResumeDisconnect(k));
    assert Step(f, ResumeConnect(k)) == OnResumeConnect(f, k);
  }

  lemma DisconnectedFully(s: State, k: Socket)
    requires Invariant(s) && k in s.connecting && k in s.live
    ensures var f := Step(Step(s, Disconnect(k)), ResumeDisconnect(k));
            k !in f.live && k !in f.socketAuthMap && k in f.connecting
  {
    var d := OnDisconnect(s, k);
    DisconnectKeepsMaps(s, k);
    assert k in d.disconnecting <==> k in d.socketAuthMap;
    assert k !in d.live && k in d.connecting;
  }
}

/** The WebSocket gateway as an object. */
module GatewayService {
  import opened Gateway
  import opened GatewayTimers
  import opened Sequences

  /** The socket is one more of its user's and of nobody else's, and the write that says so is on its way. */
  ghost predicate Joined(s: State, t: State, k: Socket, u: User) {
    && k in t.live && k in t.socketAuthMap && t.socketAuthMap[k] == u
    && SocketsOf(t, u) == SocketsOf(s, u) + {k} && (forall w :: w != u ==> SocketsOf(t, w) == SocketsOf(s, w))
    && t.writes == s.writes + [Presence(u, true)] && k in t.connecting
  }

  lemma JoinedAfter(s: State, k: Socket, u: User)
    ensures Joined(s, OnConnect(s, k, u), k, u)
  {
  }

  /** The socket is gone. If it was the user's last the write that says so is on its way; otherwise nothing of the
      socket is left. */
  ghost predicate Left(s: State, t: State, k: Socket, u: User) {
    && k !in t.live && SocketsOf(t, u) == SocketsOf(s, u) - {k}
    && (forall w :: w != u ==> SocketsOf(t, w) == SocketsOf(s, w))
    && if SocketsOf(t, u) == {} then k in t.disconnecting && t.writes == s.writes + [Presence(u, false)]
       else && t.writes == s.writes && k !in t.disconnecting
            && k !in t.socketAuthMap && k !in t.heartbeatTimeouts
  }

  lemma LeftAfter(s: State, k: Socket)
    requires Invariant(s) && k in s.live
    ensures Left(s, OnDisconnect(s, k), k, s.tokens[k])
  {
    assert k in s.socketAuthMap && k !in s.disconnecting;
    assert k in SocketsOf(s, s.socketAuthMap[k]);
  }

  /** Each method is one stretch of a handler between two awaits. */
  class WebsocketsGateway {
    var userSocketMap: map<User, set<Socket>>
    var socketAuthMap: map<Socket, User>
    var heartbeatTimeouts: map<Socket, Timer>
    var pendingTimers: map<Timer, Socket>
    var nextTimer: Timer
    var writes: seq<Presence>
    var live: set<Socket>
    var tokens: map<Socket, User>
    var connecting: set<Socket>
    var disconnecting: set<Socket>

    ghost function Value(): State
      reads this
    {
      State(userSocketMap, socketAuthMap, heartbeatTimeouts, pendingTimers, nextTimer, writes, live, tokens,
            connecting, disconnecting)
    }

    constructor ()
      ensures Value() == Initial && Invariant(Value())
    {
      userSocketMap, socketAuthMap, heartbeatTimeouts, pendingTimers, nextTimer := map[], map[], map[], map[], 0;
      writes, live, tokens, connecting, disconnecting := [], {}, map[], {}, {};
    }

    /** Up to the wait for the presence write. */
    method HandleConnection(client: Socket, userId: User)
      requires Invariant(Value()) && client !in tokens
      modifies this
      ensures Value() == OnConnect(old(Value()), client, userId) && Invariant(Value())
      ensures Joined(old(Value()), Value(), client, userId)
    {
      ConnectKeepsInvariant(Value(), client, userId);
      JoinedAfter(Value(), client, userId);
      StoreSocket(client, userId);
      UpdateUserPresence(userId, true);
      live, tokens, connecting := live + {client}, tokens[client := userId], connecting + {client};
    }

    /** Enters the socket into both maps. */
    method StoreSocket(client: Socket, userId: User)
      modifies this`userSocketMap, this`socketAuthMap
      ensures userSocketMap == old(userSocketMap)[userId := old(SocketsOf(Value(), userId)) + {client}]
      ensures socketAuthMap == old(socketAuthMap)[client := userId]
    {
      var userSockets := {};
      if userId in userSocketMap {
        userSockets := userSocketMap[userId];
      }
      userSocketMap := userSocketMap[userId := userSockets + {client}];
      socketAuthMap := socketAuthMap[client := userId];
    }

    method ResumeConnection(client: Socket)
      requires Invariant(Value()) && client in connecting
      modifies this
      ensures Value() == OnResumeConnect(old(Value()), client) && Invariant(Value())
      ensures client in heartbeatTimeouts && heartbeatTimeouts[client] in pendingTimers
      ensures writes == old(writes) && client !in connecting
    {
      TimersKeep(Value(), ResumeConnect(client));
      MapsKeep(Value(), ResumeConnect(client));
      connecting := connecting - {client};
      SetupTimeout(client);
    }

    /** Up to the wait for the presence write, if this was the user's last socket; to the end otherwise. */
    method HandleDisconnect(client: Socket)
      requires Invariant(Value()) && client in live
      modifies this
      ensures Value() == OnDisconnect(old(Value()), client) && Invariant(Value())
      ensures Left(old(Value()), Value(), client, old(tokens)[client])
    {
      LeftAfter(Value(), client);
      TimersKeep(Value(), Disconnect(client));
      MapsKeep(Value(), Disconnect(client));
      live := live - {client};
      if client in socketAuthMap {
        var userId := socketAuthMap[client];
        if userId in userSocketMap {
          var userSockets := userSocketMap[userId] - {client};
          if userSockets == {} {
            userSocketMap := userSocketMap - {userId};
            UpdateUserPresence(userId, false);
            disconnecting := disconnecting + {client};
            return;
          }
          userSocketMap := userSocketMap[userId := userSockets];
        }
      }
      FinishDisconnect(client);
    }

    method ResumeDisconnection(client: Socket)
      requires Invariant(Value()) && client in disconnecting
      modifies this
      ensures Value() == OnResumeDisconnect(old(Value()), client) && Invariant(Value())
      ensures client !in socketAuthMap && client !in heartbeatTimeouts && client !in pendingTimers.Values
      ensures writes == old(writes)
    {
      TimersKeep(Value(), ResumeDisconnect(client));
      MapsKeep(Value(), ResumeDisconnect(client));
      disconnecting := disconnecting - {client};
      FinishDisconnect(client);
    }

    method FinishDisconnect(client: Socket)
      modifies this
      ensures Value() == Forget(old(Value()), client)
    {
      socketAuthMap := socketAuthMap - {client};
      ClearTimeout(client);
    }

    method HandleHeartbeat(client: Socket)
      requires Invariant(Value())
      modifies this
      ensures Value() == OnHeartbeat(old(Value()), client) && Invariant(Value())
      ensures if client in tokens then
                && writes == old(writes) + [Presence(tokens[client], true)]
                && client in heartbeatTimeouts && heartbeatTimeouts[client] in pendingTimers
                && heartbeatTimeouts[client] == old(nextTimer)
              else Value() == old(Value())
    {
      SetupKeepsTimers(Value(), client);
      MapsFrame(Value(), OnHeartbeat(Value(), client));
      var userId: User;
      if client in socketAuthMap {
        userId := socketAuthMap[client];
      } else if client in tokens {
        userId := tokens[client];
      } else {
        return;
      }
      SetupTimeout(client);
      UpdateUserPresence(userId, true);
    }

    method SetupTimeout(socketId: Socket)
      modifies this`heartbeatTimeouts, this`pendingTimers, this`nextTimer
      ensures Value() == SetupHeartbeatTimeout(old(Value()), socketId)
      ensures old(TimersMapped(Value()) && OwnTimers(Value())) ==>
                forall k :: TimersOf(pendingTimers, k)
                         == if k == socketId then {heartbeatTimeouts[k]} else TimersOf(old(pendingTimers), k)
    {
      if TimersMapped(Value()) && OwnTimers(Value()) {
        forall k {
          SetupTimers(Value(), socketId, k);
        }
      }
      ClearTimeout(socketId);
      var timeout := nextTimer;
      nextTimer := nextTimer + 1;
      pendingTimers := pendingTimers[timeout := socketId];
      heartbeatTimeouts := heartbeatTimeouts[socketId := timeout];
    }

    method ClearTimeout(socketId: Socket)
      modifies this`heartbeatTimeouts, this`pendingTimers
      ensures Value() == ClearHeartbeatTimeout(old(Value()), socketId)
      ensures old(TimersMapped(Value()) && OwnTimers(Value())) ==>
                forall k :: TimersOf(pendingTimers, k) == if k == socketId then {} else TimersOf(old(pendingTimers), k)
    {
      if TimersMapped(Value()) && OwnTimers(Value()) {
        forall k {
          ClearTimers(Value(), socketId, k);
        }
      }
      if socketId in heartbeatTimeouts {
        pendingTimers := pendingTimers - {heartbeatTimeouts[socketId]};
        heartbeatTimeouts := heartbeatTimeouts - {socketId};
      }
    }

    method UpdateUserPresence(userId: User, online: bool)
      modifies this`writes
      ensures Value() == WritePresence(old(Value()), userId, online)
      ensures LastWrite(writes, userId) == Some(online)
      ensures forall u :: u != userId ==> LastWrite(writes, u) == LastWrite(old(writes), u)
    {
      ghost var before := writes;
      writes := writes + [Presence(userId, online)];
      forall u
        ensures LastWrite(writes, u) == if u == userId then Some(online) else LastWrite(before, u)
      {
        LastWriteSnoc(before, Presence(userId, online), u);
      }
    }
  }
}

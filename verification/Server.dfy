/** The server in its own form: session objects whose fields the handlers set, and a table they are
    inserted into, deleted from and looped over (server/src/tcpServer.js, session.js, eventBus.js).
    Every method is proved to do to its state exactly what Presence says of the step. */
module Server {
  import opened Wrappers
  import opened ConnectionState
  import opened NetworkState
  import opened ClientView
  import opened Roster
  import P = Presence
  import opened PresenceInvariant

  class SessionObject {
    const id: nat
    var state: State
    var helloReceived: bool
    var authenticated: bool
    var playerId: string
    var displayName: string
    var lastPlayerState: Option<Snapshot>
    var resourcesReady: bool
    var lastHeartbeatAt: int
    /** The socket: whether it takes messages, and what was written to it. */
    var writable: bool
    var sent: seq<Msg>

    ghost function Value(): P.Session reads this {
      P.Session(state, helloReceived, authenticated, playerId, displayName, lastPlayerState, resourcesReady,
        lastHeartbeatAt, writable, sent)
    }

    constructor (id: nat, nowMs: int)
      ensures this.id == id && Value() == P.NewSession(nowMs)
    {
      this.id := id;
      state, helloReceived, authenticated := Connecting, false, false;
      playerId, displayName, lastPlayerState, resourcesReady := "", "", None, false;
      lastHeartbeatAt, writable, sent := nowMs, true, [];
    }

    method Send(m: Msg)
      modifies this`sent
      ensures Value() == P.Send(old(Value()), m)
    {
      if writable { sent := sent + [m]; }
    }

    method TouchHeartbeat(nowMs: int)
      modifies this`lastHeartbeatAt
      ensures Value() == old(Value()).(lastHeartbeatAt := nowMs)
    {
      lastHeartbeatAt := nowMs;
    }

    predicate IsHeartbeatExpired(nowMs: int, timeoutMs: int): (expired: bool) reads this
      ensures expired == P.IsHeartbeatExpired(Value(), nowMs, timeoutMs)
    {
      nowMs - lastHeartbeatAt > timeoutMs
    }

    /** True and applied when legal, false and ignored otherwise. */
    method TransitionTo(to: State) returns (ok: bool)
      modifies this`state
      ensures ok == IsValidTransition(old(state), to)
      ensures Value() == P.TransitionTo(old(Value()), to)
    {
      if !IsValidTransition(state, to) { return false; }
      state := to;
      ok := true;
    }
  
    /** The session's part of a hello. */
    method Greet(compatible: bool)
      modifies this
      ensures Value() == (var s := P.Send(old(Value()).(helloReceived := true), HelloAck(compatible));
        if compatible then P.TransitionTo(s, Authenticating) else s)
    {
      helloReceived := true;
      Send(HelloAck(compatible));
      if compatible {
        var ok := TransitionTo(Authenticating);
      }
    }

    /** The session's part of an `auth`. */
    method Name(playerId: string, displayName: string)
      modifies this
      ensures Value() == P.TransitionTo(
        P.Send(old(Value()).(authenticated := true, playerId := playerId, displayName := displayName),
          AuthResult(playerId, displayName)), Authenticated)
    {
      authenticated, this.playerId, this.displayName := true, playerId, displayName;
      Send(AuthResult(playerId, displayName));
      var ok := TransitionTo(Authenticated);
    }

    /** The messages a newcomer is sent about one session already there. */
    method Introduce(other: SessionObject)
      modifies this`sent
      ensures Value() == P.SendAll(old(Value()), Introduction(P.EntryOf(old(other.Value()))))
    {
      var p, name, last := other.playerId, other.displayName, other.lastPlayerState;
      Send(Broadcasted(PlayerJoined(p, name)));
      match last {
        case None =>
        case Some(s) => Send(Broadcasted(PlayerState(p, s)));
      }
    }

    /** The warning decision, the kick and `socket.end()` of a disconnect. */
    method KickOut(reason: string) returns (ok: bool)
      modifies this`state, this`sent, this`writable
      ensures ok == IsValidTransition(old(state), Disconnecting)
      ensures Value() == P.Send(P.TransitionTo(old(Value()), Disconnecting), Kick(reason)).(writable := false)
    {
      ok := TransitionTo(Disconnecting);
      Send(Kick(reason));
      writable := false;
    }
  }

  class TcpServer {
    /** Every session object a handler still holds, in the table or not. */
    var objects: map<nat, SessionObject>
    /** The keys of the `sessions` map, in insertion order. */
    var table: seq<nat>
    var announced: seq<nat>
    var rejections: nat
    /** The other ends of the sockets. */
    ghost var clients: map<nat, Client>

    ghost predicate Valid() reads this, objects.Values {
      (forall i :: i in objects ==> objects[i].id == i) && (forall i :: i in table ==> i in objects) && NoRepeats(table)
    }

    ghost function World(): P.World reads this, objects.Values {
      P.World(map i | i in objects :: objects[i].Value(), table, clients, announced, rejections)
    }

    constructor ()
      ensures Valid() && World() == P.EMPTY
    {
      objects, table, announced, rejections, clients := map[], [], [], 0, map[];
    }

    ghost predicate Holds(session: SessionObject) reads this {
      session.id in objects && objects[session.id] == session
    }

    /** Changing one session's fields is updating one entry of the world. */
    twostate lemma OnlyThat(session: SessionObject)
      requires old(Valid()) && old(Holds(session)) && unchanged(this)
      requires forall o :: o in objects.Values && o != session ==> unchanged(o)
      ensures Valid() && World() == P.Update(old(World()), session.id, session.Value())
    {
      forall i | i in objects && i != session.id ensures objects[i].Value() == old(objects[i].Value()) {
        assert objects[i] != session && objects[i] in objects.Values;
      }
    }

    /** The table's sessions up to some point, told of an event. */
    static ghost function HeardUpTo(all: map<nat, P.Session>, passed: seq<nat>, except: Option<nat>,
            e: Event): map<nat, P.Session> {
      map j | j in all ::
        if j in passed && all[j].authenticated && except != Some(j) then P.Send(all[j], Broadcasted(e)) else all[j]
    }

    static lemma HeardByNoneAndAll(w: P.World, except: Option<nat>, e: Event)
      ensures w.(all := HeardUpTo(w.all, [], except, e)) == w
      ensures w.(all := HeardUpTo(w.all, w.table, except, e)) == P.Broadcast(w, except, e)
    {
    }

    static lemma HeardNext(all: map<nat, P.Session>, passed: seq<nat>, i: nat, except: Option<nat>, e: Event)
      requires i in all && i !in passed
      ensures HeardUpTo(all, passed, except, e)[i] == all[i]
      ensures HeardUpTo(all, passed + [i], except, e) == if all[i].authenticated && except != Some(i)
        then HeardUpTo(all, passed, except, e)[i := P.Send(all[i], Broadcasted(e))]
          else HeardUpTo(all, passed, except, e)
    {
    }

    /** One turn of a broadcast. */
    method Tell(session: SessionObject, except: Option<nat>, e: Event)
      requires Valid() && Holds(session)
      modifies session
      ensures Valid()
      ensures World() == if session.authenticated && except != Some(session.id)
        then P.Update(old(World()), session.id, P.Send(old(session.Value()), Broadcasted(e))) else old(World())
      ensures session.authenticated == old(session.authenticated)
    {
      if session.authenticated && except != Some(session.id) {
        session.Send(Broadcasted(e));
        OnlyThat(session);
      }
    }

    /** `broadcastExcept`; leaving nobody out it is `broadcast`. */
    method BroadcastExcept(except: Option<nat>, e: Event)
      requires Valid()
      modifies objects.Values
      ensures Valid() && World() == P.Broadcast(old(World()), except, e)
    {
      hide P.Send, P.Broadcast, HeardUpTo;
      ghost var w := World();
      HeardByNoneAndAll(w, except, e);
      for k := 0 to |table|
        invariant Valid() && World() == w.(all := HeardUpTo(w.all, table[..k], except, e))
      {
        assert table[..k + 1] == table[..k] + [table[k]];
        HeardNext(w.all, table[..k], table[k], except, e);
        assert World().all[table[k]] == objects[table[k]].Value();
        Tell(objects[table[k]], except, e);
      }
      assert table[..|table|] == table;
    }

    /** `sessions.delete`. */
    method Delete(i: nat)
      requires Valid()
      modifies this`table
      ensures Valid() && World() == old(World()).(table := P.Without(old(table), i))
    {
      WithoutIs(table, i);
      var kept: seq<nat> := [];
      for k := 0 to |table|
        invariant kept + P.Without(table[k..], i) == P.Without(table, i)
      {
        assert table[k..][1..] == table[k + 1..];
        if table[k] != i { kept := kept + [table[k]]; }
      }
      assert kept + [] == kept;
      table := kept;
    }

    /** The warning, the kick and the end of the socket. */
    method BeginDisconnect(session: SessionObject, reason: string)
      requires Valid() && Holds(session)
      modifies this`rejections, session
      ensures Valid() && World() == P.Update(old(World()), session.id,
        P.Send(P.TransitionTo(old(session.Value()), Disconnecting), Kick(reason)).(writable := false)).(
          rejections := old(rejections) + if IsValidTransition(old(session.state), Disconnecting) then 0 else 1)
    {
      var ok := session.KickOut(reason);
      OnlyThat(session);
      if !ok { rejections := rejections + 1; }
    }

    lemma Held(session: SessionObject)
      requires Valid() && Holds(session)
      ensures session.id in World().all && World().all[session.id] == session.Value()
    {
    }

    /** Everything before the others are told. */
    method Remove(session: SessionObject, reason: string)
      requires Valid() && Holds(session)
      modifies this`rejections, this`table, session
      ensures Valid() && World() == Removed(old(World()), session.id, reason)
      ensures session.authenticated == old(session.authenticated) && session.playerId == old(session.playerId)
    {
      Held(session);
      BeginDisconnect(session, reason);
      Delete(session.id);
    }

    static ghost function Removed(w: P.World, i: nat, reason: string): P.World
      requires i in w.all
    {
      P.Update(w, i, P.Send(P.TransitionTo(w.all[i], Disconnecting), Kick(reason)).(writable := false)).(
        rejections := w.rejections + (if IsValidTransition(w.all[i].state, Disconnecting) then 0 else 1),
        table := P.Without(w.table, i))
    }

    method FinishDisconnect(session: SessionObject)
      requires Valid() && Holds(session)
      modifies this`announced, session
      ensures Valid() && World() == P.Update(old(World()), session.id,
        P.TransitionTo(old(session.Value()), Disconnected)).(announced := old(announced) + [session.id])
    {
      var ok := session.TransitionTo(Disconnected);
      OnlyThat(session);
      announced := announced + [session.id];
    }

    method DisconnectSession(session: SessionObject, reason: string)
      requires Valid() && Holds(session)
      modifies this, objects.Values
      ensures Valid() && objects == old(objects) && clients == old(clients)
      ensures World() == P.DisconnectSession(old(World()), session.id, reason)
    {
      if session.id !in table { return; }
      Held(session);
      Remove(session, reason);
      if session.authenticated {
        BroadcastExcept(Some(session.id), PlayerLeft(session.playerId));
      }
      Held(session);
      FinishDisconnect(session);
    }

    /** The session's own reply, and any change of its fields that goes with it. */
    method Reply(session: SessionObject, m: Msg)
      requires Valid() && Holds(session)
      modifies session`sent
      ensures Valid() && World() == P.Update(old(World()), session.id, P.Send(old(session.Value()), m))
    {
      session.Send(m);
      OnlyThat(session);
    }

    /** A new connection; `id` is the fresh uuid. */
    method OnConnection(id: nat, nowMs: int) returns (session: SessionObject)
      requires Valid() && id !in objects
      modifies this
      ensures Valid() && Holds(session) && fresh(session)
      ensures World() == old(World()).(all := old(World()).all[id := P.NewSession(nowMs)], table := old(table) + [id],
        clients := old(clients)[id := Waiting])
    {
      session := new SessionObject(id, nowMs);
      objects := objects[id := session];
      AppendNew(table, id);
      table := table + [id];
      clients := clients[id := Waiting];
    }

    method OnHello(session: SessionObject, version: string)
      requires Valid() && Holds(session)
      modifies this, objects.Values
      ensures Valid() && objects == old(objects) && World() == P.OnHello(old(World()), session.id, version)
    {
      Held(session);
      var compatible := P.IsProtocolCompatible(version);
      session.Greet(compatible);
      OnlyThat(session);
      if !compatible {
        DisconnectSession(session, "incompatible protocol version");
      }
    }
  
    static lemma SendAllConcat(s: P.Session, a: seq<Msg>, b: seq<Msg>)
      ensures P.SendAll(P.SendAll(s, a), b) == P.SendAll(s, a + b)
      ensures P.SendAll(s, []) == s
    {
      assert s.sent + a + b == s.sent + (a + b) && s.sent + [] == s.sent;
    }

    /** The loop over the table that tells a newcomer who is there. */
    method TellNewcomer(session: SessionObject, ghost all: map<nat, P.Session>)
      requires Valid() && Holds(session)
      requires forall j :: j in objects && j != session.id ==> j in all && all[j] == objects[j].Value()
      modifies session`sent
      ensures session.Value() == P.SendAll(old(session.Value()), P.Introductions(all, table, session.id))
    {
      ghost var named := session.Value();
      SendAllConcat(named, [], []);
      for k := 0 to |table|
        invariant P.SendAll(session.Value(), P.Introductions(all, table[k..], session.id)) ==
          P.SendAll(named, P.Introductions(all, table, session.id))
      {
        var other := objects[table[k]];
        ghost var before, rest := session.Value(), P.Introductions(all, table[k + 1..], session.id);
        assert table[k..][1..] == table[k + 1..];
        if other.id != session.id && other.authenticated {
          assert other != session && all[table[k]] == other.Value();
          SendAllConcat(before, Introduction(P.EntryOf(other.Value())), rest);
          session.Introduce(other);
        } else {
          assert P.Introductions(all, table[k..], session.id) == [] + rest;
          assert [] + rest == rest;
        }
      }
      SendAllConcat(session.Value(), [], []);
    }

    /** What an `auth` does to the session itself. */
    method Admit(session: SessionObject, playerId: string, displayName: string)
      requires Valid() && Holds(session)
      modifies session
      ensures Valid() && session.id in old(World()).all
      ensures World() == P.Update(old(World()), session.id, P.Admitted(old(World()), session.id, playerId, displayName))
    {
      Held(session);
      ghost var all := World().all;
      session.Name(playerId, displayName);
      TellNewcomer(session, all);
      OnlyThat(session);
    }

    method OnAuth(session: SessionObject, playerId: string, displayName: string)
      requires Valid() && Holds(session)
      modifies this, objects.Values
      ensures Valid() && objects == old(objects)
      ensures World() == P.OnAuth(old(World()), session.id, playerId, displayName)
    {
      Held(session);
      if !session.helloReceived {
        DisconnectSession(session, "auth before hello");
        return;
      }
      Admit(session, playerId, displayName);
      BroadcastExcept(Some(session.id), PlayerJoined(playerId, displayName));
    }

    method OnPlayerState(session: SessionObject, s: Snapshot)
      requires Valid() && Holds(session)
      modifies this, objects.Values
      ensures Valid() && objects == old(objects) && World() == P.OnPlayerStateUpdate(old(World()), session.id, s)
    {
      Held(session);
      if !session.authenticated {
        DisconnectSession(session, "player_state before authentication");
        return;
      }
      session.lastPlayerState := Some(s);
      OnlyThat(session);
      BroadcastExcept(Some(session.id), PlayerState(session.playerId, s));
    }

    method OnResourcesReady(session: SessionObject)
      requires Valid() && Holds(session)
      modifies this, objects.Values
      ensures Valid() && objects == old(objects) && World() == P.OnResourcesReady(old(World()), session.id)
    {
      Held(session);
      if !session.authenticated {
        DisconnectSession(session, "resources_ready before authentication");
        return;
      }
      session.resourcesReady := true;
      session.Send(ResourcesReadyAck);
      OnlyThat(session);
      BroadcastExcept(None, PlayerReady(session.playerId, session.displayName));
    }

    /** The message handler's switch. */
    method OnMessage(session: SessionObject, request: P.Request)
      requires Valid() && Holds(session)
      modifies this, objects.Values
      ensures Valid() && objects == old(objects) && World() == P.OnMessage(old(World()), session.id, request)
    {
      hide P.DisconnectSession, P.OnHello, P.OnAuth, P.OnPlayerStateUpdate, P.OnResourcesReady, P.Send;
      Held(session);
      match request {
        case Hello(version) => OnHello(session, version);
        case Auth(playerId, displayName) => OnAuth(session, playerId, displayName);
        case Heartbeat(nowMs) =>
          session.TouchHeartbeat(nowMs);
          session.Send(HeartbeatAck);
          OnlyThat(session);
        case ResourceManifestRequest =>
          if !session.authenticated {
            DisconnectSession(session, "resource manifest requested before authentication");
          } else {
            Reply(session, ResourceManifest);
          }
        case PlayerStateUpdate(s) => OnPlayerState(session, s);
        case ResourcesReady => OnResourcesReady(session);
        case Disconnect(reason) =>
          DisconnectSession(session, if reason == "" then "client requested disconnect" else reason);
        case Unknown(_) =>
      }
    }

    /** The socket's `close` event. */
    method OnClose(session: SessionObject)
      requires Valid() && Holds(session)
      modifies this, objects.Values
      ensures Valid() && objects == old(objects)
        && World() == P.DisconnectSession(old(World()), session.id, "connection closed")
      ensures session.id !in old(table) ==> World() == old(World())
    {
      DisconnectSession(session, "connection closed");
    }

    /** One tick of the watchdog, over a copy of the table. */
    method Watchdog(nowMs: int, timeoutMs: int)
      requires Valid()
      modifies this, objects.Values
      ensures Valid() && objects == old(objects)
        && World() == P.DisconnectExpired(old(World()), old(table), nowMs, timeoutMs)
    {
      var ids := table;
      ghost var goal := P.DisconnectExpired(World(), ids, nowMs, timeoutMs);
      assert ids[0..] == ids;
      for k := 0 to |ids|
        invariant Valid() && objects == old(objects) && forall j :: j in ids ==> j in objects
        invariant P.DisconnectExpired(World(), ids[k..], nowMs, timeoutMs) == goal
      {
        assert ids[k..][1..] == ids[k + 1..] && ids[k] in ids;
        var session := objects[ids[k]];
        Held(session);
        if session.IsHeartbeatExpired(nowMs, timeoutMs) {
          DisconnectSession(session, "heartbeat timeout");
        }
      }
    }

    static lemma ShutdownStep(w: P.World, ids: seq<nat>, k: nat)
      requires k < |ids| && forall j :: j in ids ==> j in w.all
      ensures ids[k] in ids && P.DisconnectSession(w, ids[k], "server shutting down").all.Keys == w.all.Keys
      ensures P.DisconnectAll(w, ids[k..]) ==
        P.DisconnectAll(P.DisconnectSession(w, ids[k], "server shutting down"), ids[k + 1..])
    {
      assert ids[k..][1..] == ids[k + 1..] && ids[k] in ids;
    }

    method Shutdown()
      requires Valid()
      modifies this, objects.Values
      ensures Valid() && objects == old(objects) && World() == P.DisconnectAll(old(World()), old(table))
    {
      var ids := table;
      ghost var goal := P.DisconnectAll(World(), ids);
      assert ids[0..] == ids;
      for k := 0 to |ids|
        invariant Valid() && objects == old(objects) && forall j :: j in ids ==> j in objects
        invariant P.DisconnectAll(World(), ids[k..]) == goal
      {
        var session := objects[ids[k]];
        ShutdownStep(World(), ids, k);
        DisconnectSession(session, "server shutting down");
      }
    }
  }
}

/** What the server says to whom: every message each session is sent when a request is handled, when a socket
    closes, by the watchdog and at shutdown (server/src/tcpServer.js, server/src/eventBus.js). */
module Transcript {
  import opened Wrappers
  import opened NetworkState
  import opened ClientView
  import opened Presence
  import opened PresenceInvariant
  import opened ViewExact

  /** Version 1, whatever comes behind the first dot. */
  predicate SpeaksVersion1(version: string) { version == "1" || "1." <= version }

  lemma {:induction false} MajorIsFront(version: string)
    ensures ProtocolMajor(version) <= version && '.' !in ProtocolMajor(version)
    ensures |ProtocolMajor(version)| < |version| ==> version[|ProtocolMajor(version)|] == '.'
    decreases |version|
  {
    if version != "" && version[0] != '.' {
      MajorIsFront(version[1..]);
      assert version == [version[0]] + version[1..];
    }
  }

  lemma CompatibleExactly(version: string)
    ensures IsProtocolCompatible(version) <==> SpeaksVersion1(version)
  {
    assert ProtocolMajor("1.0") == "1" by { assert "1.0"[1..] == ".0"; }
    MajorIsFront(version);
    if SpeaksVersion1(version) {
      assert version[0] == '1';
      assert version[1..] == "" || version[1..][0] == '.';
      assert ProtocolMajor(version[1..]) == "";
    }
    assert |version| >= 2 && version[0] == '1' && version[1] == '.' ==> "1." == version[..2];
  }

  // ---------- a session that leaves ----------

  predicate Listens(w: World, v: nat) { v in w.table && v in w.all && w.all[v].authenticated }

  /** What v is told when session i is thrown out or leaves. */
  function OnLeaving(w: World, i: nat, reason: string, v: nat): seq<Msg>
    requires i in w.all
  {
    if i !in w.table then []
    else if v == i then [Kick(reason)]
    else if w.all[i].authenticated && Listens(w, v) then [Broadcasted(PlayerLeft(w.all[i].playerId))]
    else []
  }

  /** Nothing is written to a socket that no longer takes it. */
  function Heard(s: Session, ms: seq<Msg>): seq<Msg> { if s.writable then s.sent + ms else s.sent }

  lemma DisconnectTold(w: World, i: nat, reason: string, v: nat)
    requires i in w.all && v in w.all && forall k :: k in w.table ==> k in w.all
    ensures v in DisconnectSession(w, i, reason).all
    ensures DisconnectSession(w, i, reason).all[v].sent == Heard(w.all[v], OnLeaving(w, i, reason, v))
    ensures DisconnectSession(w, i, reason).all[v].writable == (w.all[v].writable && !(v == i && i in w.table))
  {
    WithoutIs(w.table, i);
    assert w.all[v].sent + [] == w.all[v].sent;
    if i in w.table && v != i { DisconnectDeparts(w, i, reason); }
  }

  // ---------- a request ----------

  /** What v is told when a request of session i is handled. */
  function Says(w: World, i: nat, request: Request, v: nat): seq<Msg>
    requires i in w.all
  {
    match request
    case Hello(version) =>
      (if v == i then [HelloAck(SpeaksVersion1(version))] else [])
      + if SpeaksVersion1(version) then [] else OnLeaving(w, i, "incompatible protocol version", v)
    case Auth(playerId, displayName) =>
      if !w.all[i].helloReceived then OnLeaving(w, i, "auth before hello", v)
      else if v == i then [AuthResult(playerId, displayName)] + Introductions(w.all, w.table, i)
      else if Listens(w, v) then [Broadcasted(PlayerJoined(playerId, displayName))]
      else []
    case Heartbeat(_) => if v == i then [HeartbeatAck] else []
    case ResourceManifestRequest =>
      if !w.all[i].authenticated then OnLeaving(w, i, "resource manifest requested before authentication", v)
      else if v == i then [ResourceManifest]
      else []
    case PlayerStateUpdate(s) =>
      if !w.all[i].authenticated then OnLeaving(w, i, "player_state before authentication", v)
      else if v != i && Listens(w, v) then [Broadcasted(PlayerState(w.all[i].playerId, s))]
      else []
    case ResourcesReady =>
      if !w.all[i].authenticated then OnLeaving(w, i, "resources_ready before authentication", v)
      else
        (if v == i then [ResourcesReadyAck] else [])
        + if Listens(w, v) then [Broadcasted(PlayerReady(w.all[i].playerId, w.all[i].displayName))] else []
    case Disconnect(reason) => OnLeaving(w, i, if reason == "" then "client requested disconnect" else reason, v)
    case Unknown(_) => []
  }

  lemma HelloTold(w: World, i: nat, version: string, v: nat)
    requires i in w.all && v in w.all && forall k :: k in w.table ==> k in w.all
    ensures v in OnHello(w, i, version).all
    ensures OnHello(w, i, version).all[v].sent == Heard(w.all[v], Says(w, i, Hello(version), v))
  {
    CompatibleExactly(version);
    var ack := HelloAck(IsProtocolCompatible(version));
    var greeted := Update(w, i, Send(w.all[i].(helloReceived := true), ack));
    DisconnectTold(greeted, i, "incompatible protocol version", v);
    var leaving := OnLeaving(w, i, "incompatible protocol version", v);
    assert OnLeaving(greeted, i, "incompatible protocol version", v) == leaving;
    if v == i {
      Assoc(w.all[i].sent, [ack], leaving);
      assert [ack] + [] == [ack];
    } else {
      assert [] + leaving == leaving;
      assert w.all[v].sent + [] == w.all[v].sent;
    }
  }

  lemma AuthSays(w: World, i: nat, playerId: string, displayName: string, v: nat)
    requires i in w.all && v in w.all && forall k :: k in w.table ==> k in w.all
    ensures v in OnAuth(w, i, playerId, displayName).all
    ensures OnAuth(w, i, playerId, displayName).all[v].sent ==
      Heard(w.all[v], Says(w, i, Auth(playerId, displayName), v))
  {
    assert w.all[v].sent + [] == w.all[v].sent;
    if w.all[i].helloReceived {
      AuthTold(w, i, playerId, displayName, v);
      Assoc(w.all[i].sent, [AuthResult(playerId, displayName)], Introductions(w.all, w.table, i));
    } else {
      DisconnectTold(w, i, "auth before hello", v);
    }
  }

  lemma StateSays(w: World, i: nat, s: Snapshot, v: nat)
    requires i in w.all && v in w.all && forall k :: k in w.table ==> k in w.all
    ensures v in OnPlayerStateUpdate(w, i, s).all
    ensures OnPlayerStateUpdate(w, i, s).all[v].sent == Heard(w.all[v], Says(w, i, PlayerStateUpdate(s), v))
  {
    assert w.all[v].sent + [] == w.all[v].sent;
    DisconnectTold(w, i, "player_state before authentication", v);
  }

  lemma ReadySays(w: World, i: nat, v: nat)
    requires i in w.all && v in w.all && forall k :: k in w.table ==> k in w.all
    ensures v in OnResourcesReady(w, i).all
    ensures OnResourcesReady(w, i).all[v].sent == Heard(w.all[v], Says(w, i, ResourcesReady, v))
  {
    assert w.all[v].sent + [] == w.all[v].sent;
    DisconnectTold(w, i, "resources_ready before authentication", v);
    if w.all[i].authenticated {
      var ready := [Broadcasted(PlayerReady(w.all[i].playerId, w.all[i].displayName))];
      Assoc(w.all[v].sent, [ResourcesReadyAck], ready);
      assert [ResourcesReadyAck] + [] == [ResourcesReadyAck] && [] + ready == ready;
    }
  }

  /** Handling a request sends each session exactly that, and nothing else. */
  lemma SaysExactly(w: World, i: nat, request: Request, v: nat)
    requires i in w.all && v in w.all && forall k :: k in w.table ==> k in w.all
    ensures v in OnMessage(w, i, request).all
    ensures OnMessage(w, i, request).all[v].sent == Heard(w.all[v], Says(w, i, request, v))
  {
    hide DisconnectSession, OnHello, OnAuth, OnPlayerStateUpdate, OnResourcesReady;
    assert w.all[v].sent + [] == w.all[v].sent;
    match request {
      case Hello(version) => HelloTold(w, i, version, v);
      case Auth(playerId, displayName) => AuthSays(w, i, playerId, displayName, v);
      case Heartbeat(_) =>
      case ResourceManifestRequest => DisconnectTold(w, i, "resource manifest requested before authentication", v);
      case PlayerStateUpdate(s) => StateSays(w, i, s, v);
      case ResourcesReady => ReadySays(w, i, v);
      case Disconnect(reason) =>
        DisconnectTold(w, i, if reason == "" then "client requested disconnect" else reason, v);
      case Unknown(_) =>
    }
  }

  /** What the server remembers of a session, heartbeat, state and socket aside. */
  datatype Memory = Memory(helloReceived: bool, authenticated: bool, playerId: string, displayName: string,
    lastPlayerState: Option<Snapshot>, resourcesReady: bool)

  function MemoryOf(s: Session): Memory {
    Memory(s.helloReceived, s.authenticated, s.playerId, s.displayName, s.lastPlayerState, s.resourcesReady)
  }

  lemma DisconnectRemembers(w: World, i: nat, reason: string, v: nat)
    requires i in w.all && v in w.all && forall k :: k in w.table ==> k in w.all
    ensures v in DisconnectSession(w, i, reason).all
      && MemoryOf(DisconnectSession(w, i, reason).all[v]) == MemoryOf(w.all[v])
  {
    if i in w.table { DisconnectDeparts(w, i, reason); }
  }

  lemma BroadcastRemembers(w: World, except: Option<nat>, e: Event, v: nat)
    requires v in w.all
    ensures v in Broadcast(w, except, e).all && MemoryOf(Broadcast(w, except, e).all[v]) == MemoryOf(w.all[v])
  {
  }

  /** What handling a request leaves it to remember of its sender. */
  function Learned(m: Memory, request: Request): Memory {
    match request
    case Hello(_) => m.(helloReceived := true)
    case Auth(playerId, displayName) =>
      if m.helloReceived then m.(authenticated := true, playerId := playerId, displayName := displayName) else m
    case PlayerStateUpdate(s) => if m.authenticated then m.(lastPlayerState := Some(s)) else m
    case ResourcesReady => if m.authenticated then m.(resourcesReady := true) else m
    case _ => m
  }

  /** Of everybody else it remembers what it did before. */
  lemma RemembersExactly(w: World, i: nat, request: Request, v: nat)
    requires i in w.all && v in w.all && forall k :: k in w.table ==> k in w.all
    ensures v in OnMessage(w, i, request).all
    ensures MemoryOf(OnMessage(w, i, request).all[v]) ==
      if v == i then Learned(MemoryOf(w.all[v]), request) else MemoryOf(w.all[v])
  {
    hide DisconnectSession, Broadcast, IsProtocolCompatible, Introductions;
    match request {
      case Hello(version) =>
        var s := Send(w.all[i].(helloReceived := true), HelloAck(IsProtocolCompatible(version)));
        DisconnectRemembers(Update(w, i, s), i, "incompatible protocol version", v);
      case Auth(playerId, displayName) =>
        DisconnectRemembers(w, i, "auth before hello", v);
        AdmittedFields(w, i, playerId, displayName);
        BroadcastRemembers(Update(w, i, Admitted(w, i, playerId, displayName)), Some(i),
          PlayerJoined(playerId, displayName), v);
      case ResourceManifestRequest =>
        DisconnectRemembers(w, i, "resource manifest requested before authentication", v);
      case PlayerStateUpdate(s) =>
        DisconnectRemembers(w, i, "player_state before authentication", v);
        BroadcastRemembers(Update(w, i, w.all[i].(lastPlayerState := Some(s))), Some(i),
          PlayerState(w.all[i].playerId, s), v);
      case ResourcesReady =>
        DisconnectRemembers(w, i, "resources_ready before authentication", v);
        BroadcastRemembers(Update(w, i, Send(w.all[i].(resourcesReady := true), ResourcesReadyAck)), None,
          PlayerReady(w.all[i].playerId, w.all[i].displayName), v);
      case Disconnect(reason) =>
        DisconnectRemembers(w, i, if reason == "" then "client requested disconnect" else reason, v);
      case _ =>
    }
  }

  // ---------- sweeps ----------

  /** Whoever is thrown out hears why, and nothing after that. */
  predicate LastHeard(s: Session, m: Msg) { !s.writable && s.sent != [] && s.sent[|s.sent| - 1] == m }

  lemma StaysSilent(w: World, i: nat, reason: string, v: nat, m: Msg)
    requires i in w.all && v in w.all && (forall k :: k in w.table ==> k in w.all) && LastHeard(w.all[v], m)
    ensures v in DisconnectSession(w, i, reason).all && LastHeard(DisconnectSession(w, i, reason).all[v], m)
  {
    DisconnectTold(w, i, reason, v);
  }

  lemma {:induction false} SilentThrough(w: World, ids: seq<nat>, nowMs: int, timeoutMs: int, v: nat, m: Msg)
    requires v in w.all && (forall k :: k in w.table ==> k in w.all) && (forall k :: k in ids ==> k in w.all)
    requires LastHeard(w.all[v], m)
    ensures v in DisconnectExpired(w, ids, nowMs, timeoutMs).all
      && LastHeard(DisconnectExpired(w, ids, nowMs, timeoutMs).all[v], m)
    ensures v in DisconnectAll(w, ids).all && LastHeard(DisconnectAll(w, ids).all[v], m)
    decreases |ids|
  {
    if ids != [] {
      hide DisconnectSession;
      HeartbeatsKept(w, ids[0], "heartbeat timeout");
      StaysSilent(w, ids[0], "heartbeat timeout", v, m);
      HeartbeatsKept(w, ids[0], "server shutting down");
      StaysSilent(w, ids[0], "server shutting down", v, m);
      SilentThrough(w, ids[1..], nowMs, timeoutMs, v, m);
      SilentThrough(DisconnectSession(w, ids[0], "heartbeat timeout"), ids[1..], nowMs, timeoutMs, v, m);
      SilentThrough(DisconnectSession(w, ids[0], "server shutting down"), ids[1..], nowMs, timeoutMs, v, m);
    }
  }

  /** The last thing a connected session that takes messages hears when the watchdog throws it out. */
  lemma {:induction false} TimeoutTold(w: World, ids: seq<nat>, nowMs: int, timeoutMs: int, v: nat)
    requires (forall k :: k in w.table ==> k in w.all) && (forall k :: k in ids ==> k in w.all)
    requires v in ids && v in w.table && w.all[v].writable && nowMs - w.all[v].lastHeartbeatAt > timeoutMs
    ensures v in DisconnectExpired(w, ids, nowMs, timeoutMs).all
      && LastHeard(DisconnectExpired(w, ids, nowMs, timeoutMs).all[v], Kick("heartbeat timeout"))
    decreases |ids|
  {
    hide DisconnectSession;
    HeartbeatsKept(w, ids[0], "heartbeat timeout");
    DisconnectTold(w, ids[0], "heartbeat timeout", v);
    var next := if IsHeartbeatExpired(w.all[ids[0]], nowMs, timeoutMs)
      then DisconnectSession(w, ids[0], "heartbeat timeout") else w;
    if ids[0] == v {
      SilentThrough(next, ids[1..], nowMs, timeoutMs, v, Kick("heartbeat timeout"));
    } else {
      assert v in ids[1..] && next.all[v].writable;
      TimeoutTold(next, ids[1..], nowMs, timeoutMs, v);
    }
  }

  /** And at shutdown. */
  lemma {:induction false} ShutdownTold(w: World, ids: seq<nat>, v: nat)
    requires (forall k :: k in w.table ==> k in w.all) && (forall k :: k in ids ==> k in w.all)
    requires v in ids && v in w.table && w.all[v].writable
    ensures v in DisconnectAll(w, ids).all
      && LastHeard(DisconnectAll(w, ids).all[v], Kick("server shutting down"))
    decreases |ids|
  {
    hide DisconnectSession;
    HeartbeatsKept(w, ids[0], "server shutting down");
    DisconnectTold(w, ids[0], "server shutting down", v);
    var next := DisconnectSession(w, ids[0], "server shutting down");
    if ids[0] == v {
      SilentThrough(next, ids[1..], 0, 0, v, Kick("server shutting down"));
    } else {
      assert v in ids[1..] && next.all[v].writable;
      ShutdownTold(next, ids[1..], v);
    }
  }
}

/** The server's session table as a transition system (server/src/tcpServer.js, server/src/session.js,
    server/src/eventBus.js): every handler is one atomic step, every socket a queue of messages on their
    way to that client. */
module Presence {
  import opened Wrappers
  import opened ConnectionState
  import opened NetworkState
  import opened ClientView
  import opened Roster

  /** A session object. `writable` and `sent` stand for its socket: whether it still takes messages, and
      the messages written but not yet delivered. */
  datatype Session = Session(
    state: State,
    helloReceived: bool,
    authenticated: bool,
    playerId: string,
    displayName: string,
    lastPlayerState: Option<Snapshot>,
    resourcesReady: bool,
    lastHeartbeatAt: int,
    writable: bool,
    sent: seq<Msg>)

  /** All sessions ever created, those in the table in insertion order, the client at the other end of each
      socket, and what was announced: disconnected sessions and rejected transitions. */
  datatype World = World(
    all: map<nat, Session>,
    table: seq<nat>,
    clients: map<nat, Client>,
    announced: seq<nat>,
    rejections: nat)

  const EMPTY := World(map[], [], map[], [], 0)

  /** A message from a client; `Auth` carries what `authenticate` makes of it. */
  datatype Request =
    | Hello(protocolVersion: string)
    | Auth(playerId: string, displayName: string)
    | Heartbeat(nowMs: int)
    | ResourceManifestRequest
    | PlayerStateUpdate(s: Snapshot)
    | ResourcesReady
    | Disconnect(reason: string)
    | Unknown(kind: string)

  datatype Step =
    | Connect(i: nat, nowMs: int)
    | Receive(i: nat, request: Request)
    | SocketDown(i: nat)
    | SocketClosed(i: nat)
    | Watchdog(nowMs: int, timeoutMs: int)
    | Shutdown
    | Deliver(i: nat)

  /** `String(version).split(".")[0]` */
  function ProtocolMajor(version: string): string {
    if version == "" || version[0] == '.' then "" else [version[0]] + ProtocolMajor(version[1..])
  }

  predicate IsProtocolCompatible(version: string) {
    ProtocolMajor(version) == ProtocolMajor("1.0")
  }

  function NewSession(nowMs: int): Session {
    Session(Connecting, false, false, "", "", None, false, nowMs, true, [])
  }

  /** `transitionTo`: applied when legal, ignored otherwise. */
  function TransitionTo(s: Session, to: State): Session {
    if IsValidTransition(s.state, to) then s.(state := to) else s
  }

  /** `send`: nothing is written to a socket that no longer takes it. */
  function Send(s: Session, m: Msg): Session {
    if s.writable then s.(sent := s.sent + [m]) else s
  }

  function SendAll(s: Session, ms: seq<Msg>): Session {
    if s.writable then s.(sent := s.sent + ms) else s
  }

  /** `broadcastExcept`, and `broadcast` when nobody is left out. */
  function Broadcast(w: World, except: Option<nat>, e: Event): World {
    w.(all := map j | j in w.all ::
      if j in w.table && w.all[j].authenticated && except != Some(j) then Send(w.all[j], Broadcasted(e)) else w.all[j])
  }

  function Update(w: World, i: nat, s: Session): World {
    w.(all := w.all[i := s])
  }

  function Without(table: seq<nat>, i: nat): seq<nat> {
    if table == [] then [] else if table[0] == i then Without(table[1..], i) else [table[0]] + Without(table[1..], i)
  }

  /** `disconnectSession`. */
  function DisconnectSession(w: World, i: nat, reason: string): World
    requires i in w.all
  {
    if i !in w.table then w
    else
      var s := w.all[i];
      var ended := Send(TransitionTo(s, Disconnecting), Kick(reason)).(writable := false);
      var removed := World(w.all[i := ended], Without(w.table, i), w.clients, w.announced,
        w.rejections + if IsValidTransition(s.state, Disconnecting) then 0 else 1);
      var told := if s.authenticated then Broadcast(removed, Some(i), PlayerLeft(s.playerId)) else removed;
      Update(told, i, TransitionTo(told.all[i], Disconnected)).(announced := told.announced + [i])
  }

  /** The authenticated sessions in the table. */
  ghost function Present(w: World): Entries {
    map j | j in w.all && j in w.table && w.all[j].authenticated :: EntryOf(w.all[j])
  }

  function EntryOf(s: Session): Entry {
    Entry(s.playerId, s.displayName, s.lastPlayerState)
  }

  /** What a newcomer is told about the sessions already there (server/src/tcpServer.js:79-86). */
  function Introductions(all: map<nat, Session>, order: seq<nat>, i: nat): seq<Msg> {
    if order == [] then []
    else
      var j := order[0];
      (if j in all && j != i && all[j].authenticated then Introduction(EntryOf(all[j])) else []) +
        Introductions(all, order[1..], i)
  }

  function OnHello(w: World, i: nat, version: string): World
    requires i in w.all
  {
    var compatible := IsProtocolCompatible(version);
    var s := Send(w.all[i].(helloReceived := true), HelloAck(compatible));
    if compatible then Update(w, i, TransitionTo(s, Authenticating))
    else DisconnectSession(Update(w, i, s), i, "incompatible protocol version")
  }

  /** The session after `auth`: named, answered, and told about everybody already there. */
  function Admitted(w: World, i: nat, playerId: string, displayName: string): Session
    requires i in w.all
  {
    var s := Send(w.all[i].(authenticated := true, playerId := playerId, displayName := displayName),
      AuthResult(playerId, displayName));
    SendAll(TransitionTo(s, Authenticated), Introductions(w.all, w.table, i))
  }

  function OnAuth(w: World, i: nat, playerId: string, displayName: string): World
    requires i in w.all
  {
    if !w.all[i].helloReceived then DisconnectSession(w, i, "auth before hello")
    else Broadcast(Update(w, i, Admitted(w, i, playerId, displayName)), Some(i), PlayerJoined(playerId, displayName))
  }

  function OnPlayerStateUpdate(w: World, i: nat, s: Snapshot): World
    requires i in w.all
  {
    if !w.all[i].authenticated then DisconnectSession(w, i, "player_state before authentication")
    else Broadcast(Update(w, i, w.all[i].(lastPlayerState := Some(s))), Some(i), PlayerState(w.all[i].playerId, s))
  }

  function OnResourcesReady(w: World, i: nat): World
    requires i in w.all
  {
    if !w.all[i].authenticated then DisconnectSession(w, i, "resources_ready before authentication")
    else
      Broadcast(Update(w, i, Send(w.all[i].(resourcesReady := true), ResourcesReadyAck)), None,
        PlayerReady(w.all[i].playerId, w.all[i].displayName))
  }

  /** The message handler (server/src/tcpServer.js:46-132). It does not ask whether the session is still in the
      table. */
  function OnMessage(w: World, i: nat, request: Request): World
    requires i in w.all
  {
    match request
    case Hello(version) => OnHello(w, i, version)
    case Auth(playerId, displayName) => OnAuth(w, i, playerId, displayName)
    case Heartbeat(nowMs) => Update(w, i, Send(w.all[i].(lastHeartbeatAt := nowMs), HeartbeatAck))
    case ResourceManifestRequest =>
      if !w.all[i].authenticated then DisconnectSession(w, i, "resource manifest requested before authentication")
      else Update(w, i, Send(w.all[i], ResourceManifest))
    case PlayerStateUpdate(s) => OnPlayerStateUpdate(w, i, s)
    case ResourcesReady => OnResourcesReady(w, i)
    case Disconnect(reason) => DisconnectSession(w, i, if reason == "" then "client requested disconnect" else reason)
    case Unknown(_) => w
  }

  predicate IsHeartbeatExpired(s: Session, nowMs: int, timeoutMs: int) {
    nowMs - s.lastHeartbeatAt > timeoutMs
  }

  /** The watchdog's walk over a copy of the table. */
  function DisconnectExpired(w: World, ids: seq<nat>, nowMs: int, timeoutMs: int): World
    requires forall j :: j in ids ==> j in w.all
    decreases |ids|
  {
    if ids == [] then w
    else
      var next := if IsHeartbeatExpired(w.all[ids[0]], nowMs, timeoutMs)
        then DisconnectSession(w, ids[0], "heartbeat timeout") else w;
      DisconnectExpired(next, ids[1..], nowMs, timeoutMs)
  }

  function DisconnectAll(w: World, ids: seq<nat>): World
    requires forall j :: j in ids ==> j in w.all
    decreases |ids|
  {
    if ids == [] then w else DisconnectAll(DisconnectSession(w, ids[0], "server shutting down"), ids[1..])
  }

  ghost predicate Enabled(w: World, step: Step) {
    w.all.Keys == w.clients.Keys && (forall j :: j in w.table ==> j in w.all) &&
    match step
    case Connect(i, _) => i !in w.all
    case Deliver(i) => i in w.all && w.all[i].sent != []
    case Watchdog(_, _) => true
    case Shutdown => true
    case _ => step.i in w.all
  }

  ghost function Next(w: World, step: Step): World
    requires Enabled(w, step)
  {
    match step
    case Connect(i, nowMs) =>
      w.(all := w.all[i := NewSession(nowMs)], table := w.table + [i], clients := w.clients[i := Waiting])
    case Receive(i, request) => OnMessage(w, i, request)
    case SocketDown(i) => Update(w, i, w.all[i].(writable := false))
    case SocketClosed(i) => DisconnectSession(w, i, "connection closed")
    case Watchdog(nowMs, timeoutMs) => DisconnectExpired(w, w.table, nowMs, timeoutMs)
    case Shutdown => DisconnectAll(w, w.table)
    case Deliver(i) =>
      Update(w, i, w.all[i].(sent := w.all[i].sent[1..])).(clients :=
        w.clients[i := Apply(w.clients[i], w.all[i].sent[0])])
  }
}

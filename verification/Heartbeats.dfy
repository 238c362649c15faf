/** Who the watchdog takes for dead: over any run, exactly the sessions whose last heartbeat, or whose connection
    if there was none, is longer ago than the timeout (server/src/tcpServer.js:93-96 and 148-156). */
module Heartbeats {
  import opened Wrappers
  import opened NetworkState
  import opened ClientView
  import opened Presence
  import opened PresenceInvariant

  /** A broadcast, an answer and a new name leave every heartbeat as it was. */
  lemma BroadcastBeats(w: World, except: Option<nat>, e: Event, j: nat)
    requires j in w.all
    ensures j in Broadcast(w, except, e).all
      && Broadcast(w, except, e).all[j].lastHeartbeatAt == w.all[j].lastHeartbeatAt
  {
  }

  lemma AdmittedBeats(w: World, i: nat, playerId: string, displayName: string)
    requires i in w.all
    ensures Admitted(w, i, playerId, displayName).lastHeartbeatAt == w.all[i].lastHeartbeatAt
  {
  }

  lemma HelloBeats(w: World, i: nat, version: string, j: nat)
    requires i in w.all && j in w.all && forall k :: k in w.table ==> k in w.all
    ensures j in OnHello(w, i, version).all
      && OnHello(w, i, version).all[j].lastHeartbeatAt == w.all[j].lastHeartbeatAt
  {
    var s := Send(w.all[i].(helloReceived := true), HelloAck(IsProtocolCompatible(version)));
    HeartbeatsKept(Update(w, i, s), i, "incompatible protocol version");
  }

  lemma AuthBeats(w: World, i: nat, playerId: string, displayName: string, j: nat)
    requires i in w.all && j in w.all && forall k :: k in w.table ==> k in w.all
    ensures j in OnAuth(w, i, playerId, displayName).all
      && OnAuth(w, i, playerId, displayName).all[j].lastHeartbeatAt == w.all[j].lastHeartbeatAt
  {
    HeartbeatsKept(w, i, "auth before hello");
    AdmittedBeats(w, i, playerId, displayName);
    var admitted := Update(w, i, Admitted(w, i, playerId, displayName));
    BroadcastBeats(admitted, Some(i), PlayerJoined(playerId, displayName), j);
  }

  lemma StateBeats(w: World, i: nat, s: Snapshot, j: nat)
    requires i in w.all && j in w.all && forall k :: k in w.table ==> k in w.all
    ensures j in OnPlayerStateUpdate(w, i, s).all
      && OnPlayerStateUpdate(w, i, s).all[j].lastHeartbeatAt == w.all[j].lastHeartbeatAt
  {
    HeartbeatsKept(w, i, "player_state before authentication");
    BroadcastBeats(Update(w, i, w.all[i].(lastPlayerState := Some(s))), Some(i), PlayerState(w.all[i].playerId, s), j);
  }

  lemma ReadyBeats(w: World, i: nat, j: nat)
    requires i in w.all && j in w.all && forall k :: k in w.table ==> k in w.all
    ensures j in OnResourcesReady(w, i).all
      && OnResourcesReady(w, i).all[j].lastHeartbeatAt == w.all[j].lastHeartbeatAt
  {
    HeartbeatsKept(w, i, "resources_ready before authentication");
    var s := Send(w.all[i].(resourcesReady := true), ResourcesReadyAck);
    BroadcastBeats(Update(w, i, s), None, PlayerReady(w.all[i].playerId, w.all[i].displayName), j);
  }

  /** A heartbeat is recorded for its sender; no other message changes anybody's. */
  lemma MessageBeats(w: World, i: nat, request: Request, j: nat)
    requires i in w.all && j in w.all && forall k :: k in w.table ==> k in w.all
    ensures j in OnMessage(w, i, request).all
      && OnMessage(w, i, request).all[j].lastHeartbeatAt ==
        if request.Heartbeat? && i == j then request.nowMs else w.all[j].lastHeartbeatAt
  {
    hide DisconnectSession, OnHello, OnAuth, OnPlayerStateUpdate, OnResourcesReady;
    match request {
      case Hello(version) => HelloBeats(w, i, version, j);
      case Auth(playerId, displayName) => AuthBeats(w, i, playerId, displayName, j);
      case Heartbeat(_) =>
      case ResourceManifestRequest => HeartbeatsKept(w, i, "resource manifest requested before authentication");
      case PlayerStateUpdate(s) => StateBeats(w, i, s, j);
      case ResourcesReady => ReadyBeats(w, i, j);
      case Disconnect(reason) => HeartbeatsKept(w, i, if reason == "" then "client requested disconnect" else reason);
      case Unknown(_) =>
    }
  }

  lemma {:induction false} ShutdownBeats(w: World, ids: seq<nat>, j: nat)
    requires j in w.all && (forall k :: k in w.table ==> k in w.all) && forall k :: k in ids ==> k in w.all
    ensures j in DisconnectAll(w, ids).all && DisconnectAll(w, ids).all[j].lastHeartbeatAt == w.all[j].lastHeartbeatAt
    decreases |ids|
  {
    if ids != [] {
      HeartbeatsKept(w, ids[0], "server shutting down");
      ShutdownBeats(DisconnectSession(w, ids[0], "server shutting down"), ids[1..], j);
    }
  }

  // ---------- over runs ----------

  /** When j was last heard of, as far as this step tells. */
  function BeatOf(step: Step, j: nat, before: int): int {
    match step
    case Connect(i, nowMs) => if i == j then nowMs else before
    case Receive(i, Heartbeat(nowMs)) => if i == j then nowMs else before
    case _ => before
  }

  lemma StepBeats(w: World, step: Step, j: nat)
    requires Enabled(w, step) && j in Next(w, step).all
    ensures j !in w.all ==> step.Connect? && step.i == j
    ensures Next(w, step).all[j].lastHeartbeatAt ==
      BeatOf(step, j, if j in w.all then w.all[j].lastHeartbeatAt else 0)
  {
    hide OnMessage, DisconnectSession;
    match step {
      case Connect(i, nowMs) =>
      case Receive(i, request) =>
        MessageKeys(w, i, request);
        MessageBeats(w, i, request, j);
      case SocketDown(i) =>
      case SocketClosed(i) => HeartbeatsKept(w, i, "connection closed");
      case Watchdog(nowMs, timeoutMs) => WatchdogExactly(w, w.table, nowMs, timeoutMs);
      case Shutdown =>
        ShutdownKeys(w, w.table);
        ShutdownBeats(w, w.table, j);
      case Deliver(i) =>
    }
  }

  lemma MessageKeys(w: World, i: nat, request: Request)
    requires i in w.all && forall k :: k in w.table ==> k in w.all
    ensures OnMessage(w, i, request).all.Keys == w.all.Keys
  {
    hide DisconnectSession, Send, Admitted, IsProtocolCompatible;
    match request {
      case Hello(version) =>
        var s := Send(w.all[i].(helloReceived := true), HelloAck(IsProtocolCompatible(version)));
        HeartbeatsKept(Update(w, i, s), i, "incompatible protocol version");
      case Auth(_, _) => HeartbeatsKept(w, i, "auth before hello");
      case ResourceManifestRequest => HeartbeatsKept(w, i, "resource manifest requested before authentication");
      case PlayerStateUpdate(_) => HeartbeatsKept(w, i, "player_state before authentication");
      case ResourcesReady => HeartbeatsKept(w, i, "resources_ready before authentication");
      case Disconnect(reason) => HeartbeatsKept(w, i, if reason == "" then "client requested disconnect" else reason);
      case _ =>
    }
  }

  lemma {:induction false} ShutdownKeys(w: World, ids: seq<nat>)
    requires (forall k :: k in w.table ==> k in w.all) && forall k :: k in ids ==> k in w.all
    ensures DisconnectAll(w, ids).all.Keys == w.all.Keys
    decreases |ids|
  {
    if ids != [] {
      HeartbeatsKept(w, ids[0], "server shutting down");
      ShutdownKeys(DisconnectSession(w, ids[0], "server shutting down"), ids[1..]);
    }
  }

  function LastBeat(steps: seq<Step>, j: nat, before: int): int
    decreases |steps|
  {
    if steps == [] then before else LastBeat(steps[1..], j, BeatOf(steps[0], j, before))
  }

  lemma {:induction false} RunBeats(w: World, steps: seq<Step>, j: nat)
    requires TableInv(w) && CanRun(w, steps) && j in Run(w, steps).all
    ensures Run(w, steps).all[j].lastHeartbeatAt ==
      LastBeat(steps, j, if j in w.all then w.all[j].lastHeartbeatAt else 0)
    decreases |steps|
  {
    if steps != [] {
      var next := Next(w, steps[0]);
      StepKeepsTable(w, steps[0]);
      RunBeats(next, steps[1..], j);
      if j in next.all {
        StepBeats(w, steps[0], j);
      } else {
        NotYet(w, steps[0], j);
      }
    }
  }

  /** Who is still unknown after a step was unknown before, and not heard of in it. */
  lemma NotYet(w: World, step: Step, j: nat)
    requires TableInv(w) && Enabled(w, step) && j !in Next(w, step).all
    ensures j !in w.all && BeatOf(step, j, 0) == 0
  {
    if step.Receive? { MessageKeys(w, step.i, step.request); }
    if j in w.all {
      match step {
        case SocketClosed(i) => HeartbeatsKept(w, i, "connection closed");
        case Watchdog(nowMs, timeoutMs) => WatchdogExactly(w, w.table, nowMs, timeoutMs);
        case Shutdown => ShutdownKeys(w, w.table);
        case _ =>
      }
    }
  }

  /** After any run, a tick of the watchdog lets a connected session stay exactly when it was last heard of no
      longer ago than the timeout. */
  lemma SilentExactly(steps: seq<Step>, j: nat, nowMs: int, timeoutMs: int)
    requires CanRun(EMPTY, steps) && j in Run(EMPTY, steps).table
    ensures Enabled(Run(EMPTY, steps), Watchdog(nowMs, timeoutMs))
    ensures j in Next(Run(EMPTY, steps), Watchdog(nowMs, timeoutMs)).table <==>
      nowMs - LastBeat(steps, j, 0) <= timeoutMs
  {
    var w := Run(EMPTY, steps);
    TableAlwaysConsistent(steps);
    RunBeats(EMPTY, steps, j);
    WatchdogExactly(w, w.table, nowMs, timeoutMs);
  }

  /** So a client that sends its heartbeats in time is never thrown out by the watchdog. */
  lemma HeartbeatSaves(w: World, i: nat, beatMs: int, nowMs: int, timeoutMs: int)
    requires TableInv(w) && i in w.table && nowMs - beatMs <= timeoutMs
    ensures var w' := OnMessage(w, i, Heartbeat(beatMs));
      (forall k :: k in w'.table ==> k in w'.all) && i in DisconnectExpired(w', w'.table, nowMs, timeoutMs).table
  {
    var w' := OnMessage(w, i, Heartbeat(beatMs));
    MessageKeeps(w, i, Heartbeat(beatMs));
    MessageBeats(w, i, Heartbeat(beatMs), i);
    WatchdogExactly(w', w'.table, nowMs, timeoutMs);
  }
}

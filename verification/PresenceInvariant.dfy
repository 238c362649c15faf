/** What every step keeps, whatever clients send and whenever sockets fail: the session table. */
module PresenceInvariant {
  import opened Wrappers
  import opened ConnectionState
  import opened NetworkState
  import opened ClientView
  import opened Presence

  ghost predicate NoRepeats(s: seq<nat>) {
    forall a, b :: 0 <= a < b < |s| ==> s[a] != s[b]
  }

  /** A session in the table is CONNECTING exactly until its first hello and AUTHENTICATED exactly when its flag
      says so, and is never on its way out; a session out of the table is DISCONNECTED for good. */
  ghost predicate Lifecycle(s: Session, inTable: bool) {
    if inTable then
      (s.state == Connecting <==> !s.helloReceived) && (s.state == Authenticated <==> s.authenticated) &&
      s.state != Disconnecting && s.state != Disconnected && (!s.authenticated ==> s.lastPlayerState.None?)
    else s.state == Disconnected && !s.writable
  }

  /** The table holds each session once, the sessions out of it are exactly those announced as disconnected,
      each announced once, and no transition was ever rejected on the way out. */
  ghost predicate TableInv(w: World) {
    w.all.Keys == w.clients.Keys && (forall j :: j in w.table ==> j in w.all) &&
    NoRepeats(w.table) && NoRepeats(w.announced) &&
    (forall j :: j in w.announced <==> j in w.all && j !in w.table) &&
    w.rejections == 0 &&
    forall j :: j in w.all ==> Lifecycle(w.all[j], j in w.table)
  }

  lemma {:induction false} WithoutIs(table: seq<nat>, i: nat)
    ensures forall j :: j in Without(table, i) <==> j in table && j != i
    ensures NoRepeats(table) ==> NoRepeats(Without(table, i))
  {
    if table != [] {
      var rest := table[1..];
      WithoutIs(rest, i);
      assert table == [table[0]] + rest;
      assert forall a :: 0 <= a < |rest| ==> rest[a] == table[a + 1];
      if table[0] != i && NoRepeats(table) {
        var r := Without(table, i);
        assert r[1..] == Without(rest, i) && forall a :: 1 <= a < |r| ==> r[a] == r[1..][a - 1];
        assert table[0] !in rest;
      }
    }
  }

  lemma AppendNew(s: seq<nat>, i: nat)
    requires NoRepeats(s) && i !in s
    ensures NoRepeats(s + [i]) && forall j :: j in s + [i] <==> j in s || j == i
  {
  }

  /** A step that leaves the table alone keeps the invariant when it keeps every session's lifecycle. */
  lemma SameTable(w: World, w': World)
    requires TableInv(w) && w' == w.(all := w'.all, clients := w'.clients)
    requires w'.all.Keys == w.all.Keys && w'.clients.Keys == w.clients.Keys
    requires forall j :: j in w.all ==> Lifecycle(w'.all[j], j in w.table)
    ensures TableInv(w')
  {
  }

  /** The invariant, except that session i may have its hello flag ahead of its state (the instant between
      a refused hello and its disconnection). */
  ghost predicate TableInvBut(w: World, i: nat) {
    w.all.Keys == w.clients.Keys && (forall j :: j in w.table ==> j in w.all) &&
    NoRepeats(w.table) && NoRepeats(w.announced) &&
    (forall j :: j in w.announced <==> j in w.all && j !in w.table) &&
    w.rejections == 0 &&
    (forall j :: j in w.all && (j != i || i !in w.table) ==> Lifecycle(w.all[j], j in w.table)) &&
    (i in w.table ==> w.all[i].state != Disconnecting && w.all[i].state != Disconnected)
  }

  /** Session j after session i was disconnected. */
  function Farewell(w: World, i: nat, j: nat): Session
    requires i in w.all && j in w.all
  {
    if w.all[i].authenticated && j in w.table && w.all[j].authenticated
    then Send(w.all[j], Broadcasted(PlayerLeft(w.all[i].playerId))) else w.all[j]
  }

  /** All that disconnecting a session in the table does. */
  ghost predicate Departs(w: World, i: nat, w': World) {
    i in w.table && i in w.all && w'.all.Keys == w.all.Keys && w'.clients == w.clients &&
    w'.table == Without(w.table, i) && w'.announced == w.announced + [i] &&
    w'.rejections == w.rejections + (if IsValidTransition(w.all[i].state, Disconnecting) then 0 else 1) &&
    w'.all[i] == w.all[i].(state := TransitionTo(TransitionTo(w.all[i], Disconnecting), Disconnected).state,
      writable := false, sent := w'.all[i].sent) &&
    forall j :: j in w.all && j != i ==> w'.all[j] == Farewell(w, i, j)
  }

  lemma DisconnectDeparts(w: World, i: nat, reason: string)
    requires i in w.table && forall j :: j in w.table ==> j in w.all
    ensures Departs(w, i, DisconnectSession(w, i, reason))
  {
    WithoutIs(w.table, i);
  }

  lemma DepartureKeeps(w: World, i: nat, w': World)
    requires TableInvBut(w, i) && Departs(w, i, w')
    ensures TableInv(w')
    ensures forall j :: j in w'.table <==> j in w.table && j != i
  {
    WithoutIs(w.table, i);
    AppendNew(w.announced, i);
  }

  /** A session in the table leaves it, announced; one that has left already stays as it is. */
  lemma DisconnectKeeps(w: World, i: nat, reason: string)
    requires TableInvBut(w, i) && i in w.all
    ensures TableInv(DisconnectSession(w, i, reason))
    ensures DisconnectSession(w, i, reason).all.Keys == w.all.Keys
    ensures forall j :: j in DisconnectSession(w, i, reason).table <==> j in w.table && j != i
  {
    if i in w.table {
      DisconnectDeparts(w, i, reason);
      DepartureKeeps(w, i, DisconnectSession(w, i, reason));
    }
  }

  lemma BroadcastKeeps(w: World, except: Option<nat>, e: Event)
    requires TableInv(w)
    ensures TableInv(Broadcast(w, except, e))
  {
    SameTable(w, Broadcast(w, except, e));
  }

  lemma HelloKeeps(w: World, i: nat, version: string)
    requires TableInv(w) && i in w.all
    ensures TableInv(OnHello(w, i, version))
  {
    var compatible := IsProtocolCompatible(version);
    var s := Send(w.all[i].(helloReceived := true), HelloAck(compatible));
    if compatible {
      SameTable(w, OnHello(w, i, version));
    } else {
      DisconnectKeeps(Update(w, i, s), i, "incompatible protocol version");
    }
  }

  lemma AuthKeeps(w: World, i: nat, playerId: string, displayName: string)
    requires TableInv(w) && i in w.all
    ensures TableInv(OnAuth(w, i, playerId, displayName))
  {
    if !w.all[i].helloReceived {
      DisconnectKeeps(w, i, "auth before hello");
    } else {
      var told := Update(w, i, Admitted(w, i, playerId, displayName));
      SameTable(w, told);
      BroadcastKeeps(told, Some(i), PlayerJoined(playerId, displayName));
    }
  }

  lemma StateKeeps(w: World, i: nat, s: Snapshot)
    requires TableInv(w) && i in w.all
    ensures TableInv(OnPlayerStateUpdate(w, i, s))
  {
    if !w.all[i].authenticated {
      DisconnectKeeps(w, i, "player_state before authentication");
    } else {
      var moved := Update(w, i, w.all[i].(lastPlayerState := Some(s)));
      SameTable(w, moved);
      BroadcastKeeps(moved, Some(i), PlayerState(w.all[i].playerId, s));
    }
  }

  lemma ReadyKeeps(w: World, i: nat)
    requires TableInv(w) && i in w.all
    ensures TableInv(OnResourcesReady(w, i))
  {
    if !w.all[i].authenticated {
      DisconnectKeeps(w, i, "resources_ready before authentication");
    } else {
      var ready := Update(w, i, Send(w.all[i].(resourcesReady := true), ResourcesReadyAck));
      SameTable(w, ready);
      BroadcastKeeps(ready, None, PlayerReady(w.all[i].playerId, w.all[i].displayName));
    }
  }

  /** A reply changes nothing the table says. */
  lemma ReplyKeeps(w: World, i: nat, s: Session, m: Msg)
    requires TableInv(w) && i in w.all
    requires s == w.all[i] || s == w.all[i].(lastHeartbeatAt := s.lastHeartbeatAt)
    ensures TableInv(Update(w, i, Send(s, m)))
  {
    SameTable(w, Update(w, i, Send(s, m)));
  }

  lemma MessageKeeps(w: World, i: nat, request: Request)
    requires TableInv(w) && i in w.all
    ensures TableInv(OnMessage(w, i, request))
  {
    hide DisconnectSession, OnHello, OnAuth, OnPlayerStateUpdate, OnResourcesReady, Send, Update;
    match request {
      case Hello(version) => HelloKeeps(w, i, version);
      case Auth(playerId, displayName) => AuthKeeps(w, i, playerId, displayName);
      case Heartbeat(nowMs) => ReplyKeeps(w, i, w.all[i].(lastHeartbeatAt := nowMs), HeartbeatAck);
      case ResourceManifestRequest =>
        if w.all[i].authenticated {
          ReplyKeeps(w, i, w.all[i], ResourceManifest);
        } else {
          DisconnectKeeps(w, i, "resource manifest requested before authentication");
        }
      case PlayerStateUpdate(s) => StateKeeps(w, i, s);
      case ResourcesReady => ReadyKeeps(w, i);
      case Disconnect(reason) => DisconnectKeeps(w, i, if reason == "" then "client requested disconnect" else reason);
      case Unknown(_) =>
    }
  }

  lemma {:induction false} WatchdogKeeps(w: World, ids: seq<nat>, nowMs: int, timeoutMs: int)
    requires TableInv(w) && forall j :: j in ids ==> j in w.all
    ensures TableInv(DisconnectExpired(w, ids, nowMs, timeoutMs))
    decreases |ids|
  {
    if ids != [] {
      DisconnectKeeps(w, ids[0], "heartbeat timeout");
      var next := if IsHeartbeatExpired(w.all[ids[0]], nowMs, timeoutMs)
        then DisconnectSession(w, ids[0], "heartbeat timeout") else w;
      WatchdogKeeps(next, ids[1..], nowMs, timeoutMs);
    }
  }

  lemma HeartbeatsKept(w: World, i: nat, reason: string)
    requires i in w.all && forall j :: j in w.table ==> j in w.all
    ensures var w' := DisconnectSession(w, i, reason);
      && w'.all.Keys == w.all.Keys && (forall j :: j in w.all ==> w'.all[j].lastHeartbeatAt == w.all[j].lastHeartbeatAt)
      && (forall j :: j in w'.table <==> j in w.table && j != i)
  {
    WithoutIs(w.table, i);
    if i in w.table { DisconnectDeparts(w, i, reason); }
  }

  /** One tick of the watchdog takes out of the table exactly the sessions it walks over that have been silent for
      longer than the timeout, and leaves every heartbeat as it was. */
  lemma {:induction false} WatchdogExactly(w: World, ids: seq<nat>, nowMs: int, timeoutMs: int)
    requires (forall j :: j in w.table ==> j in w.all) && forall j :: j in ids ==> j in w.all
    ensures var w' := DisconnectExpired(w, ids, nowMs, timeoutMs);
      && w'.all.Keys == w.all.Keys && (forall j :: j in w.all ==> w'.all[j].lastHeartbeatAt == w.all[j].lastHeartbeatAt)
      && (forall j :: j in w'.table <==> j in w.table && !(j in ids && nowMs - w.all[j].lastHeartbeatAt > timeoutMs))
    decreases |ids|
  {
    if ids != [] {
      HeartbeatsKept(w, ids[0], "heartbeat timeout");
      var next := if IsHeartbeatExpired(w.all[ids[0]], nowMs, timeoutMs)
        then DisconnectSession(w, ids[0], "heartbeat timeout") else w;
      assert ids == [ids[0]] + ids[1..];
      WatchdogExactly(next, ids[1..], nowMs, timeoutMs);
    }
  }

  lemma {:induction false} ShutdownKeeps(w: World, ids: seq<nat>)
    requires TableInv(w) && forall j :: j in ids ==> j in w.all
    ensures TableInv(DisconnectAll(w, ids))
    ensures forall j :: j in w.all && j in ids ==> j !in DisconnectAll(w, ids).table
    ensures forall j :: j in DisconnectAll(w, ids).table ==> j in w.table
    decreases |ids|
  {
    if ids != [] {
      DisconnectKeeps(w, ids[0], "server shutting down");
      ShutdownKeeps(DisconnectSession(w, ids[0], "server shutting down"), ids[1..]);
    }
  }

  /** Every step, by any client at any time, keeps the session table consistent. */
  lemma StepKeepsTable(w: World, step: Step)
    requires TableInv(w) && Enabled(w, step)
    ensures TableInv(Next(w, step))
    ensures step.Shutdown? ==> forall j :: j !in Next(w, step).table
  {
    match step {
      case Connect(i, nowMs) => AppendNew(w.table, i);
      case Receive(i, request) => MessageKeeps(w, i, request);
      case SocketDown(i) => SameTable(w, Next(w, step));
      case SocketClosed(i) => DisconnectKeeps(w, i, "connection closed");
      case Watchdog(nowMs, timeoutMs) => WatchdogKeeps(w, w.table, nowMs, timeoutMs);
      case Shutdown => ShutdownKeeps(w, w.table);
      case Deliver(i) => SameTable(w, Next(w, step));
    }
  }

  // ---------- whole runs ----------

  ghost predicate CanRun(w: World, steps: seq<Step>)
    decreases |steps|
  {
    steps == [] || (Enabled(w, steps[0]) && CanRun(Next(w, steps[0]), steps[1..]))
  }

  ghost function Run(w: World, steps: seq<Step>): World
    requires CanRun(w, steps)
    decreases |steps|
  {
    if steps == [] then w else Run(Next(w, steps[0]), steps[1..])
  }

  lemma {:induction false} RunKeepsTable(w: World, steps: seq<Step>)
    requires TableInv(w) && CanRun(w, steps)
    ensures TableInv(Run(w, steps))
    decreases |steps|
  {
    if steps != [] {
      StepKeepsTable(w, steps[0]);
      RunKeepsTable(Next(w, steps[0]), steps[1..]);
    }
  }

  /** In every reachable state of any interleaving the table is consistent, the rejected-transition warning was
      never reached, and no session was announced as disconnected twice. */
  lemma TableAlwaysConsistent(steps: seq<Step>)
    requires CanRun(EMPTY, steps)
    ensures TableInv(Run(EMPTY, steps))
  {
    RunKeepsTable(EMPTY, steps);
  }
}

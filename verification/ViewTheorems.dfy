/** The promise of docs/synchronization.md over whole runs, and the runs that break it. */
module ViewTheorems {
  import opened Wrappers
  import opened NetworkState
  import opened ClientView
  import opened Roster
  import opened Presence
  import opened PresenceInvariant
  import opened ViewAgreement
  import opened ViewExact

  /** A first `auth` that takes an empty or taken id. */
  lemma BadIdBreaks(w: World, i: nat, p: string, name: string)
    requires TableInv(w) && ViewsAgree(w) && i in w.table && w.all[i].helloReceived
    requires p == "" || Taken(w, i, p)
    ensures TableInv(OnAuth(w, i, p, name)) && !ViewsAgree(OnAuth(w, i, p, name))
  {
    AuthKeeps(w, i, p, name);
    AuthPresent(w, i, p, name);
    var r, e := Present(w), Entry(p, name, w.all[i].lastPlayerState);
    if p == "" {
      NotDistinct(r, i, e, i);
    } else {
      var o :| o in w.table && o in w.all && o != i && w.all[o].authenticated && w.all[o].playerId == p;
      assert o in r && r[o].playerId == p;
      NotDistinct(r, i, e, o);
    }
  }

  lemma NotDistinct(r: Entries, i: nat, e: Entry, o: nat)
    requires (o == i && e.playerId == "") || (o != i && o in r && r[o].playerId == e.playerId)
    ensures !Distinct(r[i := e])
  {
    var r' := r[i := e];
    assert i in r' && o in r' && r'[i].playerId == r'[o].playerId == e.playerId;
  }

  lemma StaleViewBreaks(w: World, i: nat, p: string, name: string, v: nat)
    requires TableInv(w) && ViewsAgree(w) && i in w.table && w.all[i].helloReceived && w.all[i].authenticated
    requires p != "" && !Taken(w, i, p) && v != i && Viewer(w, v)
    requires p != w.all[i].playerId || name != w.all[i].displayName
    ensures TableInv(OnAuth(w, i, p, name)) && !ViewsAgree(OnAuth(w, i, p, name))
  {
    AuthKeeps(w, i, p, name);
    var w', r, e, c := OnAuth(w, i, p, name), Present(w), Entry(p, name, w.all[i].lastPlayerState), w.clients[v];
    AuthPresent(w, i, p, name);
    AuthTold(w, i, p, name, v);
    TakenIsKnown(w, i, p);
    RenamedDistinct(r, i, e);
    assert ViewRight(w, v);
    ApplyOne(c, w.all[v].sent, Broadcasted(PlayerJoined(p, name)));
    StaleView(r, i, e, v, ApplyAll(c, w.all[v].sent));
    assert !ViewRight(w', v);
  }

  lemma OwnIdBreaks(w: World, i: nat, p: string, name: string)
    requires TableInv(w) && ViewsAgree(w) && i in w.table && w.all[i].helloReceived && w.all[i].authenticated
    requires p != "" && !Taken(w, i, p) && p != w.all[i].playerId && w.all[i].writable
    ensures TableInv(OnAuth(w, i, p, name)) && !ViewsAgree(OnAuth(w, i, p, name))
  {
    AuthKeeps(w, i, p, name);
    var w', r, e := OnAuth(w, i, p, name), Present(w), Entry(p, name, w.all[i].lastPlayerState);
    AuthPresent(w, i, p, name);
    AuthTold(w, i, p, name, i);
    TakenIsKnown(w, i, p);
    RenamedDistinct(r, i, e);
    assert ViewRight(w, i);
    OwnIdLost(w, i, p, name, r[i := e]);
    assert !ViewRight(w', i);
  }

  lemma AuthExact(w: World, i: nat, p: string, name: string)
    requires TableInv(w) && ViewsAgree(w) && Enabled(w, Receive(i, Auth(p, name)))
    ensures TableInv(OnAuth(w, i, p, name))
    ensures ViewsAgree(OnAuth(w, i, p, name)) <==> Benign(w, Receive(i, Auth(p, name)))
  {
    AuthKeeps(w, i, p, name);
    var s := w.all[i];
    if !s.helloReceived {
      DisconnectViews(w, i, "auth before hello");
    } else if i !in w.table {
      if p == "" || Taken(w, i, p) || !WatchedByOthers(w, i) {
        LateAuthViews(w, i, p, name);
      } else {
        var v :| v != i && Viewer(w, v);
        LateAuthGhost(w, i, p, name, v);
      }
    } else if p == "" || Taken(w, i, p) {
      BadIdBreaks(w, i, p, name);
    } else if !s.authenticated {
      FirstAuthViews(w, i, p, name);
    } else {
      SecondAuthExact(w, i, p, name);
    }
  }

  lemma SecondAuthExact(w: World, i: nat, p: string, name: string)
    requires TableInv(w) && ViewsAgree(w) && i in w.table && w.all[i].helloReceived && w.all[i].authenticated
    requires p != "" && !Taken(w, i, p)
    ensures TableInv(OnAuth(w, i, p, name))
    ensures ViewsAgree(OnAuth(w, i, p, name)) <==>
      (p == w.all[i].playerId || (!w.all[i].writable && !WatchedByOthers(w, i))) &&
      (name == w.all[i].displayName || !WatchedByOthers(w, i))
  {
    var s := w.all[i];
    if WatchedByOthers(w, i) && (p != s.playerId || name != s.displayName) {
      var v :| v != i && Viewer(w, v);
      StaleViewBreaks(w, i, p, name, v);
    } else if p != s.playerId && s.writable {
      OwnIdBreaks(w, i, p, name);
    } else {
      AgainViews(w, i, p, name);
    }
  }

  lemma ManifestViews(w: World, i: nat)
    requires TableInv(w) && ViewsAgree(w) && Enabled(w, Receive(i, ResourceManifestRequest))
    ensures TableInv(OnMessage(w, i, ResourceManifestRequest)) && ViewsAgree(OnMessage(w, i, ResourceManifestRequest))
  {
    hide ViewsAgree, TableInv;
    MessageKeeps(w, i, ResourceManifestRequest);
    if w.all[i].authenticated {
      SilentSend(w, i, w.all[i], ResourceManifest);
    } else {
      DisconnectViews(w, i, "resource manifest requested before authentication");
    }
  }

  lemma StateExact(w: World, i: nat, s: Snapshot)
    requires TableInv(w) && ViewsAgree(w) && Enabled(w, Receive(i, PlayerStateUpdate(s)))
    ensures TableInv(OnPlayerStateUpdate(w, i, s))
    ensures ViewsAgree(OnPlayerStateUpdate(w, i, s)) <==> Benign(w, Receive(i, PlayerStateUpdate(s)))
  {
    hide ViewsAgree, TableInv;
    StateKeeps(w, i, s);
    if !w.all[i].authenticated {
      DisconnectViews(w, i, "player_state before authentication");
    } else if i in w.table {
      MoveViews(w, i, s);
    } else {
      LateMoveExact(w, i, s);
    }
  }

  lemma MessageExact(w: World, i: nat, request: Request)
    requires TableInv(w) && ViewsAgree(w) && Enabled(w, Receive(i, request))
    ensures TableInv(OnMessage(w, i, request))
    ensures ViewsAgree(OnMessage(w, i, request)) <==> Benign(w, Receive(i, request))
  {
    hide ViewsAgree, TableInv;
    MessageKeeps(w, i, request);
    match request {
      case Hello(version) => HelloViews(w, i, version);
      case Auth(p, name) => AuthExact(w, i, p, name);
      case Heartbeat(nowMs) => SilentSend(w, i, w.all[i].(lastHeartbeatAt := nowMs), HeartbeatAck);
      case ResourceManifestRequest => ManifestViews(w, i);
      case PlayerStateUpdate(s) => StateExact(w, i, s);
      case ResourcesReady => ReadyViews(w, i);
      case Disconnect(reason) => DisconnectViews(w, i, if reason == "" then "client requested disconnect" else reason);
      case Unknown(_) =>
    }
  }

  lemma ReadyViews(w: World, i: nat)
    requires TableInv(w) && ViewsAgree(w) && i in w.all && i in w.clients
    ensures TableInv(OnResourcesReady(w, i)) && ViewsAgree(OnResourcesReady(w, i))
  {
    ReadyKeeps(w, i);
    if !w.all[i].authenticated {
      DisconnectViews(w, i, "resources_ready before authentication");
    } else {
      var s, e := w.all[i].(resourcesReady := true), PlayerReady(w.all[i].playerId, w.all[i].displayName);
      var ready := Update(w, i, Send(s, ResourcesReadyAck));
      SameTable(w, ready);
      SilentSend(w, i, s, ResourcesReadyAck);
      BroadcastPresent(ready, None, e);
      forall v | v in ready.table ensures ViewRight(Broadcast(ready, None, e), v) {
        assert ViewRight(ready, v);
        if ready.all[v].authenticated {
          TellSilently(Present(ready), v, ready.all[v], ready.all[v], ready.clients[v], Broadcasted(e));
        }
      }
    }
  }

  lemma ConnectPresent(w: World, i: nat, nowMs: int)
    requires TableInv(w) && Enabled(w, Connect(i, nowMs))
    ensures Present(Next(w, Connect(i, nowMs))) == Present(w)
  {
  }

  lemma ConnectViews(w: World, i: nat, nowMs: int)
    requires TableInv(w) && ViewsAgree(w) && Enabled(w, Connect(i, nowMs))
    ensures TableInv(Next(w, Connect(i, nowMs))) && ViewsAgree(Next(w, Connect(i, nowMs)))
  {
    var w' := Next(w, Connect(i, nowMs));
    StepKeepsTable(w, Connect(i, nowMs));
    ConnectPresent(w, i, nowMs);
    forall v | v in w'.table ensures ViewRight(w', v) {
      if v != i { assert ViewRight(w, v); }
    }
  }

  /** Delivering the next message moves it from the queue into the client; where the two lead stays the same. */
  lemma DeliverViews(w: World, i: nat)
    requires TableInv(w) && ViewsAgree(w) && Enabled(w, Deliver(i))
    ensures TableInv(Next(w, Deliver(i))) && ViewsAgree(Next(w, Deliver(i)))
  {
    var w', s := Next(w, Deliver(i)), w.all[i];
    StepKeepsTable(w, Deliver(i));
    SamePresent(w, i, s.(sent := s.sent[1..]));
    assert Present(w') == Present(w);
    forall v | v in w'.table ensures ViewRight(w', v) {
      assert ViewRight(w, v);
      if v == i { DeliveredOne(Present(w), i, s, w.clients[i]); }
    }
  }

  lemma DeliveredOne(r: Entries, v: nat, s: Session, c: Client)
    requires Distinct(r) && RightFor(r, v, s, c) && s.sent != []
    ensures RightFor(r, v, s.(sent := s.sent[1..]), Apply(c, s.sent[0]))
  {
    assert ApplyAll(c, s.sent) == ApplyAll(Apply(c, s.sent[0]), s.sent[1..]);
  }

  lemma SocketDownViews(w: World, i: nat)
    requires TableInv(w) && ViewsAgree(w) && Enabled(w, SocketDown(i))
    ensures TableInv(Next(w, SocketDown(i))) && ViewsAgree(Next(w, SocketDown(i)))
  {
    StepKeepsTable(w, SocketDown(i));
    QuietUpdate(w, i, w.all[i].(writable := false));
  }

  /** The main result: from any state in which every client's view is right, a step keeps every view right
      if and only if it is benign. */
  lemma StepExact(w: World, step: Step)
    requires TableInv(w) && ViewsAgree(w) && Enabled(w, step)
    ensures TableInv(Next(w, step))
    ensures ViewsAgree(Next(w, step)) <==> Benign(w, step)
  {
    match step {
      case Connect(i, nowMs) => ConnectViews(w, i, nowMs);
      case Receive(i, request) => MessageExact(w, i, request);
      case SocketDown(i) => SocketDownViews(w, i);
      case SocketClosed(i) => DisconnectViews(w, i, "connection closed");
      case Watchdog(nowMs, timeoutMs) => WatchdogViews(w, w.table, nowMs, timeoutMs);
      case Shutdown => ShutdownViews(w, w.table);
      case Deliver(i) => DeliverViews(w, i);
    }
  }

  // ---------- whole runs ----------

  ghost predicate BenignRun(w: World, steps: seq<Step>)
    decreases |steps|
  {
    steps == [] || (Enabled(w, steps[0]) && Benign(w, steps[0]) && BenignRun(Next(w, steps[0]), steps[1..]))
  }

  lemma {:induction false} BenignRunAgrees(w: World, steps: seq<Step>)
    requires TableInv(w) && ViewsAgree(w) && BenignRun(w, steps)
    ensures CanRun(w, steps) && TableInv(Run(w, steps)) && ViewsAgree(Run(w, steps))
    decreases |steps|
  {
    if steps != [] {
      StepExact(w, steps[0]);
      BenignRunAgrees(Next(w, steps[0]), steps[1..]);
    }
  }

  /** View agreement: in every state reached by benign steps, in any interleaving, the undelivered messages of
      every authenticated session with a working socket lead its client to exactly the current roster. */
  lemma ViewsAlwaysAgree(steps: seq<Step>)
    requires BenignRun(EMPTY, steps)
    ensures CanRun(EMPTY, steps) && TableInv(Run(EMPTY, steps)) && ViewsAgree(Run(EMPTY, steps))
  {
    BenignRunAgrees(EMPTY, steps);
  }

  /** And a client to which everything has been delivered shows that roster now. */
  lemma DeliveredViewIsRoster(w: World, v: nat)
    requires TableInv(w) && ViewsAgree(w) && Viewer(w, v) && w.all[v].sent == []
    ensures Shows(w.clients[v], w.all[v].playerId, Others(Present(w), v))
  {
    assert ViewRight(w, v);
  }

  /** The orderly use of the server: an id nobody has on each first `auth`, no second `auth`, nothing handled
      for a session that has left. */
  ghost predicate Orderly(w: World, step: Step)
    requires Enabled(w, step)
  {
    match step
    case Receive(i, request) =>
      i in w.table
        && (request.Auth? ==> !w.all[i].authenticated && request.playerId != "" && !Taken(w, i, request.playerId))
    case _ => true
  }

  lemma OrderlyIsBenign(w: World, step: Step)
    requires Enabled(w, step) && Orderly(w, step)
    ensures Benign(w, step)
  {
  }

  // ---------- runs that break it ----------

  /** A session's `disconnect` with one more position behind it in the same segment: nothing in the handler
      stops the buffered line, and every other viewer is left with a player that is gone. */
  lemma BufferedStateBreaks(w: World, i: nat, reason: string, left: World, s: Snapshot)
    requires TableInv(w) && ViewsAgree(w) && i in w.table && w.all[i].authenticated && WatchedByOthers(w, i)
    requires left == DisconnectSession(w, i, reason)
    ensures TableInv(left) && ViewsAgree(left) && i in left.all
    ensures TableInv(OnPlayerStateUpdate(left, i, s)) && !ViewsAgree(OnPlayerStateUpdate(left, i, s))
  {
    DisconnectViews(w, i, reason);
    DisconnectDeparts(w, i, reason);
    var v :| v != i && Viewer(w, v);
    StillWatching(w, i, left, v);
    NobodyPlaysAs(w, i, left, v, s);
    LateStateBreaks(left, i, v, s);
  }

  lemma LateStateBreaks(w: World, i: nat, v: nat, s: Snapshot)
    requires TableInv(w) && ViewsAgree(w) && i in w.all && i !in w.table && w.all[i].authenticated
    requires Viewer(w, v) && w.all[v].playerId != w.all[i].playerId && w.all[i].playerId != ""
    requires !ShownAlready(w, v, w.all[i].playerId, s)
    ensures TableInv(OnPlayerStateUpdate(w, i, s)) && !ViewsAgree(OnPlayerStateUpdate(w, i, s))
  {
    StateKeeps(w, i, s);
    LateMoveUnfolds(w, i, s, v);
    LateMoveView(w, i, s, v);
    assert v in OnPlayerStateUpdate(w, i, s).table && !ViewRight(OnPlayerStateUpdate(w, i, s), v);
  }

  lemma StillWatching(w: World, i: nat, left: World, v: nat)
    requires TableInv(w) && ViewsAgree(w) && Departs(w, i, left) && w.all[i].authenticated && v != i && Viewer(w, v)
    ensures i !in left.table && Viewer(left, v) && left.all[i].authenticated
      && left.all[i].playerId == w.all[i].playerId
    ensures left.all[v].playerId != w.all[i].playerId && w.all[i].playerId != ""
  {
    WithoutIs(w.table, i);
    assert left.all[v] == Farewell(w, i, v);
    assert Present(w)[i].playerId == w.all[i].playerId && Present(w)[v].playerId == w.all[v].playerId;
  }

  lemma NobodyPlaysAs(w: World, i: nat, left: World, v: nat, s: Snapshot)
    requires TableInv(w) && ViewsAgree(w) && Departs(w, i, left) && w.all[i].authenticated
    ensures !ShownAlready(left, v, w.all[i].playerId, s)
  {
    WithoutIs(w.table, i);
    forall o | o in left.table && o in left.all && left.all[o].authenticated
      ensures left.all[o].playerId != w.all[i].playerId
    {
      FarewellEntry(w, i, o);
      assert left.all[o] == Farewell(w, i, o);
      assert Present(w)[i].playerId == w.all[i].playerId && Present(w)[o].playerId == w.all[o].playerId;
    }
  }

  /** A session that has connected, said hello in the right version and authenticated. */
  function Arrival(i: nat, playerId: string, displayName: string): seq<Step> {
    [Connect(i, 0), Receive(i, Hello("1.0")), Receive(i, Auth(playerId, displayName))]
  }

  lemma Compatible()
    ensures IsProtocolCompatible("1.0")
  {
  }

  lemma {:induction false} RunConcat(w: World, a: seq<Step>, b: seq<Step>)
    requires BenignRun(w, a) && CanRun(w, a) && BenignRun(Run(w, a), b)
    ensures BenignRun(w, a + b) && CanRun(w, a + b) && CanRun(Run(w, a), b) && Run(w, a + b) == Run(Run(w, a), b)
    decreases |a|
  {
    BenignCanRun(Run(w, a), b);
    if a == [] {
      assert a + b == b;
    } else {
      assert (a + b)[1..] == a[1..] + b;
      RunConcat(Next(w, a[0]), a[1..], b);
    }
  }

  lemma {:induction false} BenignCanRun(w: World, steps: seq<Step>)
    requires BenignRun(w, steps)
    ensures CanRun(w, steps)
    decreases |steps|
  {
    if steps != [] { BenignCanRun(Next(w, steps[0]), steps[1..]); }
  }

  /** Connected and greeted. */
  lemma Greets(w: World, i: nat, w1: World, w2: World)
    requires TableInv(w) && i !in w.all
    requires w1 == Next(w, Connect(i, 0)) && w2 == OnHello(w1, i, "1.0")
    ensures Enabled(w1, Receive(i, Hello("1.0"))) && w2.table == w.table + [i]
      && w2.all.Keys == w2.clients.Keys == w.all.Keys + {i}
    ensures w2.all[i].helloReceived && w2.all[i].writable && !w2.all[i].authenticated
      && w2.all[i].sent == [HelloAck(true)] && w2.all[i].lastPlayerState == None
      && w2.clients == w.clients[i := Waiting]
    ensures forall v :: v in w.all ==> w2.all[v] == w.all[v]
  {
    Compatible();
  }

  lemma GreetedFree(w: World, i: nat, w2: World, p: string)
    requires TableInv(w) && !Taken(w, i, p) && w2.table == w.table + [i] && forall v :: v in w.all ==>
      v in w2.all && w2.all[v] == w.all[v]
    ensures !Taken(w2, i, p)
  {
  }

  lemma Authenticates(w: World, i: nat, p: string, name: string, w': World)
    requires i in w.table && i in w.all && w.all[i].helloReceived && w.all[i].writable && w' == OnAuth(w, i, p, name)
    ensures Viewer(w', i) && w'.all[i].playerId == p && w'.all.Keys == w.all.Keys && w'.table == w.table
    ensures EntryOf(w'.all[i]) == Entry(p, name, w.all[i].lastPlayerState) && w'.clients == w.clients
      && w'.all[i].sent == w.all[i].sent + [AuthResult(p, name)] + Introductions(w.all, w.table, i)
    ensures forall v :: v in w.all && v != i ==> w'.all[v] == w.all[v].(sent := w'.all[v].sent)
  {
    AdmittedFields(w, i, p, name);
    AuthTold(w, i, p, name, i);
    forall v | v in w.all && v != i
      ensures w'.all[v] == w.all[v].(sent := w'.all[v].sent)
    {
      AuthTold(w, i, p, name, v);
    }
  }

  /** Being last in the table changes nothing about whom one is told of. */
  lemma {:induction false} IntroductionsBeforeLast(w: World, all: map<nat, Session>, order: seq<nat>, i: nat)
    requires i !in w.all && forall v :: v in order ==> v in w.all
    requires forall v :: v in w.all ==> v in all && all[v] == w.all[v]
    ensures Introductions(all, order + [i], i) == Introductions(w.all, order, i)
    decreases |order|
  {
    if order == [] {
      assert [i][1..] == [] && order + [i] == [i];
    } else {
      assert (order + [i])[1..] == order[1..] + [i];
      IntroductionsBeforeLast(w, all, order[1..], i);
    }
  }

  /** Anybody new can join, and from then on watches and is watched. */
  lemma Arrives(w: World, i: nat, p: string, name: string) returns (w': World)
    requires TableInv(w) && i !in w.all && p != "" && !Taken(w, i, p)
    ensures BenignRun(w, Arrival(i, p, name)) && CanRun(w, Arrival(i, p, name)) && w' == Run(w, Arrival(i, p, name))
    ensures Viewer(w', i) && w'.all[i].playerId == p && w'.all.Keys == w.all.Keys + {i} && w'.table == w.table + [i]
    ensures EntryOf(w'.all[i]) == Entry(p, name, None) && w'.clients == w.clients[i := Waiting]
      && w'.all[i].sent == [HelloAck(true), AuthResult(p, name)] + Introductions(w.all, w.table, i)
    ensures forall v :: v in w.all ==> w'.all[v] == w.all[v].(sent := w'.all[v].sent)
  {
    hide BenignRun, CanRun, Run, Arrival, OnHello, OnAuth, Introductions;
    var w1 := Next(w, Connect(i, 0));
    var w2 := OnHello(w1, i, "1.0");
    Greets(w, i, w1, w2);
    GreetedFree(w, i, w2, p);
    w' := OnAuth(w2, i, p, name);
    Authenticates(w2, i, p, name, w');
    IntroductionsBeforeLast(w, w2.all, w.table, i);
    assert [HelloAck(true)] + [AuthResult(p, name)] == [HelloAck(true), AuthResult(p, name)];
    ArrivalSteps(w, i, p, name, w1, w2, w');
  }

  lemma ArrivalSteps(w: World, i: nat, p: string, name: string, w1: World, w2: World, w3: World)
    requires TableInv(w) && i !in w.all && w1 == Next(w, Connect(i, 0))
    requires Enabled(w1, Receive(i, Hello("1.0"))) && w2 == OnHello(w1, i, "1.0")
    requires w2.table == w.table + [i] && w2.all.Keys == w2.clients.Keys == w.all.Keys + {i} && !w2.all[i].authenticated
    requires p != "" && !Taken(w2, i, p) && w3 == OnAuth(w2, i, p, name)
    ensures BenignRun(w, Arrival(i, p, name)) && CanRun(w, Arrival(i, p, name)) && w3 == Run(w, Arrival(i, p, name))
  {
    var s := Arrival(i, p, name);
    assert Enabled(w2, s[2]) && Benign(w2, s[2]);
    ThreeSteps(w, s, w1, w2, w3);
  }

  lemma ThreeSteps(w: World, s: seq<Step>, w1: World, w2: World, w3: World)
    requires |s| == 3 && Enabled(w, s[0]) && Benign(w, s[0]) && w1 == Next(w, s[0])
    requires Enabled(w1, s[1]) && Benign(w1, s[1]) && w2 == Next(w1, s[1])
    requires Enabled(w2, s[2]) && Benign(w2, s[2]) && w3 == Next(w2, s[2])
    ensures BenignRun(w, s) && CanRun(w, s) && Run(w, s) == w3
  {
    var t, u := s[1..], s[2..];
    assert t[1..] == u && t[0] == s[1] && u[0] == s[2] && u[1..] == [];
    assert BenignRun(w3, []) && Run(w3, []) == w3;
    assert BenignRun(w2, u) && CanRun(w2, u) && Run(w2, u) == w3;
    assert BenignRun(w1, t) && CanRun(w1, t) && Run(w1, t) == w3;
  }

  lemma OneIntroduction(all: map<nat, Session>, j: nat, i: nat)
    requires j in all && j != i && all[j].authenticated && all[j].lastPlayerState == None
    ensures Introductions(all, [j], i) == [Broadcasted(PlayerJoined(all[j].playerId, all[j].displayName))]
  {
    assert [j][1..] == [];
  }

  /** Two players who arrived in orderly fashion. */
  lemma TwoArrive() returns (steps: seq<Step>, w: World)
    ensures steps == Arrival(0, "aaaaaaaa", "A") + Arrival(1, "bbbbbbbb", "B")
    ensures BenignRun(EMPTY, steps) && CanRun(EMPTY, steps) && w == Run(EMPTY, steps)
    ensures 1 in w.table && 1 in w.all && w.all[1].authenticated && WatchedByOthers(w, 1)
    ensures Viewer(w, 1) && w.all[1].playerId == "bbbbbbbb" && w.clients == map[0 := Waiting, 1 := Waiting]
      && w.all[1].sent ==
        [HelloAck(true), AuthResult("bbbbbbbb", "B"), Broadcasted(PlayerJoined("aaaaaaaa", "A"))]
  {
    hide BenignRun, CanRun, Run, Next, Arrival, Introductions, ViewsAgree, Taken;
    var one, two := Arrival(0, "aaaaaaaa", "A"), Arrival(1, "bbbbbbbb", "B");
    steps := one + two;
    NobodyYet("aaaaaaaa");
    var w1 := Arrives(EMPTY, 0, "aaaaaaaa", "A");
    ViewsAlwaysAgree(one);
    OnlyOneTaken(w1, "aaaaaaaa", "bbbbbbbb");
    OneIntroduction(w1.all, 0, 1);
    w := Arrives(w1, 1, "bbbbbbbb", "B");
    RunConcat(EMPTY, one, two);
    assert 0 in w1.all && Viewer(w, 0);
  }

  lemma OneStep(w: World, a: Step)
    requires Enabled(w, a)
    ensures CanRun(w, [a]) && Run(w, [a]) == Next(w, a)
  {
    assert [a][1..] == [];
    assert CanRun(Next(w, a), []) && Run(Next(w, a), []) == Next(w, a);
  }

  /** Two more steps at the end of a run. */
  lemma {:induction false} TwoMoreSteps(w: World, steps: seq<Step>, a: Step, b: Step)
    requires CanRun(w, steps) && Enabled(Run(w, steps), a) && Enabled(Next(Run(w, steps), a), b)
    ensures CanRun(w, steps + [a, b]) && Run(w, steps + [a, b]) == Next(Next(Run(w, steps), a), b)
    decreases |steps|
  {
    if steps == [] {
      assert steps + [a, b] == [a, b] && [a, b][1..] == [b] && [b][1..] == [];
      OneStep(Next(w, a), b);
    } else {
      assert (steps + [a, b])[1..] == steps[1..] + [a, b];
      TwoMoreSteps(Next(w, steps[0]), steps[1..], a, b);
    }
  }

  /** A `disconnect` and a position buffered behind it. */
  function LeavesWithMore(i: nat, s: Snapshot): seq<Step> {
    [Receive(i, Disconnect("")), Receive(i, PlayerStateUpdate(s))]
  }

  lemma LeaveIs(w: World, i: nat)
    requires TableInv(w) && i in w.all
    ensures Enabled(w, Receive(i, Disconnect("")))
    ensures Next(w, Receive(i, Disconnect(""))) == DisconnectSession(w, i, "client requested disconnect")
  {
  }

  lemma MoveIs(w: World, i: nat, s: Snapshot)
    requires TableInv(w) && i in w.all
    ensures Enabled(w, Receive(i, PlayerStateUpdate(s)))
    ensures Next(w, Receive(i, PlayerStateUpdate(s))) == OnPlayerStateUpdate(w, i, s)
  {
  }

  /** The broken state is really reached: of those two, one leaves with a position still buffered behind its
      `disconnect`. The whole is a run from the empty server, orderly but for its last step. */
  lemma BufferedStateReached(s: Snapshot)
    ensures var orderly := Arrival(0, "aaaaaaaa", "A") + Arrival(1, "bbbbbbbb", "B");
      var steps := orderly + LeavesWithMore(1, s);
      && BenignRun(EMPTY, orderly)
      && CanRun(EMPTY, steps) && TableInv(Run(EMPTY, steps)) && !ViewsAgree(Run(EMPTY, steps))
  {
    var orderly, w := TwoArrive();
    ViewsAlwaysAgree(orderly);
    var left := DisconnectSession(w, 1, "client requested disconnect");
    BufferedStateBreaks(w, 1, "client requested disconnect", left, s);
    LeaveIs(w, 1);
    MoveIs(left, 1, s);
    TwoMoreSteps(EMPTY, orderly, Receive(1, Disconnect("")), Receive(1, PlayerStateUpdate(s)));
  }

  lemma NobodyYet(p: string)
    ensures TableInv(EMPTY) && !Taken(EMPTY, 0, p)
  {
  }

  lemma OnlyOneTaken(w: World, p: string, q: string)
    requires w.table == [0] && 0 in w.all && w.all[0].playerId == p && p != q
    ensures !Taken(w, 1, q)
  {
  }
}

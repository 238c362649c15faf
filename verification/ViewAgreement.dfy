/** Every client ends up seeing exactly the authenticated sessions: when it holds, and exactly which steps break it. */
module ViewAgreement {
  import opened Wrappers
  import opened ConnectionState
  import opened NetworkState
  import opened ClientView
  import opened Roster
  import opened Presence
  import opened PresenceInvariant

  /** Seen from one session s, numbered v, with a client that has got to c: if the socket works, what is still
      to be delivered leads to the roster r, or to nothing before authentication. */
  ghost predicate RightFor(r: Entries, v: nat, s: Session, c: Client)
    requires Distinct(r)
  {
    s.writable ==>
      if s.authenticated then v in r && Agrees(r, v, ApplyAll(c, s.sent)) else ApplyAll(c, s.sent).Waiting?
  }

  /** An authenticated session in the table whose socket works. */
  predicate Viewer(w: World, v: nat) {
    v in w.table && v in w.all && w.all[v].authenticated && w.all[v].writable
  }

  ghost predicate ViewRight(w: World, v: nat)
    requires Distinct(Present(w))
  {
    v in w.all && v in w.clients && RightFor(Present(w), v, w.all[v], w.clients[v])
  }

  /** The promise of docs/synchronization.md: player ids are distinct, and the undelivered messages of every
      session with a working socket lead its client to exactly the current roster. */
  ghost predicate ViewsAgree(w: World)
    requires TableInv(w)
  {
    Distinct(Present(w)) && forall v :: v in w.table ==> ViewRight(w, v)
  }

  // ---------- one session's share of a step ----------

  /** Messages that change no view. */
  predicate Silent(m: Msg) {
    !m.AuthResult? && (m.Broadcasted? ==> m.e.PlayerReady?)
  }

  lemma TellSilently(r: Entries, v: nat, s: Session, s': Session, c: Client, m: Msg)
    requires Distinct(r) && RightFor(r, v, s, c) && Silent(m)
    requires s'.authenticated == s.authenticated && s'.writable == s.writable && s'.sent == s.sent
    ensures RightFor(r, v, Send(s', m), c)
  {
    ApplyOne(c, s.sent, m);
  }

  /** Session v as `broadcastExcept` leaves it, when it is not the one left out. */
  function Told(s: Session, e: Event): Session {
    if s.authenticated then Send(s, Broadcasted(e)) else s
  }

  /** A told session is right for a new roster when the event leads its client there. */
  lemma ToldRight(r: Entries, v: nat, s: Session, c: Client, e: Event)
    requires Distinct(r) && s.authenticated && s.writable && v in r
    requires Agrees(r, v, Apply(ApplyAll(c, s.sent), Broadcasted(e)))
    ensures RightFor(r, v, Told(s, e), c)
  {
    ApplyOne(c, s.sent, Broadcasted(e));
  }

  lemma TellLeft(r: Entries, i: nat, v: nat, s: Session, c: Client)
    requires Distinct(r) && i in r && v != i && RightFor(r, v, s, c) && Distinct(r - {i})
    ensures RightFor(r - {i}, v, Told(s, PlayerLeft(r[i].playerId)), c)
  {
    if s.authenticated && s.writable {
      ViewLeaves(r, i, v, ApplyAll(c, s.sent));
      ToldRight(r - {i}, v, s, c, PlayerLeft(r[i].playerId));
    }
  }

  lemma TellMoved(r: Entries, i: nat, e: Entry, state: Snapshot, v: nat, s: Session, c: Client)
    requires Distinct(r) && i in r && v != i && RightFor(r, v, s, c)
    requires e == r[i].(last := Some(state)) && Distinct(r[i := e])
    ensures RightFor(r[i := e], v, Told(s, PlayerState(e.playerId, state)), c)
  {
    if s.authenticated && s.writable {
      ViewMoves(r, i, e, state, v, ApplyAll(c, s.sent));
      ToldRight(r[i := e], v, s, c, PlayerState(e.playerId, state));
    }
  }

  lemma TellJoined(r: Entries, i: nat, e: Entry, v: nat, s: Session, c: Client)
    requires Distinct(r) && i !in r && e.playerId != "" && e.playerId !in Who(r) && e.last.None?
    requires v != i && RightFor(r, v, s, c) && Distinct(r[i := e])
    ensures RightFor(r[i := e], v, Told(s, PlayerJoined(e.playerId, e.displayName)), c)
  {
    if s.authenticated && s.writable {
      ViewJoins(r, i, e, v, ApplyAll(c, s.sent));
      ToldRight(r[i := e], v, s, c, PlayerJoined(e.playerId, e.displayName));
    }
  }

  // ---------- steps nobody sees ----------

  lemma SamePresent(w: World, i: nat, s: Session)
    requires i in w.all && EntryOf(s) == EntryOf(w.all[i]) && s.authenticated == w.all[i].authenticated
    ensures Present(Update(w, i, s)) == Present(w)
  {
  }

  /** A change of one session that its viewers do not notice. */
  lemma QuietUpdate(w: World, i: nat, s: Session)
    requires TableInv(w) && ViewsAgree(w) && i in w.all
    requires s.authenticated == w.all[i].authenticated && EntryOf(s) == EntryOf(w.all[i])
    requires i in w.table ==> RightFor(Present(w), i, s, w.clients[i])
    requires TableInv(Update(w, i, s))
    ensures ViewsAgree(Update(w, i, s))
  {
    var w' := Update(w, i, s);
    SamePresent(w, i, s);
    forall v | v in w'.table ensures ViewRight(w', v) { assert ViewRight(w, v); }
  }

  lemma SilentSend(w: World, i: nat, s: Session, m: Msg)
    requires TableInv(w) && ViewsAgree(w) && i in w.all && Silent(m)
    requires EntryOf(s) == EntryOf(w.all[i]) && s.authenticated == w.all[i].authenticated
    requires s.sent == w.all[i].sent && s.writable == w.all[i].writable
    requires TableInv(Update(w, i, Send(s, m)))
    ensures ViewsAgree(Update(w, i, Send(s, m)))
  {
    if i in w.table {
      assert ViewRight(w, i);
      TellSilently(Present(w), i, w.all[i], s, w.clients[i], m);
    }
    QuietUpdate(w, i, Send(s, m));
  }

  // ---------- leaving ----------

  lemma FarewellEntry(w: World, i: nat, j: nat)
    requires i in w.all && j in w.all
    ensures EntryOf(Farewell(w, i, j)) == EntryOf(w.all[j]) && Farewell(w, i, j).authenticated == w.all[j].authenticated
  {
  }

  lemma DeparturePresent(w: World, i: nat, w': World)
    requires Departs(w, i, w')
    ensures Present(w') == if w.all[i].authenticated then Present(w) - {i} else Present(w)
  {
    WithoutIs(w.table, i);
    forall j | j in w.all && j != i
      ensures EntryOf(w'.all[j]) == EntryOf(w.all[j]) && w'.all[j].authenticated == w.all[j].authenticated
    {
      FarewellEntry(w, i, j);
    }
    var a, b := Present(w'), Present(w);
    assert i !in a && forall j :: j in a <==> j in b && j != i;
  }

  /** Whoever leaves disappears from every view. */
  lemma DepartureViews(w: World, i: nat, w': World)
    requires TableInvBut(w, i) && Departs(w, i, w') && TableInv(w') && Distinct(Present(w))
    requires forall v :: v in w.table && v != i ==> ViewRight(w, v)
    ensures ViewsAgree(w')
  {
    WithoutIs(w.table, i);
    DeparturePresent(w, i, w');
    if w.all[i].authenticated { WithoutOne(Present(w), i); }
    forall v | v in w'.table ensures ViewRight(w', v) {
      assert ViewRight(w, v) && w'.all[v] == Farewell(w, i, v);
      if w.all[i].authenticated {
        TellLeft(Present(w), i, v, w.all[v], w.clients[v]);
      }
    }
  }

  lemma DisconnectViews(w: World, i: nat, reason: string)
    requires TableInv(w) && ViewsAgree(w) && i in w.all
    ensures TableInv(DisconnectSession(w, i, reason)) && ViewsAgree(DisconnectSession(w, i, reason))
  {
    DisconnectKeeps(w, i, reason);
    if i in w.table {
      DisconnectDeparts(w, i, reason);
      DepartureViews(w, i, DisconnectSession(w, i, reason));
    }
  }

  lemma HelloViews(w: World, i: nat, version: string)
    requires TableInv(w) && ViewsAgree(w) && i in w.all
    ensures TableInv(OnHello(w, i, version)) && ViewsAgree(OnHello(w, i, version))
  {
    HelloKeeps(w, i, version);
    var ack := HelloAck(IsProtocolCompatible(version));
    var s := w.all[i].(helloReceived := true);
    if IsProtocolCompatible(version) {
      assert OnHello(w, i, version) == Update(w, i, Send(TransitionTo(s, Authenticating), ack));
      SilentSend(w, i, TransitionTo(s, Authenticating), ack);
    } else {
      RefusedViews(w, i, Send(s, ack), "incompatible protocol version");
    }
  }

  /** A session that is disconnected right after its flags and queue changed. */
  lemma RefusedViews(w: World, i: nat, s: Session, reason: string)
    requires TableInv(w) && ViewsAgree(w) && i in w.all && i in w.clients
    requires s == w.all[i].(helloReceived := s.helloReceived, sent := s.sent)
      && (i !in w.table ==> TableInv(Update(w, i, s)))
    requires TableInv(DisconnectSession(Update(w, i, s), i, reason))
    ensures ViewsAgree(DisconnectSession(Update(w, i, s), i, reason))
  {
    var w0 := Update(w, i, s);
    if i in w.table {
      SamePresent(w, i, s);
      DisconnectDeparts(w0, i, reason);
      forall v | v in w0.table && v != i ensures ViewRight(w0, v) { assert ViewRight(w, v); }
      DepartureViews(w0, i, DisconnectSession(w0, i, reason));
    } else {
      QuietUpdate(w, i, s);
    }
  }

  lemma {:induction false} WatchdogViews(w: World, ids: seq<nat>, nowMs: int, timeoutMs: int)
    requires TableInv(w) && ViewsAgree(w) && forall j :: j in ids ==> j in w.all
    ensures TableInv(DisconnectExpired(w, ids, nowMs, timeoutMs))
      && ViewsAgree(DisconnectExpired(w, ids, nowMs, timeoutMs))
    decreases |ids|
  {
    if ids != [] {
      DisconnectViews(w, ids[0], "heartbeat timeout");
      var next := if IsHeartbeatExpired(w.all[ids[0]], nowMs, timeoutMs)
        then DisconnectSession(w, ids[0], "heartbeat timeout") else w;
      WatchdogViews(next, ids[1..], nowMs, timeoutMs);
    }
  }

  lemma {:induction false} ShutdownViews(w: World, ids: seq<nat>)
    requires TableInv(w) && ViewsAgree(w) && forall j :: j in ids ==> j in w.all
    ensures TableInv(DisconnectAll(w, ids)) && ViewsAgree(DisconnectAll(w, ids))
    decreases |ids|
  {
    if ids != [] {
      DisconnectViews(w, ids[0], "server shutting down");
      ShutdownViews(DisconnectSession(w, ids[0], "server shutting down"), ids[1..]);
    }
  }

  // ---------- moving ----------

  /** A broadcast, session by session. */
  lemma BroadcastTold(w: World, i: nat, e: Event, v: nat)
    requires v in w.all
    ensures Broadcast(w, Some(i), e).all[v] == if v in w.table && v != i then Told(w.all[v], e) else w.all[v]
    ensures Broadcast(w, Some(i), e).table == w.table && Broadcast(w, Some(i), e).clients == w.clients
  {
  }

  lemma BroadcastPresent(w: World, except: Option<nat>, e: Event)
    ensures Present(Broadcast(w, except, e)) == Present(w)
  {
  }

  /** The roster after one session's entry changed in place. */
  lemma PresentChange(w: World, i: nat, s: Session)
    requires i in w.all && i in w.table && s.authenticated
    ensures Present(Update(w, i, s)) == Present(w)[i := EntryOf(s)]
  {
  }

  lemma MoveViews(w: World, i: nat, s: Snapshot)
    requires TableInv(w) && ViewsAgree(w) && i in w.table && w.all[i].authenticated
    ensures TableInv(OnPlayerStateUpdate(w, i, s)) && ViewsAgree(OnPlayerStateUpdate(w, i, s))
  {
    StateKeeps(w, i, s);
    var mover := w.all[i].(lastPlayerState := Some(s));
    var r, e := Present(w), EntryOf(mover);
    PresentChange(w, i, mover);
    DistinctChange(r, i, e);
    var moved := Update(w, i, mover);
    BroadcastPresent(moved, Some(i), PlayerState(mover.playerId, s));
    forall v | v in w.table ensures ViewRight(Broadcast(moved, Some(i), PlayerState(mover.playerId, s)), v) {
      assert ViewRight(w, v);
      BroadcastTold(moved, i, PlayerState(mover.playerId, s), v);
      if v == i {
        MoverStays(r, i, e, w.all[i], mover, w.clients[i]);
      } else {
        TellMoved(r, i, e, s, v, w.all[v], w.clients[v]);
      }
    }
  }

  /** One's own state is no part of one's own view. */
  lemma MoverStays(r: Entries, i: nat, e: Entry, s: Session, s': Session, c: Client)
    requires Distinct(r) && i in r && RightFor(r, i, s, c) && e.playerId == r[i].playerId && Distinct(r[i := e])
    requires s'.sent == s.sent && s'.authenticated == s.authenticated && s'.writable == s.writable
    ensures RightFor(r[i := e], i, s', c)
  {
    OthersChange(r, i, e, i);
  }
}

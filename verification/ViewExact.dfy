/** Exactly which steps keep every client's view right. */
module ViewExact {
  import opened Wrappers
  import opened NetworkState
  import opened ClientView
  import opened Roster
  import opened Presence
  import opened PresenceInvariant
  import opened ViewAgreement

  ghost predicate Taken(w: World, except: nat, playerId: string) {
    exists o :: o in w.table && o in w.all && o != except && w.all[o].authenticated && w.all[o].playerId == playerId
  }

  ghost predicate WatchedByOthers(w: World, i: nat) {
    exists v :: v != i && Viewer(w, v)
  }

  /** Session o's client already is what a state s of player p would make it. */
  ghost predicate ShownAlready(w: World, v: nat, p: string, s: Snapshot) {
    exists o :: o in w.table && o in w.all && o != v && w.all[o].authenticated && w.all[o].playerId == p &&
      w.all[o].lastPlayerState == Some(s)
  }

  /** The steps that keep views right, as a check on the table before the step. Only two kinds of message can
      break them: an `auth` (on a new session: with an empty or taken id; on an authenticated one: unless it
      changes nothing anybody sees; on a removed one: when it names somebody new to a viewer) and a
      `player_state` of a removed session. */
  ghost predicate Benign(w: World, step: Step)
    requires Enabled(w, step)
  {
    match step
    case Receive(i, Auth(p, name)) =>
      var s := w.all[i];
      if !s.helloReceived then true
      else if i in w.table then
        p != "" && !Taken(w, i, p) &&
        (s.authenticated ==>
          (p == s.playerId || (!s.writable && !WatchedByOthers(w, i))) &&
          (name == s.displayName || !WatchedByOthers(w, i)))
      else p == "" || Taken(w, i, p) || !WatchedByOthers(w, i)
    case Receive(i, PlayerStateUpdate(s)) =>
      i in w.table || !w.all[i].authenticated || w.all[i].playerId == "" ||
      forall v :: Viewer(w, v) ==> w.all[v].playerId == w.all[i].playerId || ShownAlready(w, v, w.all[i].playerId, s)
    case _ => true
  }

  // ---------- being announced ----------

  lemma TakenIsKnown(w: World, i: nat, p: string)
    requires Distinct(Present(w)) && (i in w.table ==> i in w.all)
    ensures Taken(w, i, p) <==> p in Who(Present(w)) && Who(Present(w))[p] != i
  {
    var r := Present(w);
    if Taken(w, i, p) {
      var o :| o in w.table && o in w.all && o != i && w.all[o].authenticated && w.all[o].playerId == p;
      assert o in r && r[o].playerId == p;
    }
    if p in Who(r) && Who(r)[p] != i {
      assert r[Who(r)[p]].playerId == p;
    }
  }

  /** Announcing somebody already in a view changes nothing. */
  lemma KnownAgain(r: Entries, v: nat, c: Client, p: string, name: string)
    requires Distinct(r) && v in r && Agrees(r, v, c) && (p == "" || p in Who(r))
    ensures Apply(c, Broadcasted(PlayerJoined(p, name))) == c
  {
    if p in Who(r) && Who(r)[p] != v { assert p in Others(r, v); }
  }

  lemma TellKnown(r: Entries, v: nat, s: Session, c: Client, p: string, name: string)
    requires Distinct(r) && RightFor(r, v, s, c) && (p == "" || p in Who(r))
    ensures RightFor(r, v, Told(s, PlayerJoined(p, name)), c)
  {
    if s.authenticated && s.writable {
      KnownAgain(r, v, ApplyAll(c, s.sent), p, name);
      ToldRight(r, v, s, c, PlayerJoined(p, name));
    }
  }

  /** Announcing somebody nobody plays as puts a ghost into the view. */
  lemma GhostJoins(r: Entries, v: nat, c: Client, p: string, name: string)
    requires Distinct(r) && v in r && Agrees(r, v, c) && p != "" && p !in Who(r)
    ensures !Agrees(r, v, Apply(c, Broadcasted(PlayerJoined(p, name))))
  {
    assert p !in Others(r, v) && p != r[v].playerId;
    assert p in Apply(c, Broadcasted(PlayerJoined(p, name))).entities;
  }

  // ---------- a newcomer ----------

  lemma {:induction false} IntroductionsBackfill(all: map<nat, Session>, order: seq<nat>, r: Entries, i: nat)
    requires forall j :: j in order && j != i ==> (j in r <==> j in all && all[j].authenticated)
    requires forall j :: j in order && j != i && j in r ==> r[j] == EntryOf(all[j])
    ensures Introductions(all, order, i) == Backfill(r, order, i)
    decreases |order|
  {
    if order != [] {
      assert order[0] in order && forall j :: j in order[1..] ==> j in order;
      IntroductionsBackfill(all, order[1..], r, i);
    }
  }

  lemma AdmittedApplies(w: World, i: nat, p: string, name: string, c: Client)
    requires i in w.all && w.all[i].writable
    ensures ApplyAll(c, Admitted(w, i, p, name).sent) ==
      ApplyAll(Apply(ApplyAll(c, w.all[i].sent), AuthResult(p, name)), Introductions(w.all, w.table, i))
  {
    var sent := w.all[i].sent;
    ApplyOne(c, sent, AuthResult(p, name));
    ApplyConcat(c, sent + [AuthResult(p, name)], Introductions(w.all, w.table, i));
  }

  /** Whoever is admitted, for the first time or again under the same id, is told the whole roster. */
  lemma NewcomerRight(w: World, i: nat, p: string, name: string, r: Entries, c: Client, ps: Players)
    requires TableInv(w) && i in w.all && Distinct(r) && i in r && r[i].playerId == p
    requires forall j :: j in w.table && j != i ==> (j in r <==> j in w.all && w.all[j].authenticated)
    requires forall j :: j in r && j != i ==> j in w.table && j in w.all && r[j] == EntryOf(w.all[j])
    requires w.all[i].writable ==>
      Shows(Apply(ApplyAll(c, w.all[i].sent), AuthResult(p, name)), p, ps) &&
      forall q :: q in ps ==> q in Others(r, i) && ps[q] == Others(r, i)[q]
    ensures RightFor(r, i, Admitted(w, i, p, name), c)
  {
    if w.all[i].writable {
      AdmittedApplies(w, i, p, name, c);
      IntroductionsBackfill(w.all, w.table, r, i);
      BackfillShows(Apply(ApplyAll(c, w.all[i].sent), AuthResult(p, name)), ps, r, w.table, i);
    }
  }

  lemma AdmittedFields(w: World, i: nat, p: string, name: string)
    requires i in w.all
    ensures Admitted(w, i, p, name) == w.all[i].(authenticated := true, playerId := p, displayName := name,
      state := Admitted(w, i, p, name).state, sent := Admitted(w, i, p, name).sent)
  {
  }

  lemma AuthPresent(w: World, i: nat, p: string, name: string)
    requires i in w.all && w.all[i].helloReceived
    ensures Present(OnAuth(w, i, p, name)) ==
      if i in w.table then Present(w)[i := Entry(p, name, w.all[i].lastPlayerState)] else Present(w)
  {
    var s := Admitted(w, i, p, name);
    AdmittedFields(w, i, p, name);
    var told := Update(w, i, s);
    if i in w.table {
      PresentChange(w, i, s);
    } else {
      assert Present(told) == Present(w);
    }
    BroadcastPresent(told, Some(i), PlayerJoined(p, name));
  }

  /** Every session but the one that authenticates. */
  lemma AuthTold(w: World, i: nat, p: string, name: string, v: nat)
    requires i in w.all && w.all[i].helloReceived && v in w.all
    ensures OnAuth(w, i, p, name) == w.(all := OnAuth(w, i, p, name).all) && v in OnAuth(w, i, p, name).all
    ensures OnAuth(w, i, p, name).all[v] == if v == i then Admitted(w, i, p, name)
      else if v in w.table then Told(w.all[v], PlayerJoined(p, name)) else w.all[v]
  {
    BroadcastTold(Update(w, i, Admitted(w, i, p, name)), i, PlayerJoined(p, name), v);
  }

  lemma FirstAuthOwnView(w: World, i: nat, p: string, name: string, r: Entries)
    requires TableInv(w) && i in w.table && i in w.all && i in w.clients && !w.all[i].authenticated
    requires Distinct(Present(w)) && ViewRight(w, i) && p != ""
    requires Distinct(r) && r == Present(w)[i := Entry(p, name, None)]
    ensures RightFor(r, i, Admitted(w, i, p, name), w.clients[i])
  {
    assert r[i].playerId == p;
    NewcomerRight(w, i, p, name, r, w.clients[i], map[]);
  }

  lemma FirstAuthViews(w: World, i: nat, p: string, name: string)
    requires TableInv(w) && ViewsAgree(w) && i in w.table && w.all[i].helloReceived && !w.all[i].authenticated
    requires p != "" && !Taken(w, i, p)
    ensures TableInv(OnAuth(w, i, p, name)) && ViewsAgree(OnAuth(w, i, p, name))
  {
    AuthKeeps(w, i, p, name);
    var w', r, e := OnAuth(w, i, p, name), Present(w), Entry(p, name, None);
    AuthPresent(w, i, p, name);
    TakenIsKnown(w, i, p);
    WhoJoin(r, i, e);
    forall v | v in w'.table ensures ViewRight(w', v) {
      assert ViewRight(w, v);
      AuthTold(w, i, p, name, v);
      if v == i {
        FirstAuthOwnView(w, i, p, name, r[i := e]);
      } else {
        TellJoined(r, i, e, v, w.all[v], w.clients[v]);
      }
    }
  }

  // ---------- authenticating again ----------

  /** The roster after session i took a new name, and an id nobody else has. */
  lemma RenamedDistinct(r: Entries, i: nat, e: Entry)
    requires Distinct(r) && i in r && e.playerId != "" && (e.playerId in Who(r) ==> Who(r)[e.playerId] == i)
    ensures Distinct(r[i := e])
    ensures e.playerId == r[i].playerId ==> Others(r[i := e], i) == Others(r, i)
  {
    forall o | o in r && o != i ensures r[o].playerId != e.playerId {
      assert Who(r)[r[o].playerId] == o;
    }
    assert forall o :: o in r[i := e] && o != i ==> o in r && r[i := e][o] == r[o];
    if e.playerId == r[i].playerId { OthersChange(r, i, e, i); }
  }

  lemma AgainOwnView(w: World, i: nat, p: string, name: string, r: Entries)
    requires TableInv(w) && i in w.table && i in w.all && i in w.clients && w.all[i].authenticated
    requires Distinct(Present(w)) && ViewRight(w, i)
    requires Distinct(r) && r == Present(w)[i := Entry(p, name, w.all[i].lastPlayerState)]
    requires w.all[i].writable ==> p == w.all[i].playerId
    ensures RightFor(r, i, Admitted(w, i, p, name), w.clients[i])
  {
    assert r[i].playerId == p && i in Present(w) && Present(w)[i].playerId == w.all[i].playerId;
    if w.all[i].writable {
      OthersChange(Present(w), i, r[i], i);
      NewcomerRight(w, i, p, name, r, w.clients[i], Others(r, i));
    }
  }

  lemma AgainViews(w: World, i: nat, p: string, name: string)
    requires TableInv(w) && ViewsAgree(w) && i in w.table && w.all[i].helloReceived && w.all[i].authenticated
    requires p != "" && !Taken(w, i, p)
    requires p == w.all[i].playerId || (!w.all[i].writable && !WatchedByOthers(w, i))
    requires name == w.all[i].displayName || !WatchedByOthers(w, i)
    ensures TableInv(OnAuth(w, i, p, name)) && ViewsAgree(OnAuth(w, i, p, name))
  {
    AuthKeeps(w, i, p, name);
    var w', r, e := OnAuth(w, i, p, name), Present(w), Entry(p, name, w.all[i].lastPlayerState);
    AuthPresent(w, i, p, name);
    TakenIsKnown(w, i, p);
    RenamedDistinct(r, i, e);
    forall v | v in w'.table ensures ViewRight(w', v) {
      assert ViewRight(w, v);
      AuthTold(w, i, p, name, v);
      if v == i {
        AgainOwnView(w, i, p, name, r[i := e]);
      } else {
        AgainOtherView(r, i, e, v, w.all[v], w.clients[v], Viewer(w, v));
      }
    }
  }

  /** Somebody else's second `auth`, which either changes nothing or is seen by nobody. */
  lemma AgainOtherView(r: Entries, i: nat, e: Entry, v: nat, s: Session, c: Client, viewer: bool)
    requires Distinct(r) && i in r && v != i && Distinct(r[i := e]) && RightFor(r, v, s, c)
    requires viewer == (s.authenticated && s.writable) && (viewer ==> r[i] == e)
    ensures RightFor(r[i := e], v, Told(s, PlayerJoined(e.playerId, e.displayName)), c)
  {
    if viewer {
      assert r[i := e] == r;
      TellKnown(r, v, s, c, e.playerId, e.displayName);
    }
  }

  lemma LocalStays(c: Client, m: Msg)
    requires c.Running?
    ensures Apply(c, m).Running? && Apply(c, m).localId == c.localId
  {
  }

  lemma {:induction false} LocalStaysAll(c: Client, ms: seq<Msg>)
    requires c.Running?
    ensures ApplyAll(c, ms).Running? && ApplyAll(c, ms).localId == c.localId
    decreases |ms|
  {
    if ms != [] {
      LocalStays(c, ms[0]);
      LocalStaysAll(Apply(c, ms[0]), ms[1..]);
    }
  }

  /** A client that is told its id twice keeps the first one. */
  lemma OwnIdLost(w: World, i: nat, p: string, name: string, r: Entries)
    requires TableInv(w) && i in w.table && i in w.all && i in w.clients && w.all[i].authenticated && w.all[i].writable
    requires Distinct(Present(w)) && ViewRight(w, i) && p != w.all[i].playerId
    requires Distinct(r) && i in r && r[i].playerId == p
    ensures !RightFor(r, i, Admitted(w, i, p, name), w.clients[i])
  {
    var c := w.clients[i];
    AdmittedApplies(w, i, p, name, c);
    assert Present(w)[i].playerId == w.all[i].playerId;
    var before := ApplyAll(c, w.all[i].sent);
    LocalStaysAll(Apply(before, AuthResult(p, name)), Introductions(w.all, w.table, i));
  }

  lemma OldIdGone(r: Entries, i: nat, e: Entry)
    requires Distinct(r) && i in r && Distinct(r[i := e]) && e.playerId != r[i].playerId
    ensures r[i].playerId !in Who(r[i := e])
  {
    var r' := r[i := e];
    forall o | o in r' ensures r'[o].playerId != r[i].playerId {
      assert o == i || r'[o] == r[o];
    }
  }

  /** A viewer keeps the old id as a ghost, or the old name, when somebody it sees authenticates anew. */
  lemma StaleView(r: Entries, i: nat, e: Entry, v: nat, c: Client)
    requires Distinct(r) && i in r && v in r && v != i && Agrees(r, v, c) && Distinct(r[i := e])
    requires e.playerId != r[i].playerId || e.displayName != r[i].displayName
    ensures !Agrees(r[i := e], v, Apply(c, Broadcasted(PlayerJoined(e.playerId, e.displayName))))
  {
    var r', p := r[i := e], r[i].playerId;
    var c' := Apply(c, Broadcasted(PlayerJoined(e.playerId, e.displayName)));
    assert p in Others(r, v) && p in c.entities && p in c'.entities && p != r'[v].playerId;
    if e.playerId != p {
      OldIdGone(r, i, e);
    } else {
      OthersChange(r, i, e, v);
      assert c' == c && c.entities[p].displayName == r[i].displayName;
    }
  }

  // ---------- sessions that have left ----------

  /** A removed session's `auth` is harmless when it names nobody new. */
  lemma LateAuthViews(w: World, i: nat, p: string, name: string)
    requires TableInv(w) && ViewsAgree(w) && i in w.all && i !in w.table && w.all[i].helloReceived
    requires p == "" || Taken(w, i, p) || !WatchedByOthers(w, i)
    ensures TableInv(OnAuth(w, i, p, name)) && ViewsAgree(OnAuth(w, i, p, name))
  {
    AuthKeeps(w, i, p, name);
    var w', r := OnAuth(w, i, p, name), Present(w);
    AuthPresent(w, i, p, name);
    TakenIsKnown(w, i, p);
    forall v | v in w'.table ensures ViewRight(w', v) {
      assert ViewRight(w, v);
      AuthTold(w, i, p, name, v);
      if Viewer(w, v) { TellKnown(r, v, w.all[v], w.clients[v], p, name); }
    }
  }

  /** Otherwise a viewer is left with a player nobody plays as, for good. */
  lemma LateAuthGhost(w: World, i: nat, p: string, name: string, v: nat)
    requires TableInv(w) && ViewsAgree(w) && i in w.all && i !in w.table && w.all[i].helloReceived
    requires p != "" && !Taken(w, i, p) && Viewer(w, v)
    ensures TableInv(OnAuth(w, i, p, name)) && !ViewsAgree(OnAuth(w, i, p, name))
  {
    AuthKeeps(w, i, p, name);
    var w', r, c := OnAuth(w, i, p, name), Present(w), w.clients[v];
    AuthPresent(w, i, p, name);
    TakenIsKnown(w, i, p);
    AuthTold(w, i, p, name, v);
    assert ViewRight(w, v);
    ApplyOne(c, w.all[v].sent, Broadcasted(PlayerJoined(p, name)));
    GhostJoins(r, v, ApplyAll(c, w.all[v].sent), p, name);
    assert !ViewRight(w', v);
  }

  lemma LateMoveUnfolds(w: World, i: nat, s: Snapshot, v: nat)
    requires i in w.all && i !in w.table && w.all[i].authenticated && v in w.all
    ensures var w' := OnPlayerStateUpdate(w, i, s);
      w'.table == w.table && w'.clients == w.clients && Present(w') == Present(w) && v in w'.all &&
      (v in w.table ==> w'.all[v] == Told(w.all[v], PlayerState(w.all[i].playerId, s)))
  {
    var mover, e := w.all[i].(lastPlayerState := Some(s)), PlayerState(w.all[i].playerId, s);
    var moved := Update(w, i, mover);
    assert Present(moved) == Present(w);
    BroadcastPresent(moved, Some(i), e);
    BroadcastTold(moved, i, e, v);
  }

  /** A late state changes a view unless the view shows it already. */
  lemma LateMoveSeen(r: Entries, v: nat, c: Client, p: string, s: Snapshot)
    requires Distinct(r) && v in r && Agrees(r, v, c) && p != "" && p != r[v].playerId
    ensures Agrees(r, v, Apply(c, Broadcasted(PlayerState(p, s)))) <==>
      p in Who(r) && Who(r)[p] != v && r[Who(r)[p]].last == Some(s)
  {
    var c' := Apply(c, Broadcasted(PlayerState(p, s)));
    assert c'.targets[p] == s;
    if p in Who(r) && Who(r)[p] != v && r[Who(r)[p]].last == Some(s) {
      MovesAgain(c, r[v].playerId, Others(r, v), p, s);
    }
  }

  lemma ShownIsKnown(w: World, v: nat, p: string, s: Snapshot)
    requires Distinct(Present(w))
    ensures ShownAlready(w, v, p, s) <==>
      p in Who(Present(w)) && Who(Present(w))[p] != v && Present(w)[Who(Present(w))[p]].last == Some(s)
  {
    var r := Present(w);
    if ShownAlready(w, v, p, s) {
      var o :| o in w.table && o in w.all && o != v && w.all[o].authenticated && w.all[o].playerId == p &&
        w.all[o].lastPlayerState == Some(s);
      assert o in r && r[o] == EntryOf(w.all[o]) && Who(r)[p] == o;
    }
    if p in Who(r) && Who(r)[p] != v && r[Who(r)[p]].last == Some(s) {
      var o := Who(r)[p];
      assert w.all[o].playerId == p && w.all[o].lastPlayerState == Some(s);
    }
  }

  /** One viewer, told of a late state. */
  lemma TellLateMove(r: Entries, v: nat, s: Session, c: Client, p: string, state: Snapshot)
    requires Distinct(r) && v in r && s.authenticated && s.writable && RightFor(r, v, s, c)
    ensures RightFor(r, v, Told(s, PlayerState(p, state)), c) <==>
      (p == "" || p == r[v].playerId || (p in Who(r) && Who(r)[p] != v && r[Who(r)[p]].last == Some(state)))
  {
    var before := ApplyAll(c, s.sent);
    ApplyOne(c, s.sent, Broadcasted(PlayerState(p, state)));
    if p != "" && p != r[v].playerId { LateMoveSeen(r, v, before, p, state); }
  }

  /** The view of one session after a removed session's late state. */
  lemma LateMoveView(w: World, i: nat, s: Snapshot, v: nat)
    requires TableInv(w) && ViewsAgree(w) && i in w.all && i !in w.table && w.all[i].authenticated && v in w.table
    ensures Distinct(Present(OnPlayerStateUpdate(w, i, s)))
    ensures ViewRight(OnPlayerStateUpdate(w, i, s), v) <==>
      (!Viewer(w, v) || w.all[i].playerId == "" || w.all[v].playerId == w.all[i].playerId ||
        ShownAlready(w, v, w.all[i].playerId, s))
  {
    LateMoveUnfolds(w, i, s, v);
    assert ViewRight(w, v);
    if Viewer(w, v) {
      assert Present(w)[v].playerId == w.all[v].playerId;
      ShownIsKnown(w, v, w.all[i].playerId, s);
      TellLateMove(Present(w), v, w.all[v], w.clients[v], w.all[i].playerId, s);
    }
  }

  lemma LateMoveExact(w: World, i: nat, s: Snapshot)
    requires TableInv(w) && ViewsAgree(w) && i in w.all && i !in w.table && w.all[i].authenticated
    ensures TableInv(OnPlayerStateUpdate(w, i, s))
    ensures ViewsAgree(OnPlayerStateUpdate(w, i, s)) <==> (w.all[i].playerId == "" ||
      forall v :: Viewer(w, v) ==> w.all[v].playerId == w.all[i].playerId || ShownAlready(w, v, w.all[i].playerId, s))
  {
    StateKeeps(w, i, s);
    LateMoveUnfolds(w, i, s, i);
    forall v | v in w.table { LateMoveView(w, i, s, v); }
  }
}

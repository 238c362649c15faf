/** A client that starts its replication late. The network thread publishes events as they arrive
    (runtime/src/EventSystem.cpp:10-19), but nothing is subscribed before the main thread has seen `auth_result`
    and constructed Replication (runtime/src/Runtime.cpp:180-221): what arrives in between is dropped. */
module LateStart {
  import opened Wrappers
  import opened NetworkState
  import opened ClientView
  import opened Roster
  import opened Presence
  import opened PresenceInvariant
  import opened ViewAgreement
  import opened ViewTheorems

  /** The client at the moment it subscribes. */
  function Started(local: string, name: string): Client { Running(local, map[local := NewPlayer(name, true)], map[]) }

  /** What a client knows of one player. */
  datatype Fate = Gone | There(player: Player, target: Option<Snapshot>)

  function FateIn(c: Client, p: string): Fate {
    if c.Running? && p in c.entities
    then There(c.entities[p], if p in c.targets then Some(c.targets[p]) else None) else Gone
  }

  /** What one message does to it. */
  function Fated(f: Fate, m: Msg, local: string, p: string): Fate {
    match m
    case Broadcasted(PlayerJoined(id, name)) =>
      if id == p && p != "" && p != local && f.Gone? then There(NewPlayer(name, false), None) else f
    case Broadcasted(PlayerLeft(id)) => if id == p && p != "" then Gone else f
    case Broadcasted(PlayerState(id, s)) =>
      if id == p && p != "" && p != local
      then There(Show(if f.Gone? then NewPlayer("", false) else f.player, s), Some(s)) else f
    case _ => f
  }

  function FatedAll(f: Fate, ms: seq<Msg>, local: string, p: string): Fate
    decreases |ms|
  {
    if ms == [] then f else FatedAll(Fated(f, ms[0], local, p), ms[1..], local, p)
  }

  /** Targets only for entities. */
  ghost predicate Sound(c: Client) { c.Running? && c.targets.Keys <= c.entities.Keys }

  lemma {:induction false} PlayersApart(c: Client, ms: seq<Msg>, p: string)
    requires Sound(c)
    ensures Sound(ApplyAll(c, ms)) && ApplyAll(c, ms).localId == c.localId
    ensures FateIn(ApplyAll(c, ms), p) == FatedAll(FateIn(c, p), ms, c.localId, p)
    decreases |ms|
  {
    if ms != [] { PlayersApart(Apply(c, ms[0]), ms[1..], p); }
  }

  /** Clients with the same fates are the same. */
  lemma SameFates(c: Client, d: Client)
    requires Sound(c) && Sound(d) && c.localId == d.localId && forall p :: FateIn(c, p) == FateIn(d, p)
    ensures c == d
  {
    forall p ensures (p in c.entities <==> p in d.entities) && (p in c.targets <==> p in d.targets) {
      assert FateIn(c, p) == FateIn(d, p);
    }
    forall p | p in c.entities
      ensures c.entities[p] == d.entities[p] && (p in c.targets ==> c.targets[p] == d.targets[p])
    {
      assert FateIn(c, p) == FateIn(d, p);
    }
  }

  // ---------- two fates under the same messages ----------

  predicate Leaves(ms: seq<Msg>, p: string) { Broadcasted(PlayerLeft(p)) in ms }

  function LastState(ms: seq<Msg>, p: string): Option<Snapshot> {
    if ms == [] then None
    else
      match ms[|ms| - 1]
      case Broadcasted(PlayerState(id, s)) => if id == p then Some(s) else LastState(ms[..|ms| - 1], p)
      case _ => LastState(ms[..|ms| - 1], p)
  }

  /** The name under which the messages would introduce a player nobody has heard of. */
  function Introduced(ms: seq<Msg>, p: string): Option<string>
    decreases |ms|
  {
    if ms == [] then None
    else
      match ms[0]
      case Broadcasted(PlayerJoined(id, name)) => if id == p then Some(name) else Introduced(ms[1..], p)
      case Broadcasted(PlayerState(id, _)) => if id == p then Some("") else Introduced(ms[1..], p)
      case _ => Introduced(ms[1..], p)
  }

  /** A remote player as clients keep it: its name, and the state it was last seen in. */
  function Kept(name: string, target: Option<Snapshot>): Fate {
    match target
    case None => There(NewPlayer(name, false), None)
    case Some(s) => There(Show(NewPlayer(name, false), s), Some(s))
  }

  predicate Remembered(f: Fate) { f.Gone? || f == Kept(f.player.displayName, f.target) }

  lemma {:induction false} LeavingLevels(f: Fate, g: Fate, ms: seq<Msg>, local: string, p: string)
    requires p != "" && Leaves(ms, p)
    ensures FatedAll(f, ms, local, p) == FatedAll(g, ms, local, p)
    decreases |ms|
  {
    if ms[0] != Broadcasted(PlayerLeft(p)) {
      LeavingLevels(Fated(f, ms[0], local, p), Fated(g, ms[0], local, p), ms[1..], local, p);
    }
  }

  lemma StateFirst(ms: seq<Msg>, p: string)
    requires ms != []
    ensures LastState(ms, p) == if LastState(ms[1..], p).Some? then LastState(ms[1..], p) else LastState(ms[..1], p)
    decreases |ms|
  {
    if |ms| == 1 {
      assert ms[..1] == ms && ms[1..] == [];
    } else {
      var most := ms[..|ms| - 1];
      StateFirst(most, p);
      assert most[1..] == ms[1..][..|ms| - 2] && most[..1] == ms[..1];
    }
  }

  /** A player who is there and does not leave keeps its name and takes the last state sent. */
  lemma {:induction false} StaysThere(name: string, target: Option<Snapshot>, ms: seq<Msg>, local: string, p: string)
    requires p != "" && p != local && !Leaves(ms, p)
    ensures FatedAll(Kept(name, target), ms, local, p) ==
      Kept(name, if LastState(ms, p).Some? then LastState(ms, p) else target)
    decreases |ms|
  {
    if ms != [] {
      StateFirst(ms, p);
      assert LastState(ms[..1], p) == (match ms[0]
        case Broadcasted(PlayerState(id, s)) => if id == p then Some(s) else None
        case _ => None) by { assert ms[..1][..0] == []; }
      var next :=
        match ms[0] case Broadcasted(PlayerState(id, s)) => (if id == p then Some(s) else target) case _ => target;
      assert Fated(Kept(name, target), ms[0], local, p) == Kept(name, next);
      StaysThere(name, next, ms[1..], local, p);
    }
  }

  /** One nobody has heard of appears with its first event, under the name that brings. */
  lemma {:induction false} Appears(ms: seq<Msg>, local: string, p: string)
    requires p != "" && p != local && !Leaves(ms, p)
    ensures FatedAll(Gone, ms, local, p) ==
      if Introduced(ms, p).None? then Gone else Kept(Introduced(ms, p).value, LastState(ms, p))
    ensures Introduced(ms, p).None? ==> LastState(ms, p).None?
    decreases |ms|
  {
    if ms != [] {
      StateFirst(ms, p);
      assert LastState(ms[..1], p) == (match ms[0]
        case Broadcasted(PlayerState(id, s)) => if id == p then Some(s) else None
        case _ => None) by { assert ms[..1][..0] == []; }
      match Fated(Gone, ms[0], local, p)
      case Gone => Appears(ms[1..], local, p);
      case There(player, target) =>
        assert There(player, target) == Kept(player.displayName, target);
        StaysThere(player.displayName, target, ms[1..], local, p);
    }
  }

  lemma {:induction false} LocalOnlyLeaves(f: Fate, ms: seq<Msg>, local: string, p: string)
    requires p == "" || (p == local && !Leaves(ms, p))
    ensures FatedAll(f, ms, local, p) == f
    decreases |ms|
  {
    if ms != [] { LocalOnlyLeaves(f, ms[1..], local, p); }
  }

  /** What a player may differ in before the messages ms, without a trace behind them: its leaving settles
      everything. Known to both under one name, it must be shown again in some state; known to one only, it must
      be introduced again under that name, and shown again if it had a state. */
  predicate Settled(f: Fate, g: Fate, ms: seq<Msg>, local: string, p: string) {
    || f == g || (p != "" && Leaves(ms, p))
    || (p != "" && p != local && Overwritten(f, g, ms, p))
  }

  predicate Overwritten(f: Fate, g: Fate, ms: seq<Msg>, p: string) {
    match (f, g)
    case (There(a, _), There(b, _)) => a.displayName == b.displayName && LastState(ms, p).Some?
    case (There(a, target), Gone) => Reintroduced(a, target, ms, p)
    case (Gone, There(b, target)) => Reintroduced(b, target, ms, p)
    case (Gone, Gone) => true
  }

  predicate Reintroduced(player: Player, target: Option<Snapshot>, ms: seq<Msg>, p: string) {
    Introduced(ms, p) == Some(player.displayName) && (target.Some? ==> LastState(ms, p).Some?)
  }

  lemma SameFateExactly(f: Fate, g: Fate, ms: seq<Msg>, local: string, p: string)
    requires p != "" && p != local ==> Remembered(f) && Remembered(g)
    ensures FatedAll(f, ms, local, p) == FatedAll(g, ms, local, p) <==> Settled(f, g, ms, local, p)
  {
    if p != "" && Leaves(ms, p) {
      LeavingLevels(f, g, ms, local, p);
    } else if p == "" || p == local {
      LocalOnlyLeaves(f, ms, local, p);
      LocalOnlyLeaves(g, ms, local, p);
    } else {
      FateOfRemembered(f, ms, local, p);
      FateOfRemembered(g, ms, local, p);
      Appears(ms, local, p);
    }
  }

  lemma FateOfRemembered(f: Fate, ms: seq<Msg>, local: string, p: string)
    requires p != "" && p != local && !Leaves(ms, p) && Remembered(f)
    ensures FatedAll(f, ms, local, p) == match f
      case There(player, target) =>
        Kept(player.displayName, if LastState(ms, p).Some? then LastState(ms, p) else target)
      case Gone => if Introduced(ms, p).None? then Gone else Kept(Introduced(ms, p).value, LastState(ms, p))
  {
    if f.There? {
      StaysThere(f.player.displayName, f.target, ms, local, p);
    } else {
      Appears(ms, local, p);
    }
  }

  lemma {:induction false} RemembersOnly(f: Fate, ms: seq<Msg>, local: string, p: string)
    requires Remembered(f) && p != local
    ensures Remembered(FatedAll(f, ms, local, p))
    decreases |ms|
  {
    if ms != [] { RemembersOnly(Fated(f, ms[0], local, p), ms[1..], local, p); }
  }

  // ---------- the late client ----------

  /** How many of the messages behind `auth_result` had arrived when each of the three subscriptions was made;
      they are made one after the other (runtime/src/Replication.cpp:18-20). */
  datatype Cuts = Cuts(joined: nat, left: nat, state: nat)

  predicate InTurn(cuts: Cuts) { cuts.joined <= cuts.left <= cuts.state }

  /** Message number k finds a subscriber, or is none of those subscribed to. */
  predicate IsHeard(m: Msg, k: nat, cuts: Cuts) {
    match m
    case Broadcasted(PlayerJoined(_, _)) => cuts.joined <= k
    case Broadcasted(PlayerLeft(_)) => cuts.left <= k
    case Broadcasted(PlayerState(_, _)) => cuts.state <= k
    case _ => true
  }

  function Heard(ms: seq<Msg>, cuts: Cuts): seq<Msg> {
    if ms == [] then []
    else Heard(ms[..|ms| - 1], cuts) + if IsHeard(ms[|ms| - 1], |ms| - 1, cuts) then [ms[|ms| - 1]] else []
  }

  /** The messages up to the last subscription, and those behind it. */
  function Early(ms: seq<Msg>, cuts: Cuts): seq<Msg> { if cuts.state <= |ms| then ms[..cuts.state] else ms }

  function Later(ms: seq<Msg>, cuts: Cuts): seq<Msg> { if cuts.state <= |ms| then ms[cuts.state..] else [] }

  lemma {:induction false} LaterHeard(ms: seq<Msg>, cuts: Cuts)
    requires InTurn(cuts)
    ensures Heard(ms, cuts) == Heard(Early(ms, cuts), cuts) + Later(ms, cuts)
    ensures ms == Early(ms, cuts) + Later(ms, cuts)
    decreases |ms|
  {
    if cuts.state < |ms| {
      var most, last := ms[..|ms| - 1], ms[|ms| - 1];
      LaterHeard(most, cuts);
      assert most[..cuts.state] == ms[..cuts.state] && most[cuts.state..] + [last] == ms[cuts.state..];
      Assoc(Heard(Early(ms, cuts), cuts), Later(most, cuts), [last]);
    } else if cuts.state == |ms| {
      assert ms[..|ms|] == ms && ms[|ms|..] == [];
    }
  }

  /** Whatever the client would know of a player by the last subscription, had it missed nothing, against what it
      does know: the rest leaves no trace of the difference. */
  ghost predicate NothingMissed(local: string, name: string, ms: seq<Msg>, cuts: Cuts) {
    forall p :: NotMissed(local, name, ms, cuts, p)
  }

  predicate NotMissed(local: string, name: string, ms: seq<Msg>, cuts: Cuts, p: string) {
    var start := FateIn(Started(local, name), p);
    Settled(FatedAll(start, Early(ms, cuts), local, p), FatedAll(start, Heard(Early(ms, cuts), cuts), local, p),
      Later(ms, cuts), local, p)
  }

  lemma NotMissedExactly(local: string, name: string, ms: seq<Msg>, cuts: Cuts, p: string)
    requires InTurn(cuts)
    ensures NotMissed(local, name, ms, cuts, p) <==>
      FateIn(ApplyAll(Started(local, name), Heard(ms, cuts)), p) == FateIn(ApplyAll(Started(local, name), ms), p)
  {
    hide ApplyAll, FatedAll, Settled, Heard, Early, Later;
    var c, early, heard, later := Started(local, name), Early(ms, cuts), Heard(Early(ms, cuts), cuts), Later(ms, cuts);
    LaterHeard(ms, cuts);
    ApplyConcat(c, early, later);
    ApplyConcat(c, heard, later);
    PlayersApart(c, early, p);
    PlayersApart(c, heard, p);
    PlayersApart(ApplyAll(c, early), later, p);
    PlayersApart(ApplyAll(c, heard), later, p);
    if p != local {
      RemembersOnly(FateIn(c, p), early, local, p);
      RemembersOnly(FateIn(c, p), heard, local, p);
    }
    SameFateExactly(FatedAll(FateIn(c, p), early, local, p), FatedAll(FateIn(c, p), heard, local, p), later, local, p);
  }

  /** A client that missed what arrived before its subscriptions ends up as one that missed nothing exactly when
      what it missed is made good. */
  lemma LateStartExactly(local: string, name: string, ms: seq<Msg>, cuts: Cuts)
    requires InTurn(cuts)
    ensures ApplyAll(Started(local, name), Heard(ms, cuts)) == ApplyAll(Started(local, name), ms) <==>
      NothingMissed(local, name, ms, cuts)
  {
    var c := Started(local, name);
    var whole, late := ApplyAll(c, ms), ApplyAll(c, Heard(ms, cuts));
    PlayersApart(c, ms, "");
    PlayersApart(c, Heard(ms, cuts), "");
    forall p ensures FateIn(late, p) == FateIn(whole, p) <==> NotMissed(local, name, ms, cuts, p) {
      NotMissedExactly(local, name, ms, cuts, p);
    }
    if forall p :: FateIn(late, p) == FateIn(whole, p) { SameFates(late, whole); }
  }

  /** Once it has caught up, it stays so: what arrives later reaches both. */
  lemma CaughtUpForGood(local: string, name: string, ms: seq<Msg>, more: seq<Msg>, cuts: Cuts)
    requires InTurn(cuts) && cuts.state <= |ms| && NothingMissed(local, name, ms, cuts)
    ensures NothingMissed(local, name, ms + more, cuts)
  {
    hide NothingMissed, Heard, ApplyAll;
    var c := Started(local, name);
    LateStartExactly(local, name, ms, cuts);
    LaterHeard(ms, cuts);
    LaterHeard(ms + more, cuts);
    assert Early(ms + more, cuts) == Early(ms, cuts);
    assert Later(ms + more, cuts) == Later(ms, cuts) + more;
    Assoc(Heard(Early(ms, cuts), cuts), Later(ms, cuts), more);
    ApplyConcat(c, ms, more);
    ApplyConcat(c, Heard(ms, cuts), more);
    LateStartExactly(local, name, ms + more, cuts);
  }

  /** The local player is never shown but as it was created. */
  lemma {:induction false} LocalAsCreated(c: Client, ms: seq<Msg>, name: string)
    requires Sound(c) && (c.localId in c.entities ==> c.entities[c.localId] == NewPlayer(name, true))
    ensures var after := ApplyAll(c, ms);
      after.Running? && after.localId == c.localId
        && (c.localId in after.entities ==> after.entities[c.localId] == NewPlayer(name, true))
    decreases |ms|
  {
    if ms != [] { LocalAsCreated(Apply(c, ms[0]), ms[1..], name); }
  }

  /** A view of given players is one view: two clients that both show them are equal. */
  lemma OneView(c: Client, d: Client, local: string, name: string, ps: Players)
    requires Shows(c, local, ps) && Shows(d, local, ps)
    requires c.entities[local] == d.entities[local] == NewPlayer(name, true)
    ensures c == d
  {
    assert c.entities.Keys == d.entities.Keys && c.targets.Keys == d.targets.Keys;
  }

  /** In any state in which all views are right, whatever has been sent by then: the view of a session whose
      client subscribes late is right in the end exactly when what it missed is made good. */
  lemma LateViewExactly(w: World, v: nat, before: seq<Msg>, local: string, name: string, ms: seq<Msg>, cuts: Cuts)
    requires TableInv(w) && ViewsAgree(w) && Viewer(w, v) && w.clients[v].Waiting? && ApplyAll(Waiting, before).Waiting?
    requires w.all[v].sent == before + ([AuthResult(local, name)] + ms) && InTurn(cuts)
    ensures v in Present(w)
      && (Agrees(Present(w), v, ApplyAll(Started(local, name), Heard(ms, cuts))) <==>
          NothingMissed(local, name, ms, cuts))
  {
    var c := Started(local, name);
    var whole, late := ApplyAll(c, ms), ApplyAll(c, Heard(ms, cuts));
    assert ViewRight(w, v);
    ApplyConcat(Waiting, before, [AuthResult(local, name)] + ms);
    ApplyConcat(Waiting, [AuthResult(local, name)], ms);
    assert ApplyAll(Waiting, [AuthResult(local, name)]) == c by { assert [AuthResult(local, name)][1..] == []; }
    assert Agrees(Present(w), v, whole);
    LocalAsCreated(c, ms, name);
    LocalAsCreated(c, Heard(ms, cuts), name);
    if Agrees(Present(w), v, late) {
      OneView(whole, late, local, name, Others(Present(w), v));
    }
    LateStartExactly(local, name, ms, cuts);
  }

  // ---------- runs on which it goes wrong ----------

  function TheOther(): seq<Msg> { [Broadcasted(PlayerJoined("aaaaaaaa", "A"))] }

  /** The second of two players subscribes only when the first has been introduced: its view stays empty. */
  lemma BackfillLost() returns (steps: seq<Step>, w: World)
    ensures BenignRun(EMPTY, steps) && CanRun(EMPTY, steps) && w == Run(EMPTY, steps)
    ensures TableInv(w) && ViewsAgree(w) && Viewer(w, 1) && 1 in Present(w)
    ensures w.all[1].sent == [HelloAck(true), AuthResult("bbbbbbbb", "B")] + TheOther()
    ensures !Agrees(Present(w), 1, ApplyAll(Started("bbbbbbbb", "B"), Heard(TheOther(), Cuts(1, 1, 1))))
  {
    hide BenignRun, CanRun, Run, Agrees, TableInv, ViewsAgree;
    steps, w := TwoArrive();
    ViewsAlwaysAgree(steps);
    var ms, before, cuts := TheOther(), [HelloAck(true)], Cuts(1, 1, 1);
    assert w.all[1].sent == before + ([AuthResult("bbbbbbbb", "B")] + ms);
    assert before[1..] == [];
    LateViewExactly(w, 1, before, "bbbbbbbb", "B", ms, cuts);
    assert Early(ms, cuts) == ms && Later(ms, cuts) == [] && ms[..0] == [] && ms[1..] == [];
    assert Heard(ms, cuts) == [];
    assert !NotMissed("bbbbbbbb", "B", ms, cuts, "aaaaaaaa");
  }

  /** A player who is introduced and leaves between the first two subscriptions stays for good. */
  lemma GhostKept(local: string, name: string, p: string, other: string)
    requires p != "" && p != local
    ensures var ms := [Broadcasted(PlayerJoined(p, other)), Broadcasted(PlayerLeft(p))];
      && FateIn(ApplyAll(Started(local, name), Heard(ms, Cuts(0, 2, 2))), p).There?
      && FateIn(ApplyAll(Started(local, name), ms), p).Gone? && !NothingMissed(local, name, ms, Cuts(0, 2, 2))
  {
    var ms := [Broadcasted(PlayerJoined(p, other)), Broadcasted(PlayerLeft(p))];
    var c, cuts := Started(local, name), Cuts(0, 2, 2);
    assert ms[..1] == [ms[0]] && [ms[0]][..0] == [] && [ms[0]][1..] == [] && ms[1..] == [ms[1]] && [ms[1]][1..] == [];
    assert Heard([ms[0]], cuts) == [ms[0]];
    assert Heard(ms, cuts) == [ms[0]];
    LateStartExactly(local, name, ms, cuts);
    var joined := Apply(c, ms[0]);
    assert ApplyAll(c, [ms[0]]) == joined && p in joined.entities;
    assert ApplyAll(c, ms) == ApplyAll(joined, [ms[1]]) == Apply(joined, ms[1]);
  }
}

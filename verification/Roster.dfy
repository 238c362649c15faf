/** Agreement between one client's view and the authenticated sessions, apart from any server state. */
module Roster {
  import opened Wrappers
  import opened NetworkState
  import opened ClientView

  /** What the server knows of one authenticated session. */
  datatype Entry = Entry(playerId: string, displayName: string, last: Option<Snapshot>)

  /** The authenticated sessions in the table, by session. */
  type Entries = map<nat, Entry>

  /** The same by player id, which is all a client ever sees. */
  type Players = map<string, Entry>

  /** Player ids are present and pairwise different. */
  ghost predicate Distinct(r: Entries) {
    (forall o :: o in r ==> r[o].playerId != "") &&
    (forall o, q :: o in r && q in r && r[o].playerId == r[q].playerId ==> o == q)
  }

  /** `who` finds the session of every player id in the roster. */
  ghost predicate Index(r: Entries, who: map<string, nat>) {
    "" !in who &&
    (forall p :: p in who ==> who[p] in r && r[who[p]].playerId == p) &&
    (forall o :: o in r ==> r[o].playerId in who && who[r[o].playerId] == o)
  }

  lemma {:induction false} IndexExists(r: Entries)
    requires Distinct(r)
    ensures exists who :: Index(r, who)
    decreases |r|
  {
    if r == map[] {
      assert Index(r, map[]);
    } else {
      var i :| i in r;
      WithoutOne(r, i);
      var rest := r - {i};
      IndexExists(rest);
      var inner :| Index(rest, inner);
      var p := r[i].playerId;
      IndexJoin(rest, inner, i, r[i]);
      assert Index(r, inner[p := i]);
    }
  }

  lemma WithoutOne(r: Entries, i: nat)
    requires Distinct(r) && i in r
    ensures var rest := r - {i}; Distinct(rest) && |rest| < |r| && rest[i := r[i]] == r
    ensures forall o :: o in r - {i} ==> (r - {i})[o].playerId != r[i].playerId
  {
    var rest := r - {i};
    assert rest.Keys == r.Keys - {i};
    assert forall o :: o in rest ==> rest[o] == r[o];
  }

  lemma IndexJoin(r: Entries, who: map<string, nat>, i: nat, e: Entry)
    requires Index(r, who) && i !in r && e.playerId !in who && e.playerId != ""
    ensures Index(r[i := e], who[e.playerId := i])
  {
  }

  ghost function Who(r: Entries): (who: map<string, nat>)
    requires Distinct(r)
    ensures Index(r, who)
  {
    IndexExists(r);
    var who :| Index(r, who);
    who
  }

  lemma IndexUnique(r: Entries, a: map<string, nat>, b: map<string, nat>)
    requires Index(r, a) && Index(r, b)
    ensures a == b
  {
    forall p | p in a ensures p in b && b[p] == a[p] { assert r[a[p]].playerId == p; }
    forall p | p in b ensures p in a { assert r[b[p]].playerId == p; }
  }

  /** Everybody but session v. */
  ghost function Others(r: Entries, v: nat): Players
    requires Distinct(r)
  {
    Indexed(r, Who(r), v)
  }

  ghost function Indexed(r: Entries, who: map<string, nat>, v: nat): Players
    requires Index(r, who)
  {
    map p | p in who && who[p] != v :: r[who[p]]
  }

  /** A remote player as it should look. */
  function Remote(e: Entry): Player {
    match e.last
    case None => Player(e.displayName, false, Vector3(0.0, 0.0, 0.0), Rotation3(0.0, 0.0, 0.0), [])
    case Some(s) => Player(e.displayName, false, s.position, s.rotation, s.basicState)
  }

  /** The view is exactly the local player and the given others, each with its name and remembered state,
      and an interpolator, aimed at that state, exactly for those that have one. */
  ghost predicate Shows(c: Client, local: string, ps: Players) {
    c.Running? && c.localId == local && local !in ps && "" !in ps &&
    c.entities.Keys == ps.Keys + {local} && c.entities[local].isLocal &&
    (forall p :: p in ps ==> c.entities[p] == Remote(ps[p])) &&
    c.targets.Keys == (set p | p in ps && ps[p].last.Some?) &&
    (forall p :: p in c.targets ==> c.targets[p] == ps[p].last.value)
  }

  /** The view of session v's client agrees with the server's roster. */
  ghost predicate Agrees(r: Entries, v: nat, c: Client)
    requires v in r && Distinct(r)
  {
    Shows(c, r[v].playerId, Others(r, v))
  }

  // ---------- one event at a time ----------

  lemma Joins(c: Client, local: string, ps: Players, e: Entry)
    requires Shows(c, local, ps) && e.playerId !in ps && e.playerId != local && e.playerId != "" && e.last.None?
    ensures Shows(OnPlayerJoined(c, e.playerId, e.displayName), local, ps[e.playerId := e])
  {
  }

  lemma Leaves(c: Client, local: string, ps: Players, p: string)
    requires Shows(c, local, ps) && p != local && p != ""
    ensures Shows(OnPlayerLeft(c, p), local, ps - {p})
  {
  }

  lemma Moves(c: Client, local: string, ps: Players, p: string, e: Entry, s: Snapshot)
    requires Shows(c, local, ps) && p in ps && e == ps[p].(last := Some(s))
    ensures Shows(OnPlayerState(c, p, s), local, ps[p := e])
  {
  }

  /** Being told again of somebody as it already looks changes nothing. */
  lemma MovesAgain(c: Client, local: string, ps: Players, p: string, s: Snapshot)
    requires Shows(c, local, ps) && p in ps && ps[p].last == Some(s)
    ensures OnPlayerState(c, p, s) == c
  {
    assert p in c.targets && c.targets[p] == s;
    assert Show(c.entities[p], s) == c.entities[p];
  }

  // ---------- the roster by player ----------

  lemma WhoJoin(r: Entries, i: nat, e: Entry)
    requires Distinct(r) && i !in r && e.playerId != "" && e.playerId !in Who(r)
    ensures Distinct(r[i := e]) && Who(r[i := e]) == Who(r)[e.playerId := i]
  {
    var r', who := r[i := e], Who(r)[e.playerId := i];
    IndexJoin(r, Who(r), i, e);
    IndexDistinct(r', who);
    IndexUnique(r', who, Who(r'));
  }

  /** Somebody with an id nobody has joins the roster. */
  lemma OthersJoin(r: Entries, i: nat, e: Entry, v: nat)
    requires Distinct(r) && i !in r && e.playerId != "" && e.playerId !in Who(r)
    ensures Distinct(r[i := e])
    ensures Others(r[i := e], v) == if v == i then Others(r, i) else Others(r, v)[e.playerId := e]
  {
    WhoJoin(r, i, e);
    IndexedJoin(r, Who(r), i, e, v);
  }

  lemma IndexedJoin(r: Entries, who: map<string, nat>, i: nat, e: Entry, v: nat)
    requires Index(r, who) && i !in r && e.playerId != "" && e.playerId !in who
    requires Index(r[i := e], who[e.playerId := i])
    ensures Indexed(r[i := e], who[e.playerId := i], v) ==
      if v == i then Indexed(r, who, i) else Indexed(r, who, v)[e.playerId := e]
  {
    var r', who' := r[i := e], who[e.playerId := i];
    assert forall p :: p in who ==> who'[p] == who[p] && who[p] != i && r'[who[p]] == r[who[p]];
  }

  lemma IndexDistinct(r: Entries, who: map<string, nat>)
    requires Index(r, who)
    ensures Distinct(r)
  {
  }

  /** Session i leaves the roster. */
  lemma OthersLeave(r: Entries, i: nat, v: nat)
    requires Distinct(r) && i in r && v != i
    ensures Distinct(r - {i}) && Others(r - {i}, v) == Others(r, v) - {r[i].playerId}
  {
    var r', who := r - {i}, Who(r) - {r[i].playerId};
    assert Index(r', who);
    IndexDistinct(r', who);
    IndexUnique(r', who, Who(r'));
  }

  lemma DistinctChange(r: Entries, i: nat, e: Entry)
    requires Distinct(r) && i in r && e.playerId == r[i].playerId
    ensures Distinct(r[i := e])
  {
  }

  /** The entry of session i changes, its player id does not. */
  lemma OthersChange(r: Entries, i: nat, e: Entry, v: nat)
    requires Distinct(r) && i in r && e.playerId == r[i].playerId
    ensures Distinct(r[i := e])
    ensures Others(r[i := e], v) == if v == i then Others(r, i) else Others(r, v)[e.playerId := e]
  {
    var r', who := r[i := e], Who(r);
    assert Index(r', who);
    IndexDistinct(r', who);
    IndexUnique(r', who, Who(r'));
    IndexedChange(r, who, i, e, v);
  }

  lemma IndexedChange(r: Entries, who: map<string, nat>, i: nat, e: Entry, v: nat)
    requires Index(r, who) && i in r && e.playerId == r[i].playerId && Index(r[i := e], who)
    ensures Indexed(r[i := e], who, v) == if v == i then Indexed(r, who, i) else Indexed(r, who, v)[e.playerId := e]
  {
    assert who[e.playerId] == i && forall p :: p in who && p != e.playerId ==> who[p] != i;
  }

  // ---------- views after a change of the roster ----------

  lemma InOthers(r: Entries, v: nat, i: nat)
    requires Distinct(r) && i in r && i != v
    ensures r[i].playerId in Others(r, v) && Others(r, v)[r[i].playerId] == r[i]
  {
    assert Who(r)[r[i].playerId] == i;
  }

  lemma MoveApplied(c: Client, local: string, ps: Players, p: string, e: Entry, s: Snapshot)
    requires Shows(c, local, ps) && p in ps && e == ps[p].(last := Some(s))
    ensures Shows(Apply(c, Broadcasted(PlayerState(p, s))), local, ps[p := e])
  {
    Moves(c, local, ps, p, e, s);
  }

  lemma AgreesFrom(r: Entries, v: nat, c: Client, local: string, ps: Players)
    requires Distinct(r) && v in r && r[v].playerId == local && Others(r, v) == ps && Shows(c, local, ps)
    ensures Agrees(r, v, c)
  {
  }

  lemma ViewJoins(r: Entries, i: nat, e: Entry, v: nat, c: Client)
    requires Distinct(r) && v in r && Agrees(r, v, c) && i !in r
    requires e.playerId != "" && e.playerId !in Who(r) && e.last.None?
    ensures Distinct(r[i := e]) && Agrees(r[i := e], v, Apply(c, Broadcasted(PlayerJoined(e.playerId, e.displayName))))
  {
    OthersJoin(r, i, e, v);
    Joins(c, r[v].playerId, Others(r, v), e);
  }

  lemma ViewLeaves(r: Entries, i: nat, v: nat, c: Client)
    requires Distinct(r) && v in r && i in r && v != i && Agrees(r, v, c)
    ensures Distinct(r - {i}) && Agrees(r - {i}, v, Apply(c, Broadcasted(PlayerLeft(r[i].playerId))))
  {
    OthersLeave(r, i, v);
    Leaves(c, r[v].playerId, Others(r, v), r[i].playerId);
  }

  lemma ViewMoves(r: Entries, i: nat, e: Entry, s: Snapshot, v: nat, c: Client)
    requires Distinct(r) && v in r && i in r && v != i && Agrees(r, v, c) && e == r[i].(last := Some(s))
    ensures Distinct(r[i := e]) && Agrees(r[i := e], v, Apply(c, Broadcasted(PlayerState(e.playerId, s))))
  {
    OthersChange(r, i, e, v);
    var ps, p := Others(r, v), e.playerId;
    InOthers(r, v, i);
    MoveApplied(c, r[v].playerId, ps, p, e, s);
    AgreesFrom(r[i := e], v, Apply(c, Broadcasted(PlayerState(p, s))), r[v].playerId, ps[p := e]);
  }

  // ---------- what a newcomer is told ----------

  /** The messages about one session that is already there. */
  function Introduction(e: Entry): seq<Msg> {
    [Broadcasted(PlayerJoined(e.playerId, e.displayName))] +
    (match e.last case None => [] case Some(s) => [Broadcasted(PlayerState(e.playerId, s))])
  }

  /** The loop over the sessions (server/src/tcpServer.js:79-86), in table order. */
  function Backfill(r: Entries, order: seq<nat>, v: nat): seq<Msg> {
    if order == [] then []
    else (if order[0] in r && order[0] != v then Introduction(r[order[0]]) else []) + Backfill(r, order[1..], v)
  }

  lemma IntroductionApplied(c: Client, e: Entry)
    requires c.Running?
    ensures ApplyAll(c, Introduction(e)) ==
      match e.last
      case None => OnPlayerJoined(c, e.playerId, e.displayName)
      case Some(s) => OnPlayerState(OnPlayerJoined(c, e.playerId, e.displayName), e.playerId, s)
  {
    var joined := Broadcasted(PlayerJoined(e.playerId, e.displayName));
    ApplyOne(c, [], joined);
    assert [] + [joined] == [joined];
    if e.last.Some? { ApplyOne(c, [joined], Broadcasted(PlayerState(e.playerId, e.last.value))); }
  }

  lemma IntroducesKnown(c: Client, local: string, ps: Players, e: Entry)
    requires Shows(c, local, ps) && e.playerId in ps && ps[e.playerId] == e
    ensures ApplyAll(c, Introduction(e)) == c
  {
    IntroductionApplied(c, e);
    assert OnPlayerJoined(c, e.playerId, e.displayName) == c;
    if e.last.Some? { MovesAgain(c, local, ps, e.playerId, e.last.value); }
  }

  lemma IntroducesNew(c: Client, local: string, ps: Players, e: Entry)
    requires Shows(c, local, ps) && e.playerId !in ps && e.playerId != local && e.playerId != ""
    ensures Shows(ApplyAll(c, Introduction(e)), local, ps[e.playerId := e])
  {
    IntroductionApplied(c, e);
    var p, bare := e.playerId, e.(last := None);
    var joined, named := OnPlayerJoined(c, p, e.displayName), ps[p := bare];
    Joins(c, local, ps, bare);
    if e.last.Some? {
      assert named[p := e] == ps[p := e];
      Moves(joined, local, named, p, e, e.last.value);
    } else {
      assert bare == e;
    }
  }

  /** An introduction adds exactly that player, or nothing when it is known already. */
  lemma Introduces(c: Client, local: string, ps: Players, e: Entry)
    requires Shows(c, local, ps) && e.playerId != local && e.playerId != ""
    requires e.playerId in ps ==> ps[e.playerId] == e
    ensures Shows(ApplyAll(c, Introduction(e)), local, ps[e.playerId := e])
  {
    if e.playerId in ps {
      IntroducesKnown(c, local, ps, e);
      assert ps[e.playerId := e] == ps;
    } else {
      IntroducesNew(c, local, ps, e);
    }
  }

  /** Walking the table tells a client of everybody in it. */
  lemma {:induction false} BackfillShows(c: Client, ps: Players, r: Entries, order: seq<nat>, v: nat)
    requires Distinct(r) && v in r && Shows(c, r[v].playerId, ps)
    requires forall p :: p in ps ==> p in Others(r, v) && ps[p] == Others(r, v)[p]
    requires forall o :: o in r && o != v && o !in order ==> r[o].playerId in ps
    ensures Agrees(r, v, ApplyAll(c, Backfill(r, order, v)))
    decreases |order|
  {
    var all := Others(r, v);
    if order == [] {
      assert forall p :: p in all ==> p == r[Who(r)[p]].playerId;
      assert ps == all;
    } else {
      var i, rest := order[0], Backfill(r, order[1..], v);
      var first := if i in r && i != v then Introduction(r[i]) else [];
      ApplyConcat(c, first, rest);
      if i in r && i != v {
        var p := r[i].playerId;
        Introduces(c, r[v].playerId, ps, r[i]);
        BackfillShows(ApplyAll(c, first), ps[p := r[i]], r, order[1..], v);
      } else {
        BackfillShows(c, ps, r, order[1..], v);
      }
    }
  }
}

/** What a client makes of the messages it is sent (runtime/src/Replication.cpp, runtime/src/EntityManager.cpp),
    as a function on values. */
module ClientView {
  import opened NetworkState
  import opened JsonValue

  datatype Event =
    | PlayerJoined(playerId: string, displayName: string)
    | PlayerLeft(playerId: string)
    | PlayerState(playerId: string, s: Snapshot)
    | PlayerReady(playerId: string, displayName: string)

  datatype Msg =
    | HelloAck(ok: bool)
    | AuthResult(playerId: string, displayName: string)
    | HeartbeatAck
    | ResourceManifest
    | ResourcesReadyAck
    | Kick(reason: string)
    | Broadcasted(e: Event)

  datatype Player = Player(displayName: string, isLocal: bool, position: Vector3, rotation: Rotation3,
    basicState: Fields)

  /** A client before and after it has learnt its own player id; of an interpolator only its target is kept. */
  datatype Client =
    | Waiting
    | Running(localId: string, entities: map<string, Player>, targets: map<string, Snapshot>)

  function NewPlayer(displayName: string, isLocal: bool): Player {
    Player(displayName, isLocal, ORIGIN, LEVEL, [])
  }

  function Show(p: Player, s: Snapshot): Player {
    p.(position := s.position, rotation := s.rotation, basicState := s.basicState)
  }

  function OnPlayerJoined(c: Client, playerId: string, displayName: string): Client
    requires c.Running?
  {
    if playerId == "" || playerId == c.localId || playerId in c.entities then c
    else c.(entities := c.entities[playerId := NewPlayer(displayName, false)])
  }

  function OnPlayerLeft(c: Client, playerId: string): Client
    requires c.Running?
  {
    if playerId == "" then c
    else c.(entities := c.entities - {playerId}, targets := c.targets - {playerId})
  }

  function OnPlayerState(c: Client, playerId: string, s: Snapshot): Client
    requires c.Running?
  {
    if playerId == "" || playerId == c.localId then c
    else
      var known := if playerId in c.entities then c.entities[playerId] else NewPlayer("", false);
      c.(entities := c.entities[playerId := Show(known, s)], targets := c.targets[playerId := s])
  }

  /** One delivered message. Replication starts with the first `auth_result`; before that nothing is subscribed. */
  function Apply(c: Client, m: Msg): Client {
    match m
    case AuthResult(id, name) => if c.Waiting? then Running(id, map[id := NewPlayer(name, true)], map[]) else c
    case Broadcasted(e) => if c.Waiting? then c else ApplyEvent(c, e)
    case _ => c
  }

  function ApplyEvent(c: Client, e: Event): Client
    requires c.Running?
  {
    match e
    case PlayerJoined(id, name) => OnPlayerJoined(c, id, name)
    case PlayerLeft(id) => OnPlayerLeft(c, id)
    case PlayerState(id, s) => OnPlayerState(c, id, s)
    case PlayerReady(_, _) => c
  }

  function ApplyAll(c: Client, ms: seq<Msg>): Client
    decreases |ms|
  {
    if ms == [] then c else ApplyAll(Apply(c, ms[0]), ms[1..])
  }

  lemma {:induction false} ApplyConcat(c: Client, a: seq<Msg>, b: seq<Msg>)
    ensures ApplyAll(c, a + b) == ApplyAll(ApplyAll(c, a), b)
    decreases |a|
  {
    if a == [] {
      assert a + b == b;
    } else {
      assert (a + b)[1..] == a[1..] + b;
      ApplyConcat(Apply(c, a[0]), a[1..], b);
    }
  }

  lemma ApplyOne(c: Client, a: seq<Msg>, m: Msg)
    ensures ApplyAll(c, a + [m]) == Apply(ApplyAll(c, a), m)
  {
    ApplyConcat(c, a, [m]);
    assert [m][1..] == [];
  }
}

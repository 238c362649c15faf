/** The client's side in its own form: an entity manager and a map of interpolators, changed in place by
    the event handlers (runtime/src/Replication.cpp, runtime/src/EntityManager.cpp). */
module Replication {
  import opened NetworkState
  import opened ClientView
  import opened Interpolation

  class EntityManager {
    var entities: map<string, Player>

    constructor ()
      ensures entities == map[]
    {
      entities := map[];
    }

    method CreatePlayer(playerId: string, displayName: string, isLocal: bool)
      modifies this
      ensures entities == old(entities)[playerId := NewPlayer(displayName, isLocal)]
    {
      entities := entities[playerId := NewPlayer(displayName, isLocal)];
    }

    method DestroyEntity(id: string) returns (found: bool)
      modifies this
      ensures found == (id in old(entities)) && entities == old(entities) - {id}
    {
      if id !in entities {
        assert entities == entities - {id};
        return false;
      }
      entities := entities - {id};
      found := true;
    }

    predicate Contains(id: string) reads this { id in entities }

    /** `SetPosition`, `SetRotation` and `SetBasicState` on a present player. */
    method SetState(id: string, s: Snapshot)
      requires id in entities
      modifies this
      ensures entities == old(entities)[id := Show(old(entities)[id], s)]
    {
      entities := entities[id := Show(entities[id], s)];
    }
  }

  class Replication {
    const entityManager: EntityManager
    const localPlayerId: string
    var interpolators: map<string, Motion>
    var interpolationDurationMs: int

    /** Every interpolator has been aimed at least once. */
    ghost predicate Valid() reads this {
      forall p :: p in interpolators ==> interpolators[p].hasTarget
    }

    ghost function Targets(): map<string, Snapshot> reads this {
      map p | p in interpolators :: interpolators[p].target
    }

    ghost function View(): Client reads this, entityManager {
      Running(localPlayerId, entityManager.entities, Targets())
    }

    /** Construction and `Start`, on the first `auth_result`. */
    constructor (entityManager: EntityManager, playerId: string, displayName: string)
      requires entityManager.entities == map[]
      modifies entityManager
      ensures Valid() && this.entityManager == entityManager
        && View() == Apply(Waiting, AuthResult(playerId, displayName))
    {
      this.entityManager, localPlayerId := entityManager, playerId;
      interpolators, interpolationDurationMs := map[], 100;
      new;
      entityManager.CreatePlayer(playerId, displayName, true);
    }

    method OnPlayerJoined(playerId: string, displayName: string)
      requires Valid()
      modifies entityManager
      ensures Valid() && View() == Apply(old(View()), Broadcasted(PlayerJoined(playerId, displayName)))
    {
      if playerId == "" || playerId == localPlayerId || entityManager.Contains(playerId) { return; }
      entityManager.CreatePlayer(playerId, displayName, false);
    }

    method OnPlayerLeft(playerId: string)
      requires Valid()
      modifies this`interpolators, entityManager
      ensures Valid() && View() == Apply(old(View()), Broadcasted(PlayerLeft(playerId)))
    {
      if playerId == "" { return; }
      var found := entityManager.DestroyEntity(playerId);
      interpolators := interpolators - {playerId};
    }

    method OnPlayerState(playerId: string, s: Snapshot, nowMs: int)
      requires Valid()
      modifies this`interpolators, entityManager
      ensures Valid() && View() == Apply(old(View()), Broadcasted(PlayerState(playerId, s)))
    {
      if playerId == "" || playerId == localPlayerId { return; }
      if !entityManager.Contains(playerId) {
        entityManager.CreatePlayer(playerId, "", false);
      }
      entityManager.SetState(playerId, s);
      Aim(playerId, s, nowMs);
    }

    /** `interpolators_[playerId].SetTarget(...)`, creating the interpolator when there is none. */
    method Aim(playerId: string, s: Snapshot, nowMs: int)
      requires Valid()
      modifies this`interpolators
      ensures Valid() && Targets() == old(Targets())[playerId := s]
    {
      var m := if playerId in interpolators then interpolators[playerId] else FRESH;
      var aimed := Retargeted(m.(durationMs := interpolationDurationMs), s, nowMs);
      assert aimed.target == s && aimed.hasTarget;
      interpolators := interpolators[playerId := aimed];
    }

    /** One delivered message; the events that are not about players have no subscriber here. */
    method Deliver(m: Msg, nowMs: int)
      requires Valid()
      modifies this`interpolators, entityManager
      ensures Valid() && View() == Apply(old(View()), m)
    {
      match m {
        case Broadcasted(PlayerJoined(id, name)) => OnPlayerJoined(id, name);
        case Broadcasted(PlayerLeft(id)) => OnPlayerLeft(id);
        case Broadcasted(PlayerState(id, s)) => OnPlayerState(id, s, nowMs);
        case _ =>
      }
    }

    /** The smoothed state: there is one exactly for players with an interpolator, and once its transition is
        over it stands on the state the view remembers. */
    method GetInterpolatedState(id: string, nowMs: int) returns (found: bool, state: Snapshot)
      requires Valid()
      ensures found == (id in View().targets)
      ensures found ==> state == Shown(interpolators[id], nowMs)
      ensures found && nowMs - interpolators[id].startMs >= interpolators[id].durationMs ==>
        state.position == View().targets[id].position && state.basicState == View().targets[id].basicState &&
        forall a: Angle :: Congruent(Degrees(state.rotation, a), Degrees(View().targets[id].rotation, a))
    {
      if id !in interpolators { return false, BLANK; }
      found, state := true, Shown(interpolators[id], nowMs);
      if nowMs - interpolators[id].startMs >= interpolators[id].durationMs {
        SettlesOnTarget(interpolators[id], nowMs);
      }
    }
  }
}

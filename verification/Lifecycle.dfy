/** Whole runs of the registry: nothing gets past Cached without having been Cached, so nothing loads whose
    file did not pass its checks when the manifest was applied. */
module Lifecycle {
  import opened Octets
  import RS = ResourceState
  import opened Loading
  import R = ResourceRegistry
  import D = Download
  import M = ResourceManager

  datatype Op =
    | LoadAll(disk: Disk)
    | Start(id: string)
    | Stop(id: string)
    | Reload(id: string, disk: Disk)
    | Transition(id: string, to: RS.State, error: string)

  function Moved(t: Table, id: string, to: RS.State, error: string): Table {
    if id in t && RS.IsValidTransition(t[id].state, to) then t[id := Record(t[id].entry, to, error)] else t
  }

  /** What the registry's public methods may make of a table, as their contracts say. */
  ghost predicate Next(t: Table, dir: string, op: Op, t': Table) {
    match op
    case LoadAll(disk) => Judged(t, dir, disk, t')
    case Start(id) => t' == Moved(t, id, RS.Started, "")
    case Stop(id) => t' == Moved(t, id, RS.Stopped, "")
    case Reload(id, disk) => t' == R.Reloaded(t, dir, disk, id)
    case Transition(id, to, error) => t' == Moved(t, id, to, error)
  }

  ghost predicate Run(dir: string, run: seq<Table>, ops: seq<Op>) {
    |run| == |ops| + 1 && forall k :: 0 <= k < |ops| ==> Next(run[k], dir, ops[k], run[k + 1])
  }

  /** Past the gate: the resource is being loaded or was. */
  predicate PastCached(t: Table, id: string) {
    id in t && (t[id].state == RS.Loading || t[id].state == RS.Loaded || t[id].state == RS.Started
      || t[id].state == RS.Stopped)
  }

  /** One step past the gate starts at it or beyond it; ids and entries stay. */
  lemma GateStep(t: Table, dir: string, op: Op, t': Table, id: string)
    requires Next(t, dir, op, t')
    ensures t'.Keys == t.Keys && (id in t ==> t'[id].entry == t[id].entry)
    ensures PastCached(t', id) ==> PastCached(t, id) || IsCached(t, id)
    ensures id in t && t[id].state == RS.Failed ==> t'[id] == t[id]
    ensures IsCached(t', id) && !op.Transition? ==> IsCached(t, id)
  {
    if op.LoadAll? && id in t {
      assert Verdict(t, dir, op.disk, id, t'[id]);
    }
  }

  /** "Loading is only ever reachable from Cached": whoever is past the gate was there at the start or was
      Cached at some earlier moment of the run. */
  lemma {:induction false} NeverPastCachedUnverified(dir: string, run: seq<Table>, ops: seq<Op>, k: nat, id: string)
    requires Run(dir, run, ops) && k < |run| && PastCached(run[k], id)
    ensures PastCached(run[0], id) || exists j :: 0 <= j < k && IsCached(run[j], id)
    decreases k
  {
    if k > 0 {
      assert Next(run[k - 1], dir, ops[k - 1], run[k]);
      GateStep(run[k - 1], dir, ops[k - 1], run[k], id);
      if PastCached(run[k - 1], id) { NeverPastCachedUnverified(dir, run, ops, k - 1, id); }
    }
  }

  /** Failed is final until the next manifest. */
  lemma {:induction false} FailedIsFinal(dir: string, run: seq<Table>, ops: seq<Op>, j: nat, k: nat, id: string)
    requires Run(dir, run, ops) && j <= k < |run| && id in run[j] && run[j][id].state == RS.Failed
    ensures id in run[k] && run[k][id] == run[j][id]
    decreases k - j
  {
    if j < k {
      FailedIsFinal(dir, run, ops, j, k - 1, id);
      assert Next(run[k - 1], dir, ops[k - 1], run[k]);
      GateStep(run[k - 1], dir, ops[k - 1], run[k], id);
    }
  }

  lemma {:induction false} StillFromManifest(dir: string, run: seq<Table>, ops: seq<Op>, k: nat, id: string)
    requires Run(dir, run, ops) && k < |run| && id in run[k]
    requires forall i :: 0 <= i < |ops| ==> !ops[i].Transition?
    requires !PastCached(run[0], id)
    ensures id in run[0] && run[k][id].entry == run[0][id].entry
    ensures PastCached(run[k], id) || IsCached(run[k], id) ==> IsCached(run[0], id)
    decreases k
  {
    if k > 0 {
      assert Next(run[k - 1], dir, ops[k - 1], run[k]);
      GateStep(run[k - 1], dir, ops[k - 1], run[k], id);
      StillFromManifest(dir, run, ops, k - 1, id);
    }
  }

  /** Verified before loaded: after a manifest was applied, through any loading, starting, stopping and
      reloading, a resource is past Cached only if its file passed every check its entry asks for then. */
  lemma VerifiedBeforeLoaded(dir: string, run: seq<Table>, ops: seq<Op>, k: nat, id: string,
                             fresh': Table, files: D.Files, digest: Digest)
    requires Run(dir, run, ops) && k < |run| && PastCached(run[k], id)
    requires forall i :: 0 <= i < |ops| ==> !ops[i].Transition?
    requires M.Applied(run[0], fresh', dir, files, digest)
    ensures id in fresh' && run[k][id].entry == fresh'[id].entry && M.Intact(dir, run[k][id].entry, files, digest)
  {
    assert !PastCached(run[0], id) by {
      assert id in run[0] ==> run[0][id].state == RS.Cached || run[0][id].state == RS.Failed;
    }
    StillFromManifest(dir, run, ops, k, id);
  }
}

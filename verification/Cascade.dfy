/** What holds while a table is being loaded: the failure cascade part-way and complete, and the summary's
    account of what was settled so far. */
module Cascade {
  import opened Graph
  import opened ResourceState
  import opened Loading

  // ---------- the cascade ----------

  /** Some doomed Cached records of t have been failed, with a reason that is true of t; nothing else changed. */
  ghost predicate Cascading(t: Table, now: Table) {
    now.Keys == t.Keys && forall x :: x in t ==> now[x] == t[x] || FailedByCascade(t, x, now[x])
  }

  ghost predicate FailedByCascade(t: Table, x: string, r: Record) {
    IsCached(t, x) && Doomed(t, x) && r.state == Failed && r.entry == t[x].entry && DoomText(t, x, r.error)
  }

  lemma CascadeStep(t: Table, now: Table, x: string, d: string, error: string)
    requires Cascading(t, now) && IsCached(now, x) && DependsOn(now, x, d) && Broken(now, d)
    requires error == if d !in now then "missing dependency: " + d else "dependency failed: " + d
    ensures Cascading(t, now[x := Record(now[x].entry, Failed, error)])
  {
    assert now[x] == t[x];
    assert DependsOn(t, x, d);
    assert d !in t <==> d !in now;
    if Broken(t, d) { BrokenDooms(t, x, d); } else { DoomSpreads(t, x, d); }
    assert DoomText(t, x, error);
    assert FailedByCascade(t, x, Record(now[x].entry, Failed, error));
  }

  /** No Cached record has a broken dependency left. */
  ghost predicate Settled(now: Table) {
    forall x, d :: IsCached(now, x) && DependsOn(now, x, d) ==> !Broken(now, d)
  }

  lemma {:induction false} SettledPath(t: Table, now: Table, p: seq<string>)
    requires Cascading(t, now) && Settled(now) && DoomPath(t, p)
    ensures !IsCached(now, p[0])
    decreases |p|
  {
    assert IsCached(t, p[0]) && DependsOn(t, p[0], p[1]);
    if IsCached(now, p[0]) {
      assert DependsOn(now, p[0], p[1]);
      if |p| > 2 {
        DoomTail(t, p);
        SettledPath(t, now, p[1..]);
      }
    }
  }

  /** When the cascade has run its course, what is still Cached is what is not doomed. */
  lemma CascadeComplete(t: Table, now: Table, x: string)
    requires Cascading(t, now) && Settled(now)
    ensures IsCached(now, x) <==> IsCached(t, x) && !Doomed(t, x)
  {
    if Doomed(t, x) {
      var p :| DoomPath(t, p) && p[0] == x;
      SettledPath(t, now, p);
    }
  }

  ghost predicate Complete(t: Table, now: Table) {
    Cascading(t, now) && forall x :: IsCached(now, x) <==> IsCached(t, x) && !Doomed(t, x)
  }

  // ---------- walks among what is left ----------

  lemma EdgeSurvives(t: Table, now: Table, x: string, y: string)
    requires Complete(t, now) && IsCached(now, x)
    ensures Edge(CachedGraph(t), x, y) <==> Edge(CachedGraph(now), x, y)
  {
    if Edge(CachedGraph(t), x, y) && Doomed(t, y) { DoomSpreads(t, x, y); }
  }

  lemma {:induction false} WalkSurvives(t: Table, now: Table, p: seq<string>, k: nat)
    requires Complete(t, now) && Walk(CachedGraph(t), p) && IsCached(now, p[0]) && k < |p|
    ensures IsCached(now, p[k])
    decreases k
  {
    if k > 0 {
      WalkSurvives(t, now, p, k - 1);
      assert Edge(CachedGraph(t), p[k - 1], p[k]);
      EdgeSurvives(t, now, p[k - 1], p[k]);
    }
  }

  lemma LassoSurvives(t: Table, now: Table, p: seq<string>)
    requires Complete(t, now) && p != [] && IsCached(now, p[0])
    ensures Lasso(CachedGraph(t), p) <==> Lasso(CachedGraph(now), p)
  {
    var g, h := CachedGraph(t), CachedGraph(now);
    if Walk(g, p) {
      forall k | 0 <= k < |p| ensures p[k] in h { WalkSurvives(t, now, p, k); }
      forall k | 0 <= k < |p| - 1 ensures Edge(h, p[k], p[k + 1]) {
        assert Edge(g, p[k], p[k + 1]);
        WalkSurvives(t, now, p, k);
        EdgeSurvives(t, now, p[k], p[k + 1]);
      }
    }
    if Walk(h, p) {
      forall k | 0 <= k < |p| - 1 ensures Edge(g, p[k], p[k + 1]) {
        assert Edge(h, p[k], p[k + 1]);
        EdgeSurvives(t, now, p[k], p[k + 1]);
      }
    }
  }

  /** A record the cascade left alone reaches a cycle among the survivors exactly when it did before. */
  lemma StuckSurvives(t: Table, now: Table, x: string)
    requires Complete(t, now) && IsCached(now, x)
    ensures Stuck(t, x) <==> Stuck(now, x)
  {
    forall p | p != [] && p[0] == x ensures Lasso(CachedGraph(t), p) <==> Lasso(CachedGraph(now), p) {
      LassoSurvives(t, now, p);
    }
    if Stuck(t, x) {
      var p :| Lasso(CachedGraph(t), p) && p[0] == x;
      assert Lasso(CachedGraph(now), p);
    }
    if Stuck(now, x) {
      var p :| Lasso(CachedGraph(now), p) && p[0] == x;
      assert Lasso(CachedGraph(t), p);
    }
  }

  // ---------- the summary ----------

  datatype Summary = Summary(loaded: nat, failed: nat, errors: seq<(string, string)>)

  ghost predicate ReportedOnce(errors: seq<(string, string)>) {
    forall a, b :: 0 <= a < b < |errors| ==> errors[a].0 != errors[b].0
  }

  ghost predicate Reported(errors: seq<(string, string)>, x: string, error: string) { (x, error) in errors }

  ghost function NewlyLoaded(t: Table, now: Table): set<string> {
    set x | x in t && x in now && t[x].state == Cached && now[x].state == Loaded
  }

  /** The counters and the error list tell what happened to the records that were Cached at the start: one
      entry for each that failed, with the error its record keeps, and no entry for anything else. */
  ghost predicate Accounted(t: Table, now: Table, s: Summary) {
    && now.Keys == t.Keys
    && s.failed == |s.errors| && ReportedOnce(s.errors)
    && (forall k :: 0 <= k < |s.errors| ==> IsCached(t, s.errors[k].0))
    && (forall x :: IsCached(t, x) && now[x].state == Failed ==> Reported(s.errors, x, now[x].error))
    && (forall x :: IsCached(t, x) && now[x].state != Failed ==> !exists k :: 0 <= k < |s.errors| && s.errors[k].0 == x)
    && s.loaded == |NewlyLoaded(t, now)|
  }

  lemma AccountFailure(t: Table, now: Table, s: Summary, x: string, r: Record)
    requires Accounted(t, now, s) && IsCached(t, x) && now[x].state == Cached && r.state == Failed
    ensures Accounted(t, now[x := r], Summary(s.loaded, s.failed + 1, s.errors + [(x, r.error)]))
  {
    var after, errors := now[x := r], s.errors + [(x, r.error)];
    assert NewlyLoaded(t, after) == NewlyLoaded(t, now);
    assert errors[|s.errors|] == (x, r.error);
    assert forall k :: 0 <= k < |s.errors| ==> errors[k] == s.errors[k] && s.errors[k].0 != x;
    forall y | IsCached(t, y) && after[y].state == Failed ensures Reported(errors, y, after[y].error) {
      if y != x { assert Reported(s.errors, y, now[y].error); }
    }
  }

  lemma AccountLoad(t: Table, now: Table, s: Summary, x: string, r: Record)
    requires Accounted(t, now, s) && IsCached(t, x) && now[x].state == Cached && r.state == Loaded
    ensures Accounted(t, now[x := r], Summary(s.loaded + 1, s.failed, s.errors))
  {
    assert NewlyLoaded(t, now[x := r]) == NewlyLoaded(t, now) + {x};
    assert x !in NewlyLoaded(t, now);
  }

  lemma NothingYet(t: Table)
    ensures Accounted(t, t, Summary(0, 0, []))
  {
    assert NewlyLoaded(t, t) == {};
  }

  ghost function NewlyFailed(t: Table, now: Table): set<string> {
    set x | x in t && x in now && t[x].state == Cached && now[x].state == Failed
  }

  ghost function Ids(errors: seq<(string, string)>): set<string> { set k | 0 <= k < |errors| :: errors[k].0 }

  lemma {:induction false} IdsCount(errors: seq<(string, string)>)
    requires ReportedOnce(errors)
    ensures |Ids(errors)| == |errors|
    decreases |errors|
  {
    if errors != [] {
      var most, last := errors[..|errors| - 1], errors[|errors| - 1].0;
      IdsCount(most);
      assert forall k :: 0 <= k < |most| ==> most[k] == errors[k];
      assert Ids(errors) == Ids(most) + {last};
      assert last !in Ids(most);
    }
  }

  /** Conservation: every record that was Cached is counted once, as loaded or as failed. */
  lemma LoadConserves(t: Table, now: Table, s: Summary)
    requires Accounted(t, now, s)
    requires forall x :: IsCached(t, x) ==> now[x].state == Loaded || now[x].state == Failed
    ensures s.loaded + s.failed == |CachedSet(t)|
  {
    IdsCount(s.errors);
    forall x ensures x in Ids(s.errors) <==> x in NewlyFailed(t, now) {
      if x in NewlyFailed(t, now) {
        assert Reported(s.errors, x, now[x].error);
        var k :| 0 <= k < |s.errors| && s.errors[k] == (x, now[x].error);
        assert s.errors[k].0 == x;
      }
    }
    assert Ids(s.errors) == NewlyFailed(t, now);
    assert CachedSet(t) == NewlyLoaded(t, now) + NewlyFailed(t, now);
    assert NewlyLoaded(t, now) !! NewlyFailed(t, now);
  }
}

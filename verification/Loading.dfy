/** What loading a table of resources does to it, said without the algorithm: which records are doomed by
    their dependencies, which wait on a cycle, and what becomes of the others. */
module Loading {
  import opened Graph
  import opened ResourceState

  datatype Entry = Entry(id: string, path: string, size: int, hash: string, version: string, dependencies: seq<string>)

  datatype Record = Record(entry: Entry, state: State, error: string)

  type Table = map<string, Record>

  /** What the file system says about a path: nothing there, a file of so many bytes, or an error. */
  datatype Probe = Missing | Sized(bytes: nat) | Unreadable

  type Disk = string -> Probe

  predicate IsCached(t: Table, x: string) { x in t && t[x].state == Cached }

  function CachedSet(t: Table): set<string> { set x | x in t && t[x].state == Cached }

  /** A dependency nothing can satisfy any more: unknown to the manifest, or failed. */
  predicate Broken(t: Table, d: string) { d !in t || t[d].state == Failed }

  predicate DependsOn(t: Table, x: string, d: string) { x in t && d in t[x].entry.dependencies }

  // ---------- doom: a chain of Cached records that ends in something broken ----------

  ghost predicate DoomPath(t: Table, p: seq<string>) {
    && |p| >= 2 && Broken(t, p[|p| - 1])
    && (forall k :: 0 <= k < |p| - 1 ==> IsCached(t, p[k]) && DependsOn(t, p[k], p[k + 1]))
  }

  ghost predicate Doomed(t: Table, x: string) { exists p :: DoomPath(t, p) && p[0] == x }

  lemma BrokenDooms(t: Table, x: string, d: string)
    requires IsCached(t, x) && DependsOn(t, x, d) && Broken(t, d)
    ensures Doomed(t, x)
  {
    assert DoomPath(t, [x, d]);
  }

  lemma DoomSpreads(t: Table, x: string, d: string)
    requires IsCached(t, x) && DependsOn(t, x, d) && Doomed(t, d)
    ensures Doomed(t, x)
  {
    var p :| DoomPath(t, p) && p[0] == d;
    var q := [x] + p;
    forall k | 0 <= k < |q| - 1 ensures IsCached(t, q[k]) && DependsOn(t, q[k], q[k + 1]) {
      assert k > 0 ==> IsCached(t, p[k - 1]) && DependsOn(t, p[k - 1], p[k]);
    }
    assert DoomPath(t, q);
  }

  /** What the cascade may say of a doomed record: it names one of the dependencies that doom it. */
  ghost predicate DoomText(t: Table, x: string, error: string) {
    exists d :: DependsOn(t, x, d) &&
      ((d !in t && error == "missing dependency: " + d) ||
       (d in t && (t[d].state == Failed || Doomed(t, d)) && error == "dependency failed: " + d))
  }

  ghost predicate ClosedUnderCascade(t: Table, s: set<string>) {
    forall x, d :: IsCached(t, x) && DependsOn(t, x, d) && (Broken(t, d) || d in s) ==> x in s
  }

  /** The doomed records are a fixpoint of the cascade rule and the least one. */
  lemma DoomedIsLeast(t: Table, s: set<string>, x: string)
    ensures Doomed(t, x) <==> IsCached(t, x) && exists d :: DependsOn(t, x, d) && (Broken(t, d) || Doomed(t, d))
    ensures ClosedUnderCascade(t, s) && Doomed(t, x) ==> x in s
  {
    if Doomed(t, x) {
      var p :| DoomPath(t, p) && p[0] == x;
      assert IsCached(t, p[0]) && DependsOn(t, p[0], p[1]);
      if |p| > 2 { DoomTail(t, p); }
      if ClosedUnderCascade(t, s) { PathInside(t, s, p); }
    }
    if IsCached(t, x) && exists d :: DependsOn(t, x, d) && (Broken(t, d) || Doomed(t, d)) {
      var d :| DependsOn(t, x, d) && (Broken(t, d) || Doomed(t, d));
      if Broken(t, d) { BrokenDooms(t, x, d); } else { DoomSpreads(t, x, d); }
    }
  }

  lemma DoomTail(t: Table, p: seq<string>)
    requires DoomPath(t, p) && |p| > 2
    ensures DoomPath(t, p[1..])
  {
    var q := p[1..];
    forall k | 0 <= k < |q| - 1 ensures IsCached(t, q[k]) && DependsOn(t, q[k], q[k + 1]) {
      assert IsCached(t, p[k + 1]) && DependsOn(t, p[k + 1], p[k + 2]);
    }
  }

  lemma {:induction false} PathInside(t: Table, s: set<string>, p: seq<string>)
    requires ClosedUnderCascade(t, s) && DoomPath(t, p)
    ensures p[0] in s
    decreases |p|
  {
    assert IsCached(t, p[0]) && DependsOn(t, p[0], p[1]);
    if |p| > 2 {
      DoomTail(t, p);
      PathInside(t, s, p[1..]);
    }
  }

  // ---------- cycles among the Cached records ----------

  function CachedGraph(t: Table): Graph { map x | x in t && t[x].state == Cached :: t[x].entry.dependencies }

  /** x is Cached and depends, through Cached records, on a cycle of them. */
  ghost predicate Stuck(t: Table, x: string) { ReachesCycle(CachedGraph(t), x) }

  // ---------- the file check ----------

  function FullPath(dir: string, e: Entry): string { dir + "\\" + e.path }

  /** The file is there, its size can be read, and the size is the announced one if one was announced. */
  predicate FileFresh(dir: string, e: Entry, disk: Disk) {
    var probe := disk(FullPath(dir, e));
    probe.Sized? && (e.size > 0 ==> probe.bytes == e.size)
  }

  function FileComplaint(dir: string, e: Entry, disk: Disk): string {
    if disk(FullPath(dir, e)).Missing? then "file missing during load: " + FullPath(dir, e)
    else "file changed on disk since verification: " + FullPath(dir, e)
  }

  /** A record after its file was looked at. */
  function Examined(dir: string, r: Record, disk: Disk): Record {
    if FileFresh(dir, r.entry, disk) then Record(r.entry, Loaded, "")
    else Record(r.entry, Failed, FileComplaint(dir, r.entry, disk))
  }

  // ---------- the verdict ----------

  /** Loading may turn the record of x into r. */
  ghost predicate Verdict(t: Table, dir: string, disk: Disk, x: string, r: Record)
    requires x in t
  {
    if t[x].state != Cached then r == t[x]
    else if Doomed(t, x) then r.state == Failed && r.entry == t[x].entry && DoomText(t, x, r.error)
    else if Stuck(t, x) then r == Record(t[x].entry, Failed, "circular dependency")
    else r == Examined(dir, t[x], disk)
  }

  ghost predicate Judged(t: Table, dir: string, disk: Disk, after: Table) {
    after.Keys == t.Keys && forall x :: x in t ==> Verdict(t, dir, disk, x, after[x])
  }

  /** Cached, and neither doomed nor stuck: the records whose files are looked at. */
  ghost predicate Loadable(t: Table, x: string) { IsCached(t, x) && !Doomed(t, x) && !Stuck(t, x) }

  // ---------- what follows ----------

  /** The outcome does not depend on the order of iteration; only which broken dependency a doomed record
      names may. */
  lemma OrderIrrelevant(t: Table, dir: string, disk: Disk, a: Table, b: Table)
    requires Judged(t, dir, disk, a) && Judged(t, dir, disk, b)
    ensures a.Keys == b.Keys
    ensures forall x :: x in t ==> a[x].entry == b[x].entry && a[x].state == b[x].state
    ensures forall x :: x in t && !Doomed(t, x) ==> a[x] == b[x]
  {
    forall x | x in t ensures a[x].entry == b[x].entry && a[x].state == b[x].state && (Doomed(t, x) || a[x] == b[x]) {
      if Doomed(t, x) { DoomedIsLeast(t, {}, x); }
    }
  }

  /** Loading again changes nothing, whatever happened to the files meanwhile. */
  lemma SecondLoadIsIdle(t: Table, dir: string, disk: Disk, after: Table, later: Disk, again: Table)
    requires Judged(t, dir, disk, after) && Judged(after, dir, later, again)
    ensures CachedSet(after) == {}
    ensures again == after
  {
    forall x | x in t ensures after[x].state != Cached && again[x] == after[x] {
      assert Verdict(t, dir, disk, x, after[x]) && Verdict(after, dir, later, x, again[x]);
    }
  }

  /** A record ends Loaded exactly when it was Loaded already, or was loadable with a fresh file. */
  lemma LoadedExactly(t: Table, dir: string, disk: Disk, after: Table, x: string)
    requires Judged(t, dir, disk, after) && x in t
    ensures after[x].state == Loaded <==>
      t[x].state == Loaded || (Loadable(t, x) && FileFresh(dir, t[x].entry, disk))
  {
    assert Verdict(t, dir, disk, x, after[x]);
  }

  /** What is on disk decides: a loadable record ends Loaded exactly when its file has the recorded size, or, when
      none is recorded, has a size at all; otherwise it ends Failed and says what is wrong. */
  lemma LoadedBySize(t: Table, dir: string, disk: Disk, after: Table, x: string)
    requires Judged(t, dir, disk, after) && Loadable(t, x)
    ensures var path := dir + "\\" + t[x].entry.path;
      && (after[x].state == Loaded <==>
          if t[x].entry.size > 0 then disk(path) == Sized(t[x].entry.size) else disk(path).Sized?)
      && after[x] == Record(t[x].entry, after[x].state,
        if after[x].state == Loaded then ""
        else if disk(path) == Missing then "file missing during load: " + path
        else "file changed on disk since verification: " + path)
      && (after[x].state == Loaded || after[x].state == Failed)
  {
    assert Verdict(t, dir, disk, x, after[x]);
  }

  /** The error names a dependency that is unknown or has failed. */
  predicate Blames(after: Table, x: string, d: string) {
    && DependsOn(after, x, d)
    && (d in after ==> after[d].state == Failed)
    && after[x].error == (if d in after then "dependency failed: " else "missing dependency: ") + d
  }

  /** The other Cached records fail: for a dependency, or for a cycle. */
  lemma NotLoadableFails(t: Table, dir: string, disk: Disk, after: Table, x: string)
    requires Judged(t, dir, disk, after) && IsCached(t, x) && !Loadable(t, x)
    ensures after[x].state == Failed && after[x].entry == t[x].entry
    ensures if Doomed(t, x) then exists d :: Blames(after, x, d) else after[x].error == "circular dependency"
  {
    assert Verdict(t, dir, disk, x, after[x]);
    if Doomed(t, x) {
      var d :| DependsOn(t, x, d) &&
        ((d !in t && after[x].error == "missing dependency: " + d) ||
         (d in t && (t[d].state == Failed || Doomed(t, d)) && after[x].error == "dependency failed: " + d));
      if d in t {
        assert Verdict(t, dir, disk, d, after[d]);
        DoomedIsLeast(t, {}, d);
      }
      assert Blames(after, x, d);
    }
  }

  /** Nothing that is loadable depends on something broken, doomed or stuck. */
  lemma LoadableDependencies(t: Table, x: string, d: string)
    requires Loadable(t, x) && DependsOn(t, x, d)
    ensures d in t && t[d].state != Failed && (t[d].state == Cached ==> Loadable(t, d))
  {
    DoomedIsLeast(t, {}, x);
    if IsCached(t, d) {
      if Stuck(t, d) {
        assert Edge(CachedGraph(t), x, d);
        EdgeToCycle(CachedGraph(t), x, d);
      }
    }
  }

  ghost predicate LoadsOnlyOverLoaded(after: Table, x: string) {
    forall d :: DependsOn(after, x, d) ==> d in after && after[d].state == Loaded
  }

  /** The promise of dependency order: what this call loaded stands on loaded dependencies only. */
  ghost predicate DependenciesLoaded(t: Table, after: Table) {
    forall x :: IsCached(t, x) && x in after && after[x].state == Loaded ==> LoadsOnlyOverLoaded(after, x)
  }

  /** A dependency that neither is loaded nor will be: it is in an earlier or later state, or its file does
      not pass the check. None of this keeps what depends on it from loading. */
  predicate Unready(t: Table, dir: string, disk: Disk, d: string)
    requires d in t
  {
    t[d].state != Loaded && (t[d].state == Cached ==> !FileFresh(dir, t[d].entry, disk))
  }

  ghost predicate Leaks(t: Table, dir: string, disk: Disk, x: string, d: string) {
    Loadable(t, x) && FileFresh(dir, t[x].entry, disk) && DependsOn(t, x, d) && d in t && Unready(t, dir, disk, d)
  }

  /** Exactly when the promise is kept: no loadable record with a fresh file depends on an unready one. */
  lemma DependenciesLoadedExactly(t: Table, dir: string, disk: Disk, after: Table)
    requires Judged(t, dir, disk, after)
    ensures DependenciesLoaded(t, after) <==> forall x, d :: !Leaks(t, dir, disk, x, d)
  {
    forall x, d | IsCached(t, x) && DependsOn(t, x, d) && after[x].state == Loaded
      ensures d in after && (after[d].state == Loaded <==> !Leaks(t, dir, disk, x, d))
    {
      LoadedExactly(t, dir, disk, after, x);
      LoadableDependencies(t, x, d);
      LoadedExactly(t, dir, disk, after, d);
    }
    forall x | x in t ensures after[x].entry == t[x].entry {
      assert Verdict(t, dir, disk, x, after[x]);
    }
    if DependenciesLoaded(t, after) {
      forall x, d ensures !Leaks(t, dir, disk, x, d) {
        if Leaks(t, dir, disk, x, d) {
          LoadedExactly(t, dir, disk, after, x);
          assert LoadsOnlyOverLoaded(after, x) && DependsOn(after, x, d);
        }
      }
    }
  }

  /** From a table where everything is Cached or Failed, with all file checks passing, the promise holds and
      the loaded records are the Cached ones with no path to a missing or failed dependency or to a cycle. */
  lemma DependencyClosure(t: Table, dir: string, disk: Disk, after: Table)
    requires Judged(t, dir, disk, after)
    requires forall x :: x in t ==> t[x].state == Cached || t[x].state == Failed
    requires forall x :: IsCached(t, x) ==> FileFresh(dir, t[x].entry, disk)
    ensures DependenciesLoaded(t, after)
    ensures forall x :: x in t ==> (after[x].state == Loaded <==> Loadable(t, x))
  {
    forall x, d ensures !Leaks(t, dir, disk, x, d) {
      if Leaks(t, dir, disk, x, d) { LoadableDependencies(t, x, d); }
    }
    DependenciesLoadedExactly(t, dir, disk, after);
    forall x | x in t ensures after[x].state == Loaded <==> Loadable(t, x) {
      LoadedExactly(t, dir, disk, after, x);
    }
  }

  // ---------- the documented cascade does not cover file checks ----------

  /** "The failure cascades to anything that transitively depends on it", as documented. */
  ghost predicate FailureCascades(t: Table, after: Table) {
    forall x, d :: IsCached(t, x) && DependsOn(t, x, d) && d in after && after[d].state == Failed && x in after ==>
      after[x].state == Failed
  }

  /** A stale file below a fresh one. */
  ghost predicate StaleBelow(t: Table, dir: string, disk: Disk, x: string, d: string) {
    && Loadable(t, x) && FileFresh(dir, t[x].entry, disk) && DependsOn(t, x, d)
    && Loadable(t, d) && !FileFresh(dir, t[d].entry, disk)
  }

  /** The documented cascade happens exactly when no loadable record whose file passes the check depends on a
      loadable one whose file does not. */
  lemma FailureCascadesExactly(t: Table, dir: string, disk: Disk, after: Table)
    requires Judged(t, dir, disk, after)
    ensures FailureCascades(t, after) <==> forall x, d :: !StaleBelow(t, dir, disk, x, d)
  {
    forall x, d | IsCached(t, x) && DependsOn(t, x, d) && d in t && after[d].state == Failed
      ensures after[x].state != Failed <==> StaleBelow(t, dir, disk, x, d)
    {
      assert Verdict(t, dir, disk, x, after[x]) && Verdict(t, dir, disk, d, after[d]);
      if Loadable(t, x) { LoadableDependencies(t, x, d); }
    }
    forall x, d ensures StaleBelow(t, dir, disk, x, d) ==> after[d].state == Failed && after[x].state == Loaded {
      if StaleBelow(t, dir, disk, x, d) {
        assert Verdict(t, dir, disk, x, after[x]) && Verdict(t, dir, disk, d, after[d]);
      }
    }
  }

  // ---------- two tables on which the promises fail ----------

  function Sample(id: string, dependencies: seq<string>, state: State): Record {
    Record(Entry(id, id, 1, "h", "1", dependencies), state, "")
  }

  /** "b" depends on "a"; both were verified, then a's file was changed. */
  function StaleSample(): Table { map["a" := Sample("a", [], Cached), "b" := Sample("b", ["a"], Cached)] }

  function ChangedA(): Disk { path => if path == "r\\b" then Sized(1) else Sized(2) }

  /** "c" depends on "d", which never left Pending. */
  function PendingSample(): Table { map["c" := Sample("c", ["d"], Cached), "d" := Sample("d", [], Pending)] }

  lemma NoDoomWithoutBroken(t: Table, x: string)
    requires forall y, d :: IsCached(t, y) && DependsOn(t, y, d) ==> !Broken(t, d)
    ensures !Doomed(t, x)
  {
    forall p | |p| >= 2 ensures !DoomPath(t, p) {
      var k := |p| - 2;
      assert !IsCached(t, p[k]) || !DependsOn(t, p[k], p[k + 1]) || !Broken(t, p[k + 1]);
    }
  }

  lemma StaleSampleOrdered()
    ensures Ordered(CachedGraph(StaleSample()), ["a", "b"])
  {
    var g, order := CachedGraph(StaleSample()), ["a", "b"];
    assert g["a"] == [] && g["b"] == ["a"];
    forall k, y | 0 <= k < |order| && Edge(g, order[k], y) ensures y in order[..k] {
      assert k == 1 && y == "a";
      assert order[..1] == ["a"];
    }
  }

  lemma ChangedAFreshness()
    ensures !FileFresh("r", StaleSample()["a"].entry, ChangedA())
      && FileFresh("r", StaleSample()["b"].entry, ChangedA())
  {
    assert FullPath("r", StaleSample()["a"].entry)[2] == 'a';
    assert FullPath("r", StaleSample()["b"].entry) == "r\\b";
  }

  /** A stale file fails its own record and the dependent loads all the same, contrary to
      runtime/src/ResourceRegistry.h:58-64. */
  lemma StaleFileDoesNotCascade(after: Table)
    requires Judged(StaleSample(), "r", ChangedA(), after)
    ensures after["a"].state == Failed && after["b"].state == Loaded
    ensures !FailureCascades(StaleSample(), after)
  {
    var t := StaleSample();
    NoDoomWithoutBroken(t, "a");
    NoDoomWithoutBroken(t, "b");
    StaleSampleOrdered();
    ChangedAFreshness();
    OrderedHasNoCycle(CachedGraph(t), ["a", "b"], "a");
    OrderedHasNoCycle(CachedGraph(t), ["a", "b"], "b");
    assert Verdict(t, "r", ChangedA(), "a", after["a"]);
    assert Verdict(t, "r", ChangedA(), "b", after["b"]);
    assert DependsOn(t, "b", "a");
  }

  /** A dependency left Pending blocks nothing. */
  lemma PendingDoesNotBlock(after: Table)
    requires Judged(PendingSample(), "r", _ => Sized(1), after)
    ensures after["c"].state == Loaded && after["d"].state == Pending
    ensures !DependenciesLoaded(PendingSample(), after)
  {
    var t := PendingSample();
    NoDoomWithoutBroken(t, "c");
    OrderedHasNoCycle(CachedGraph(t), ["c"], "c");
    assert Verdict(t, "r", _ => Sized(1), "c", after["c"]);
    assert Verdict(t, "r", _ => Sized(1), "d", after["d"]);
    assert DependsOn(after, "c", "d");
  }
}

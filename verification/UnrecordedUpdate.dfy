/** Applies that never reached the ledger: a file could not be had, a rename threw, or the process died. What they
    leave on disk, and what a later update makes of it (bootstrapper/electron/updateManager.js:104-182). */
module UnrecordedUpdate {
  import opened Wrappers
  import opened Octets
  import opened UpdatePlan
  import opened Updater
  import opened UpdateTheorems

  /** How far an apply got: how many staged files had been given their names, and how many of the obsolete ones
      had been seen to. */
  datatype Extent = Extent(landed: nat, removed: nat)

  const NOT_BEGUN := Extent(0, 0)

  /** Phase two gets this far: it starts when everything is staged, and removes when everything has landed. */
  predicate Feasible(env: Env, area: Area, item: PlanItem, e: Extent) {
    var needed := Needed(area.target, item);
    e == NOT_BEGUN || (
      && StagedAll(env, item.component, area.staged, needed).1.None?
      && e.landed <= Movable(env, item.component, needed)
      && e.removed <= |item.toRemove| && (e.removed > 0 ==> e.landed == |needed|))
  }

  /** The installed files at that moment. The staged ones may be anything: the process may die in the middle of
      staging, or leave a file cut short. */
  function TargetAt(env: Env, area: Area, item: PlanItem, e: Extent): Files
    requires Feasible(env, area, item, e)
  {
    var needed := Needed(area.target, item);
    var staged := StagedAll(env, item.component, area.staged, needed).0;
    var moved := Moved(env, item.component, Area(area.target, staged), needed[..e.landed]).0;
    Pruned(env, moved.target, item.toRemove[..e.removed]).0
  }

  ghost predicate Reaches(env: Env, area: Area, item: PlanItem, e: Extent, target: Files) {
    Feasible(env, area, item, e) && target == TargetAt(env, area, item, e)
  }

  /** Where an apply ends by itself. */
  function EndExtent(env: Env, area: Area, item: PlanItem): Extent {
    var needed := Needed(area.target, item);
    if StagedAll(env, item.component, area.staged, needed).1.Some? then NOT_BEGUN
    else
      var n := Movable(env, item.component, needed);
      Extent(n, if n == |needed| then |item.toRemove| else 0)
  }

  /** However it ends, that is one of these moments. */
  lemma EndIsReached(env: Env, area: Area, item: PlanItem)
    requires UniquePaths(Needed(area.target, item))
    ensures Reaches(env, area, item, EndExtent(env, area, item), AppliedItem(env, area, item).0.target)
  {
    hide StagedAll, Movable, Moved, Needed;
    var needed := Needed(area.target, item);
    var (staged, failure) := StagedAll(env, item.component, area.staged, needed);
    NothingMoved(env, item.component, Area(area.target, staged));
    assert needed[..0] == [];
    if failure.None? {
      StagedAllVerified(env, item.component, area.staged, needed);
      var n := Movable(env, item.component, needed);
      MovesToStop(env, item.component, Area(area.target, staged), needed);
      assert n == |needed| ==> needed[..n] == needed;
      assert item.toRemove[..|item.toRemove|] == item.toRemove;
    }
  }

  lemma NothingMoved(env: Env, component: string, area: Area)
    ensures Moved(env, component, area, []) == (area, None)
  {
  }

  /** Moving everything comes to the same as moving what can be moved. */
  lemma MovesToStop(env: Env, component: string, area: Area, files: seq<FileEntry>)
    requires UniquePaths(files) && forall k :: 0 <= k < |files| ==> files[k].path in area.staged
    ensures var n := Movable(env, component, files);
      var (after, broken) := Moved(env, component, area, files);
      && (broken.Some? <==> n < |files|)
      && after == Moved(env, component, area, files[..n]).0
  {
    hide Movable;
    var n := Movable(env, component, files);
    MovedInto(env, component, area, files);
    if n < |files| {
      var front := files[..n + 1];
      assert front[..n] == files[..n] && front[n] == files[n];
      FrontMoves(env, component, area, files, n);
      assert Moved(env, component, area, front) == (Moved(env, component, area, files[..n]).0, Some(files[n].path));
      MovedStops(env, component, area, files, n + 1);
    } else {
      assert files[..n] == files;
    }
  }

  /** The first files can be moved by themselves. */
  lemma FrontMoves(env: Env, component: string, area: Area, files: seq<FileEntry>, n: nat)
    requires UniquePaths(files) && forall k :: 0 <= k < |files| ==> files[k].path in area.staged
    requires n <= Movable(env, component, files)
    ensures var (after, broken) := Moved(env, component, area, files[..n]);
      && broken.None?
      && forall path ::
        At(after.target, path) == At(if Among(files[..n], path) then area.staged else area.target, path)
  {
    var front := files[..n];
    assert forall k :: 0 <= k < n ==> front[k] == files[k];
    MovedInto(env, component, area, front);
    assert Movable(env, component, front) == n;
    assert front[..n] == front;
  }

  // ---------- what became of one path ----------

  datatype Touch = Untouched | Landed(f: FileEntry) | Removed

  function TouchedBy(env: Env, area: Area, item: PlanItem, e: Extent, path: string): Touch
    requires Feasible(env, area, item, e)
  {
    match Recorded(Needed(area.target, item)[..e.landed], path)
    case Some(f) => Landed(f)
    case None => if path in item.toRemove[..e.removed] && env.safe(path) then Removed else Untouched
  }

  /** What is under the path now, against what was there before. */
  predicate Stands(before: Files, now: Files, path: string, touch: Touch, digest: Digest) {
    match touch
    case Untouched => At(now, path) == At(before, path)
    case Landed(f) => f.path == path && InPlace(now, f, digest)
    case Removed => path !in now
  }

  ghost predicate Appliable(area: Area, item: PlanItem) {
    && UniquePaths(Needed(area.target, item))
    && forall p :: p in item.toRemove ==> !Among(Needed(area.target, item), p)
  }

  lemma ReachedStands(env: Env, area: Area, item: PlanItem, e: Extent, target: Files, path: string)
    requires Appliable(area, item) && Reaches(env, area, item, e, target)
    ensures Stands(area.target, target, path, TouchedBy(env, area, item, e, path), env.digest)
  {
    var needed := Needed(area.target, item);
    var landed, gone := needed[..e.landed], item.toRemove[..e.removed];
    var staged := StagedAll(env, item.component, area.staged, needed).0;
    var moved := Moved(env, item.component, Area(area.target, staged), landed).0;
    RecordedIs(landed, path);
    PrunedIs(env, moved.target, gone, path);
    if e != NOT_BEGUN {
      StagedAllVerified(env, item.component, area.staged, needed);
      FrontMoves(env, item.component, Area(area.target, staged), needed, e.landed);
      if Among(landed, path) {
        var f := Recorded(landed, path).value;
        var k :| 0 <= k < |landed| && landed[k] == f;
        assert needed[k] == f && StagedFileMatches(staged, f, env.digest);
        assert Among(needed, path) && path !in gone;
      }
    }
  }

  // ---------- any number of them ----------

  /** One apply of what is planned for a manifest, and how far it got. */
  datatype Apply = Apply(env: Env, remote: Component, extent: Extent)

  /** They all plan against the same ledger, for it was not written in between. */
  ghost predicate IsApply(before: Area, a: Apply, after: Files, component: string, local: Component, digest: Digest) {
    && UniquePaths(a.remote.files) && a.env.digest == digest
    && Reaches(a.env, before, ItemFor(component, a.remote, local), a.extent, after)
  }

  ghost predicate Unrecorded(areas: seq<Area>, applies: seq<Apply>, component: string, local: Component,
          digest: Digest) {
    && |areas| == |applies| + 1
    && forall k :: 0 <= k < |applies| ==>
      IsApply(areas[k], applies[k], areas[k + 1].target, component, local, digest)
  }

  /** What the last of the first n applies that touched the path did to it. */
  ghost function LastTouch(areas: seq<Area>, applies: seq<Apply>, component: string, local: Component, digest: Digest,
          n: nat, path: string): Touch
    requires Unrecorded(areas, applies, component, local, digest) && n <= |applies|
  {
    if n == 0 then Untouched
    else
      var a := applies[n - 1];
      assert IsApply(areas[n - 1], a, areas[n - 1 + 1].target, component, local, digest);
      var touch := TouchedBy(a.env, areas[n - 1], ItemFor(component, a.remote, local), a.extent, path);
      if touch.Untouched? then LastTouch(areas, applies, component, local, digest, n - 1, path) else touch
  }

  lemma PlannedAppliable(component: string, remote: Component, local: Component, area: Area)
    requires UniquePaths(remote.files)
    ensures Appliable(area, ItemFor(component, remote, local))
  {
    NeededUnique(component, remote, local, area.target);
    RemovesNothingNeeded(component, remote, local, area.target);
  }

  /** So the disk is known path by path. */
  lemma {:induction false} StandsAfterAll(areas: seq<Area>, applies: seq<Apply>, component: string, local: Component,
          digest: Digest, n: nat, path: string)
    requires Unrecorded(areas, applies, component, local, digest) && n <= |applies|
    ensures Stands(areas[0].target, areas[n].target, path,
      LastTouch(areas, applies, component, local, digest, n, path), digest)
    decreases n
  {
    hide TargetAt, Feasible, Appliable, TouchedBy, ItemFor;
    if n > 0 {
      var a := applies[n - 1];
      assert IsApply(areas[n - 1], a, areas[n - 1 + 1].target, component, local, digest);
      PlannedAppliable(component, a.remote, local, areas[n - 1]);
      ReachedStands(a.env, areas[n - 1], ItemFor(component, a.remote, local), a.extent, areas[n].target, path);
      StandsAfterAll(areas, applies, component, local, digest, n - 1, path);
    }
  }

  // ---------- an update for any manifest afterwards ----------

  /** A file the planner lets stay is missing, has another size, or has the recorded contents. What landed in the
      meantime with the recorded size and other contents is what the planner cannot see. */
  predicate TrueStill(start: Files, f: FileEntry, touch: Touch, digest: Digest) {
    match touch
    case Untouched => TrueIfThere(start, f, digest)
    case Landed(g) => g.size == f.size ==> g.hash == f.hash
    case Removed => true
  }

  predicate InPlaceStill(start: Files, f: FileEntry, touch: Touch, digest: Digest) {
    match touch
    case Untouched => InPlace(start, f, digest)
    case Landed(g) => g.size == f.size && g.hash == f.hash
    case Removed => false
  }

  lemma StillIs(start: Files, now: Files, f: FileEntry, touch: Touch, digest: Digest)
    requires Stands(start, now, f.path, touch, digest)
    ensures TrueIfThere(now, f, digest) <==> TrueStill(start, f, touch, digest)
    ensures InPlace(now, f, digest) <==> InPlaceStill(start, f, touch, digest)
  {
  }

  /** After any number of applies for any manifests, each ended or cut off anywhere and none recorded, an update
      for any manifest with servers that answer in full and files that can be replaced: everything is in place
      afterwards exactly when, for a planned component, nothing the planner lets stay landed or stood there with
      the recorded size and other contents; for one left out, when everything happens to be in place already. */
  lemma UnrecordedHealsExactly(areas: seq<Area>, applies: seq<Apply>, env: Env, component: string, remote: Component,
          local: Component)
    requires Unrecorded(areas, applies, component, local, env.digest) && UniquePaths(remote.files)
    requires env.maxAttempts >= 2 && Available(env, component, remote.files) && Renamable(env, component, remote.files)
    ensures var item := ItemFor(component, remote, local);
      AllInPlace(UpdatedTarget(env, areas[|applies|], component, remote, local), remote.files, env.digest) <==>
      if NeedsAction(item, local)
      then forall f :: f in item.keep ==> TrueStill(areas[0].target, f,
        LastTouch(areas, applies, component, local, env.digest, |applies|, f.path), env.digest)
      else forall f :: f in remote.files ==> InPlaceStill(areas[0].target, f,
        LastTouch(areas, applies, component, local, env.digest, |applies|, f.path), env.digest)
  {
    var last := areas[|applies|];
    HealsExactly(env, last, component, remote, local);
    AllInPlaceAre(last.target, remote.files, env.digest);
    forall f: FileEntry
      ensures TrueIfThere(last.target, f, env.digest) <==> TrueStill(areas[0].target, f,
        LastTouch(areas, applies, component, local, env.digest, |applies|, f.path), env.digest)
      ensures InPlace(last.target, f, env.digest) <==> InPlaceStill(areas[0].target, f,
        LastTouch(areas, applies, component, local, env.digest, |applies|, f.path), env.digest)
    {
      StandsAfterAll(areas, applies, component, local, env.digest, |applies|, f.path);
      StillIs(areas[0].target, last.target, f,
        LastTouch(areas, applies, component, local, env.digest, |applies|, f.path), env.digest);
    }
  }

  lemma AllInPlaceAre(target: Files, files: seq<FileEntry>, digest: Digest)
    ensures AllInPlace(target, files, digest) <==> forall f :: f in files ==> InPlace(target, f, digest)
  {
    forall k | 0 <= k < |files| ensures files[k] in files {
    }
  }

  // ---------- the same manifest again ----------

  /** However far an apply got, it leaves the ledger exactly as right about the disk as it was. */
  lemma FaithfulKept(env: Env, area: Area, component: string, remote: Component, local: Component, e: Extent,
          target: Files)
    requires UniquePaths(remote.files) && Reaches(env, area, ItemFor(component, remote, local), e, target)
    ensures var keep := ItemFor(component, remote, local).keep;
      Faithful(target, keep, env.digest) <==> Faithful(area.target, keep, env.digest)
  {
    var item := ItemFor(component, remote, local);
    PlannedAppliable(component, remote, local, area);
    forall f | f in item.keep
      ensures TrueIfThere(target, f, env.digest) <==> TrueIfThere(area.target, f, env.digest)
    {
      KeptFileStands(env, area, component, remote, local, e, target, f);
    }
  }

  lemma KeptFileStands(env: Env, area: Area, component: string, remote: Component, local: Component, e: Extent,
          target: Files, f: FileEntry)
    requires UniquePaths(remote.files) && Reaches(env, area, ItemFor(component, remote, local), e, target)
    requires f in ItemFor(component, remote, local).keep
    ensures TrueIfThere(target, f, env.digest) <==> TrueIfThere(area.target, f, env.digest)
  {
    var item := ItemFor(component, remote, local);
    var landed := Needed(area.target, item)[..e.landed];
    PlannedAppliable(component, remote, local, area);
    ReachedStands(env, area, item, e, target, f.path);
    PlanPartitions(component, remote, local);
    assert f.path in Paths(remote.files) && f.path !in item.toRemove;
    var touch := TouchedBy(env, area, item, e, f.path);
    if touch.Landed? {
      var g := touch.f;
      RecordedIs(landed, f.path);
      assert g in Needed(area.target, item);
      NeededAre(component, remote, local, area.target, g);
      SamePathSameFile(remote.files, f, g);
    }
  }

  lemma {:induction false} FaithfulThroughout(areas: seq<Area>, applies: seq<Apply>, component: string,
          remote: Component, local: Component, digest: Digest, n: nat)
    requires Unrecorded(areas, applies, component, local, digest) && n <= |applies|
    requires forall k :: 0 <= k < n ==> applies[k].remote == remote
    ensures var keep := ItemFor(component, remote, local).keep;
      Faithful(areas[n].target, keep, digest) <==> Faithful(areas[0].target, keep, digest)
    decreases n
  {
    if n > 0 {
      var a := applies[n - 1];
      assert IsApply(areas[n - 1], a, areas[n - 1 + 1].target, component, local, digest);
      FaithfulThroughout(areas, applies, component, remote, local, digest, n - 1);
      FaithfulKept(a.env, areas[n - 1], component, remote, local, a.extent, areas[n].target);
    }
  }

  /** After any number of applies of one item, each ended in any way or cut off anywhere, one more with servers
      that answer in full and files that can be replaced succeeds, and then every file of the manifest is in
      place exactly when the ledger was faithful at the very start. */
  lemma InterruptedUpdateRecovers(areas: seq<Area>, applies: seq<Apply>, env: Env, component: string,
          remote: Component, local: Component)
    requires Unrecorded(areas, applies, component, local, env.digest) && UniquePaths(remote.files)
    requires forall k :: 0 <= k < |applies| ==> applies[k].remote == remote
    requires env.maxAttempts >= 2 && Available(env, component, remote.files) && Renamable(env, component, remote.files)
    ensures var item := ItemFor(component, remote, local);
      var (after, result) := AppliedItem(env, areas[|applies|], item);
      && result.Ok?
      && (AllInPlace(after.target, remote.files, env.digest) <==> Faithful(areas[0].target, item.keep, env.digest))
  {
    ManifestApplies(env, areas[|applies|], component, remote, local);
    VerifiesExactly(env, areas[|applies|], component, remote, local);
    FaithfulThroughout(areas, applies, component, remote, local, env.digest, |applies|);
  }

  // ---------- back to the old manifest ----------

  lemma NothingToDo()
    ensures !NeedsAction(ItemFor("runtime", Version1(), Version1()), Version1())
  {
    var files := Version1().files;
    assert UniquePaths(files);
    OmittedExactly("runtime", Version1(), Version1());
  }

  /** With version 1 recorded and installed, an update to version 2 stops after its first file; when the manifest
      goes back to version 1, the component is not planned, and the first file keeps the bytes of version 2. */
  lemma RolledBack(env: Env)
    requires env.digest == InUse().digest
    ensures var start := BothStaged();
      var (after, result) := AppliedItem(InUse(), start, ItemFor("runtime", Version2(), Version1()));
      && result.Interrupted? && AllInPlace(start.target, Version1().files, env.digest)
      && UpdatedTarget(env, after, "runtime", Version1(), Version1()) == after.target
      && !AllInPlace(after.target, Version1().files, env.digest)
  {
    HalfUpdated();
    NothingToDo();
    assert !InPlace(Halfway().target, Version1().files[0], env.digest);
  }
}

/** What the two phases guarantee for one component. */
module UpdateTheorems {
  import opened Wrappers
  import opened Octets
  import opened UpdatePlan
  import opened StagedDownload
  import opened Updater

  // ---------- a planned item never names a path twice ----------

  lemma {:induction false} MatchingUnique(local: seq<FileEntry>, files: seq<FileEntry>, wanted: bool)
    requires UniquePaths(files)
    ensures UniquePaths(Matching(local, files, wanted))
    ensures forall path :: Among(Matching(local, files, wanted), path) ==> Among(files, path)
    decreases |files|
  {
    if files != [] {
      var most, last := files[..|files| - 1], files[|files| - 1];
      assert forall k :: 0 <= k < |most| ==> most[k] == files[k];
      MatchingUnique(local, most, wanted);
      NotAmong(files);
      Appended(Matching(local, most, wanted), last, files, RecordMatches(local, last) == wanted);
    }
  }

  lemma {:induction false} OnDiskUnique(target: Files, keep: seq<FileEntry>, wanted: bool)
    requires UniquePaths(keep)
    ensures UniquePaths(OnDisk(target, keep, wanted))
    ensures forall path :: Among(OnDisk(target, keep, wanted), path) ==> Among(keep, path)
    decreases |keep|
  {
    if keep != [] {
      var most, last := keep[..|keep| - 1], keep[|keep| - 1];
      assert forall k :: 0 <= k < |most| ==> most[k] == keep[k];
      OnDiskUnique(target, most, wanted);
      NotAmong(keep);
      Appended(OnDisk(target, most, wanted), last, keep, (last.path in target && |target[last.path]| == last.size) ==
        wanted);
    }
  }

  lemma Appended(part: seq<FileEntry>, last: FileEntry, files: seq<FileEntry>, chosen: bool)
    requires UniquePaths(part) && files != [] && last == files[|files| - 1]
    requires forall path :: Among(part, path) ==> Among(files[..|files| - 1], path)
    requires !Among(files[..|files| - 1], last.path)
    ensures UniquePaths(part + if chosen then [last] else [])
    ensures forall path :: Among(part + (if chosen then [last] else []), path) ==> Among(files, path)
  {
    var all := part + if chosen then [last] else [];
    forall i, j | 0 <= i < j < |all| ensures all[i].path != all[j].path {
      if j == |part| { assert Among(part, part[i].path); }
    }
    forall path ensures Among(all, path) ==> Among(files, path) {
      AmongLast(files, path);
      if Among(all, path) {
        var k :| 0 <= k < |all| && all[k].path == path;
        if k < |part| { assert part[k] == all[k] && Among(part, path); }
      }
    }
  }

  lemma {:induction false} OnDiskAre(target: Files, keep: seq<FileEntry>, wanted: bool, f: FileEntry)
    ensures f in OnDisk(target, keep, wanted) <==>
      f in keep && (f.path in target && |target[f.path]| == f.size) == wanted
    decreases |keep|
  {
    if keep != [] {
      OnDiskAre(target, keep[..|keep| - 1], wanted, f);
      assert keep == keep[..|keep| - 1] + [keep[|keep| - 1]];
    }
  }

  /** Both sides of the check against the disk keep the order of the list. */
  lemma {:induction false} OnDiskInOrder(target: Files, a: seq<FileEntry>, b: seq<FileEntry>, wanted: bool)
    ensures OnDisk(target, a + b, wanted) == OnDisk(target, a, wanted) + OnDisk(target, b, wanted)
    decreases |b|
  {
    if b == [] {
      assert a + b == a;
    } else {
      var most, last := b[..|b| - 1], b[|b| - 1];
      assert (a + b)[..|a + b| - 1] == a + most;
      OnDiskInOrder(target, a, most, wanted);
      Assoc(OnDisk(target, a, wanted), OnDisk(target, most, wanted),
        if (last.path in target && |target[last.path]| == last.size) == wanted then [last] else []);
    }
  }

  lemma SamePathSameFile(files: seq<FileEntry>, f: FileEntry, g: FileEntry)
    requires UniquePaths(files) && f in files && g in files && f.path == g.path
    ensures f == g
  {
    var i :| 0 <= i < |files| && files[i] == f;
    var j :| 0 <= j < |files| && files[j] == g;
  }

  /** So every planned item can be applied. */
  lemma NeededUnique(component: string, remote: Component, local: Component, target: Files)
    requires UniquePaths(remote.files)
    ensures UniquePaths(Needed(target, ItemFor(component, remote, local)))
  {
    var item := ItemFor(component, remote, local);
    MatchingUnique(local.files, remote.files, true);
    MatchingUnique(local.files, remote.files, false);
    OnDiskUnique(target, item.keep, false);
    var a, b := item.toDownload, OnDisk(target, item.keep, false);
    forall i, j | 0 <= i < |a| && 0 <= j < |b| ensures a[i].path != b[j].path {
      assert a[i] in a && b[j] in b;
      MatchingAre(local.files, remote.files, false, a[i]);
      OnDiskAre(target, item.keep, false, b[j]);
      MatchingAre(local.files, remote.files, true, b[j]);
      if a[i].path == b[j].path { SamePathSameFile(remote.files, a[i], b[j]); }
    }
    var all := a + b;
    forall i, j | 0 <= i < j < |all| ensures all[i].path != all[j].path {
      if i < |a| <= j { assert all[i] == a[i] && all[j] == b[j - |a|]; }
    }
  }

  /** What is needed: the files the ledger does not know, and those it knows that the disk does not have. */
  lemma NeededAre(component: string, remote: Component, local: Component, target: Files, f: FileEntry)
    ensures var item := ItemFor(component, remote, local);
      f in Needed(target, item) <==>
        f in remote.files && (f in item.keep ==> !(f.path in target && |target[f.path]| == f.size))
  {
    var item := ItemFor(component, remote, local);
    MatchingAre(local.files, remote.files, false, f);
    MatchingAre(local.files, remote.files, true, f);
    OnDiskAre(target, item.keep, false, f);
  }

  // ---------- whether everything can be had ----------

  /** A file can be had: its path stays inside the component's directory, and it is staged already with the right size
      and hash, or one of its attempts brings it. */
  predicate Had(env: Env, component: string, staged: Files, f: FileEntry) {
    && env.safe(f.path)
    && (|| (f.path in staged && |staged[f.path]| == f.size && env.digest(staged[f.path]) == f.hash)
        || Fetched(env, component, staged, f).1)
  }

  function Fetched(env: Env, component: string, staged: Files, f: FileEntry): (Option<Bytes>, bool, Option<Error>) {
    Retried(At(staged, f.path), f, env.server(component, f.path), env.digest, env.transient, 0, env.maxAttempts, None)
  }

  /** Why it cannot. */
  function Excuse(env: Env, component: string, staged: Files, f: FileEntry): Option<Error> {
    if !env.safe(f.path) then Some(UnsafePath) else Fetched(env, component, staged, f).2
  }

  predicate FirstMissing(env: Env, component: string, staged: Files, files: seq<FileEntry>, k: nat) {
    && k < |files| && !Had(env, component, staged, files[k])
    && forall j :: 0 <= j < k ==> Had(env, component, staged, files[j])
  }

  ghost predicate AllHad(env: Env, component: string, staged: Files, files: seq<FileEntry>) {
    forall k :: 0 <= k < |files| ==> Had(env, component, staged, files[k])
  }

  lemma AllHadLast(env: Env, component: string, staged: Files, files: seq<FileEntry>)
    requires files != []
    ensures var most, last := files[..|files| - 1], files[|files| - 1];
      AllHad(env, component, staged, files) <==>
        AllHad(env, component, staged, most) && Had(env, component, staged, last)
  {
    hide Had;
    var most := files[..|files| - 1];
    assert forall k :: 0 <= k < |most| ==> most[k] == files[k];
  }

  /** The last file, once those before it are staged. */
  lemma LastStages(env: Env, component: string, staged: Files, files: seq<FileEntry>)
    requires UniquePaths(files) && files != []
    ensures var most, last := files[..|files| - 1], files[|files| - 1];
      var before := StagedAll(env, component, staged, most);
      && UniquePaths(most)
      && StagedAll(env, component, staged, files).1 ==
        if before.1.Some? then before.1
        else if Had(env, component, staged, last) then None
        else Some(Failure(last.path, Excuse(env, component, staged, last)))
  {
    hide Had, Excuse, StagedOne;
    var most, last := files[..|files| - 1], files[|files| - 1];
    assert forall k :: 0 <= k < |most| ==> most[k] == files[k];
    StagedAllVerified(env, component, staged, most);
    NotAmong(files);
    HadHere(env, component, staged, StagedAll(env, component, staged, most).0, last);
  }

  lemma {:induction false} StagingSucceeds(env: Env, component: string, staged: Files, files: seq<FileEntry>)
    requires UniquePaths(files)
    ensures StagedAll(env, component, staged, files).1.None? <==> AllHad(env, component, staged, files)
    decreases |files|
  {
    if files != [] {
      hide Had, Excuse, AllHad, StagedAll;
      LastStages(env, component, staged, files);
      AllHadLast(env, component, staged, files);
      StagingSucceeds(env, component, staged, files[..|files| - 1]);
    }
  }

  lemma {:induction false} FirstMissingFails(env: Env, component: string, staged: Files, files: seq<FileEntry>, k: nat)
    requires UniquePaths(files) && FirstMissing(env, component, staged, files, k)
    ensures StagedAll(env, component, staged, files).1 ==
      Some(Failure(files[k].path, Excuse(env, component, staged, files[k])))
    decreases |files|
  {
    hide Had, Excuse, StagedAll;
    var n := |files| - 1;
    var most := files[..n];
    LastStages(env, component, staged, files);
    if k < n {
      FirstInFront(env, component, staged, files, k);
      FirstMissingFails(env, component, staged, most, k);
    } else {
      assert forall j :: 0 <= j < n ==> most[j] == files[j];
      StagingSucceeds(env, component, staged, most);
    }
  }

  /** Staging fails at the first file that cannot be had, and says why; otherwise it succeeds. */
  lemma StagingExactly(env: Env, component: string, staged: Files, files: seq<FileEntry>)
    requires UniquePaths(files)
    ensures var failure := StagedAll(env, component, staged, files).1;
      && (failure.None? <==> AllHad(env, component, staged, files))
      && (forall k: nat :: FirstMissing(env, component, staged, files, k) ==>
        failure == Some(Failure(files[k].path, Excuse(env, component, staged, files[k]))))
  {
    StagingSucceeds(env, component, staged, files);
    forall k: nat | FirstMissing(env, component, staged, files, k)
      ensures StagedAll(env, component, staged, files).1 ==
        Some(Failure(files[k].path, Excuse(env, component, staged, files[k])))
    {
      FirstMissingFails(env, component, staged, files, k);
    }
  }

  lemma FirstInFront(env: Env, component: string, staged: Files, files: seq<FileEntry>, k: nat)
    requires k < |files| - 1 && FirstMissing(env, component, staged, files, k)
    ensures FirstMissing(env, component, staged, files[..|files| - 1], k)
  {
    hide Had;
    var most := files[..|files| - 1];
    assert forall j :: 0 <= j < |most| ==> most[j] == files[j];
  }

  /** What is staged under a path is all that matters for it. */
  lemma HadHere(env: Env, component: string, staged: Files, before: Files, f: FileEntry)
    requires At(before, f.path) == At(staged, f.path)
    ensures Had(env, component, before, f) == Had(env, component, staged, f)
    ensures Excuse(env, component, before, f) == Excuse(env, component, staged, f)
    ensures StagedOne(env, component, before, f).1 ==
      if Had(env, component, staged, f) then None else Some(Failure(f.path, Excuse(env, component, staged, f)))
  {
  }

  // ---------- all or nothing ----------

  /** The files of an item that get their names when it is applied. */
  function Landing(env: Env, area: Area, item: PlanItem): seq<FileEntry> {
    var needed := Needed(area.target, item);
    if StagedAll(env, item.component, area.staged, needed).1.Some? then []
      else needed[..Movable(env, item.component, needed)]
  }

  /** What applying an item does to one path, however it ends: a file that lands has verified bytes, after a
      complete apply an obsolete one is gone, and any other installed file is as it was. */
  lemma TargetAfter(env: Env, area: Area, item: PlanItem, path: string)
    requires UniquePaths(Needed(area.target, item))
    requires forall p :: p in item.toRemove ==> !Among(Needed(area.target, item), p)
    ensures var (after, result) := AppliedItem(env, area, item);
      var landing := Landing(env, area, item);
      && (forall k :: 0 <= k < |landing| && landing[k].path == path ==> InPlace(after.target, landing[k], env.digest))
      && (!Among(landing, path) ==>
          At(after.target, path) == if result.Ok? && path in item.toRemove
            && env.safe(path) then None else At(area.target, path))
  {
    hide StagedAll, Movable, Moved, Pruned, Needed;
    var needed := Needed(area.target, item);
    var (staged, failure) := StagedAll(env, item.component, area.staged, needed);
    StagedAllVerified(env, item.component, area.staged, needed);
    if failure.None? {
      var n := Movable(env, item.component, needed);
      var (moved, broken) := Moved(env, item.component, Area(area.target, staged), needed);
      MovedInto(env, item.component, Area(area.target, staged), needed);
      PrunedIs(env, moved.target, item.toRemove, path);
      forall k | 0 <= k < n && needed[k].path == path
        ensures Among(needed[..n], path) && StagedFileMatches(staged, needed[k], env.digest) && path !in item.toRemove
      {
        assert needed[..n][k] == needed[k] && Among(needed, path);
      }
    }
  }

  /** Everything can be had, and a file among what is needed cannot be given its name. */
  predicate Throws(env: Env, area: Area, item: PlanItem) {
    var needed := Needed(area.target, item);
    StagedAll(env, item.component, area.staged, needed).1.None? && Movable(env, item.component, needed) < |needed|
  }

  /** How it ends: not at all when a file cannot be had, part-way when a rename throws, otherwise completely. */
  lemma EndsAs(env: Env, area: Area, item: PlanItem)
    requires UniquePaths(Needed(area.target, item))
    ensures var (after, result) := AppliedItem(env, area, item);
      var needed := Needed(area.target, item);
      var n := Movable(env, item.component, needed);
      && (result.Failed? <==> StagedAll(env, item.component, area.staged, needed).1.Some?)
      && (result.Interrupted? <==> Throws(env, area, item))
      && (result.Interrupted? ==> result.file == needed[n].path)
  {
    var needed := Needed(area.target, item);
    var staged := StagedAll(env, item.component, area.staged, needed).0;
    StagedAllVerified(env, item.component, area.staged, needed);
    if StagedAll(env, item.component, area.staged, needed).1.None? {
      MovedInto(env, item.component, Area(area.target, staged), needed);
    }
  }

  /** The bytes about to be installed under this path are installed there already. */
  predicate NothingNew(env: Env, area: Area, item: PlanItem, f: FileEntry) {
    At(area.target, f.path) == At(StagedAll(env, item.component, area.staged, Needed(area.target, item)).0, f.path)
  }

  /** All or nothing, exactly: either the apply is complete or the installed files are byte for byte what they
      were, if and only if no rename throws after one that brought something new. The documented guarantee
      (bootstrapper/electron/updateManager.js:94-103) leaves that case out. */
  lemma AllOrNothingExactly(env: Env, area: Area, item: PlanItem)
    requires UniquePaths(Needed(area.target, item))
    ensures var (after, result) := AppliedItem(env, area, item);
      result.Ok? || after.target == area.target <==>
      (Throws(env, area, item) ==> forall f :: f in Landing(env, area, item) ==> NothingNew(env, area, item, f))
  {
    var (after, result) := AppliedItem(env, area, item);
    EndsAs(env, area, item);
    if result.Interrupted? {
      var needed := Needed(area.target, item);
      var n := Movable(env, item.component, needed);
      var staged := StagedAll(env, item.component, area.staged, needed).0;
      StagedAllVerified(env, item.component, area.staged, needed);
      MovedInto(env, item.component, Area(area.target, staged), needed);
      if after.target == area.target {
        forall f | f in needed[..n] ensures NothingNew(env, area, item, f) { assert Among(needed[..n], f.path); }
      } else if forall f :: f in needed[..n] ==> NothingNew(env, area, item, f) {
        forall path ensures At(after.target, path) == At(area.target, path) {
          if Among(needed[..n], path) {
            var k :| 0 <= k < n && needed[..n][k].path == path;
            assert needed[..n][k] in needed[..n];
          }
        }
        SameFiles(after.target, area.target);
      }
    }
  }

  lemma SameFiles(a: Files, b: Files)
    requires forall path :: At(a, path) == At(b, path)
    ensures a == b
  {
    forall path ensures path in a <==> path in b { assert At(a, path) == At(b, path); }
    forall path | path in a ensures a[path] == b[path] { assert At(a, path) == At(b, path); }
  }

  lemma TailNotAmong(files: seq<FileEntry>, n: nat, k: nat)
    requires UniquePaths(files) && n <= k < |files|
    ensures !Among(files[..n], files[k].path)
  {
    assert forall j :: 0 <= j < n ==> files[..n][j] == files[j];
  }

  /** An interrupted component: the files before the one that could not be renamed are installed and verified,
      every other installed file is as it was, and that one and those after it are still staged and verified. */
  lemma InterruptedState(env: Env, area: Area, item: PlanItem)
    requires UniquePaths(Needed(area.target, item)) && AppliedItem(env, area, item).1.Interrupted?
    ensures var after := AppliedItem(env, area, item).0;
      var needed := Needed(area.target, item);
      var n := Movable(env, item.component, needed);
      && n < |needed| && AppliedItem(env, area, item).1.file == needed[n].path
      && (forall k :: 0 <= k < n ==> InPlace(after.target, needed[k], env.digest))
      && (forall path :: !Among(needed[..n], path) ==> At(after.target, path) == At(area.target, path))
      && (forall k :: n <= k < |needed| ==> StagedFileMatches(after.staged, needed[k], env.digest))
  {
    var needed := Needed(area.target, item);
    var n := Movable(env, item.component, needed);
    var staged := StagedAll(env, item.component, area.staged, needed).0;
    EndsAs(env, area, item);
    StagedAllVerified(env, item.component, area.staged, needed);
    MovedInto(env, item.component, Area(area.target, staged), needed);
    var after := AppliedItem(env, area, item).0;
    forall k | 0 <= k < |needed|
      ensures if k < n then InPlace(after.target, needed[k], env.digest)
        else StagedFileMatches(after.staged, needed[k], env.digest)
    {
      assert StagedFileMatches(staged, needed[k], env.digest);
      if k < n {
        assert needed[..n][k] == needed[k] && Among(needed[..n], needed[k].path);
      } else {
        TailNotAmong(needed, n, k);
        assert At(after.staged, needed[k].path) == At(staged, needed[k].path);
      }
    }
  }

  /** A failed component's installed files are byte for byte what they were, and a component that fails or is
      interrupted only ever changes bytes of files the item needs. */
  lemma FailureLeavesTarget(env: Env, area: Area, item: PlanItem, path: string)
    requires UniquePaths(Needed(area.target, item)) && !AppliedItem(env, area, item).1.Ok?
    ensures var (after, result) := AppliedItem(env, area, item);
      && (result.Failed? ==> after.target == area.target)
      && (!Among(Needed(area.target, item), path) ==>
          At(after.target, path) == At(area.target, path) && At(after.staged, path) == At(area.staged, path))
  {
    var needed := Needed(area.target, item);
    var (staged, failure) := StagedAll(env, item.component, area.staged, needed);
    StagedAllVerified(env, item.component, area.staged, needed);
    if failure.None? {
      MovedInto(env, item.component, Area(area.target, staged), needed);
      var n := Movable(env, item.component, needed);
      assert forall k :: 0 <= k < n ==> needed[..n][k] == needed[k];
      assert Among(needed[..n], path) ==> Among(needed, path);
    }
  }

  /** What an applied component's file is afterwards: a needed one has verified bytes, an obsolete one is gone,
      any other is as it was; nothing needed stays staged. */
  lemma SuccessInstalls(env: Env, area: Area, item: PlanItem, path: string)
    requires UniquePaths(Needed(area.target, item)) && AppliedItem(env, area, item).1.Ok?
    requires forall p :: p in item.toRemove ==> !Among(Needed(area.target, item), p)
    ensures var needed := Needed(area.target, item);
      var after := AppliedItem(env, area, item).0;
      && (forall k :: 0 <= k < |needed| && needed[k].path == path ==> InPlace(after.target, needed[k], env.digest))
      && (!Among(needed, path) ==>
          At(after.target, path) == if path in item.toRemove && env.safe(path) then None else At(area.target, path))
      && At(after.staged, path) == if Among(needed, path) then None else At(area.staged, path)
  {
    var needed := Needed(area.target, item);
    var staged := StagedAll(env, item.component, area.staged, needed).0;
    EndsAs(env, area, item);
    StagedAllVerified(env, item.component, area.staged, needed);
    MovedInto(env, item.component, Area(area.target, staged), needed);
    assert needed[..|needed|] == needed;
    TargetAfter(env, area, item, path);
  }

  /** What an applied component reports: the files it needed in order, the obsolete ones it found, and those it let
      stay; and the manifest's version and files, which is what gets recorded. */
  lemma ReportsExactly(env: Env, area: Area, item: PlanItem, path: string)
    requires UniquePaths(Needed(area.target, item)) && AppliedItem(env, area, item).1.Ok?
    requires forall p :: p in item.toRemove ==> !Among(Needed(area.target, item), p)
    ensures var r := AppliedItem(env, area, item).1;
      && r.component == item.component && r.targetVersion == item.targetVersion && r.files == item.files
      && (path in r.downloaded <==> Among(Needed(area.target, item), path))
      && |r.downloaded| >= |item.toDownload|
      && (forall k :: 0 <= k < |item.toDownload| ==> r.downloaded[k] == item.toDownload[k].path)
      && (path in r.removed <==> path in item.toRemove && env.safe(path) && path in area.target)
      && (path in r.kept <==> exists f :: f in item.keep && f.path == path && HasSize(area.target, f))
  {
    var needed, kept := Needed(area.target, item), OnDisk(area.target, item.keep, true);
    var staged := StagedAll(env, item.component, area.staged, needed).0;
    var moved := Moved(env, item.component, Area(area.target, staged), needed).0;
    EndsAs(env, area, item);
    StagedAllVerified(env, item.component, area.staged, needed);
    MovedInto(env, item.component, Area(area.target, staged), needed);
    assert needed[..|needed|] == needed;
    PrunedList(env, moved.target, item.toRemove, path);
    PathListIs(needed, path);
    PathListIs(kept, path);
    if path in item.toRemove { assert At(moved.target, path) == At(area.target, path); }
    KeptAre(area.target, item.keep, path);
  }

  predicate HasSize(target: Files, f: FileEntry) { f.path in target && |target[f.path]| == f.size }

  lemma KeptAre(target: Files, keep: seq<FileEntry>, path: string)
    ensures Among(OnDisk(target, keep, true), path) <==> exists f :: f in keep && f.path == path && HasSize(target, f)
  {
    var kept := OnDisk(target, keep, true);
    if Among(kept, path) {
      var k :| 0 <= k < |kept| && kept[k].path == path;
      assert kept[k] in kept;
      OnDiskAre(target, keep, true, kept[k]);
      assert kept[k] in keep && HasSize(target, kept[k]);
    }
    if f :| f in keep && f.path == path && HasSize(target, f) {
      OnDiskAre(target, keep, true, f);
      var k :| 0 <= k < |kept| && kept[k] == f;
      assert kept[k].path == path;
    }
  }

  lemma PathListIs(files: seq<FileEntry>, path: string)
    ensures path in PathList(files) <==> Among(files, path)
  {
    var paths := PathList(files);
    if path in paths {
      var k :| 0 <= k < |paths| && paths[k] == path;
      assert files[k].path == path;
    }
    if Among(files, path) {
      var k :| 0 <= k < |files| && files[k].path == path;
      assert paths[k] == path;
    }
  }

  lemma {:induction false} PrunedList(env: Env, target: Files, toRemove: seq<string>, path: string)
    ensures path in Pruned(env, target, toRemove).1 <==> path in toRemove && env.safe(path) && path in target
    decreases |toRemove|
  {
    if toRemove != [] {
      var most, last := toRemove[..|toRemove| - 1], toRemove[|toRemove| - 1];
      PrunedList(env, target, most, path);
      PrunedIs(env, target, most, path);
      assert toRemove == most + [last];
    }
  }

  /** The ledger is right about the files it knows and that have their recorded size on disk. */
  ghost predicate Faithful(target: Files, keep: seq<FileEntry>, digest: Digest) {
    forall f :: f in keep ==> TrueIfThere(target, f, digest)
  }

  predicate TrueIfThere(target: Files, f: FileEntry, digest: Digest) {
    f.path in target && |target[f.path]| == f.size ==> digest(target[f.path]) == f.hash
  }

  ghost predicate AllInPlace(target: Files, files: seq<FileEntry>, digest: Digest) {
    forall k :: 0 <= k < |files| ==> InPlace(target, files[k], digest)
  }

  /** One manifest file after an apply that ended in any way. */
  lemma FileAfter(env: Env, area: Area, component: string, remote: Component, local: Component, f: FileEntry)
    requires UniquePaths(remote.files) && f in remote.files
    ensures var item := ItemFor(component, remote, local);
      var after := AppliedItem(env, area, item).0.target;
      if f in Landing(env, area, item) then f in Needed(area.target, item) && InPlace(after, f, env.digest)
      else At(after, f.path) == At(area.target, f.path)
  {
    var item := ItemFor(component, remote, local);
    var needed, landing := Needed(area.target, item), Landing(env, area, item);
    NeededUnique(component, remote, local, area.target);
    RemovesNothingNeeded(component, remote, local, area.target);
    TargetAfter(env, area, item, f.path);
    assert forall k :: 0 <= k < |landing| ==> landing[k] == needed[k];
    if f in landing {
      var k :| 0 <= k < |landing| && landing[k] == f;
      assert landing[k].path == f.path;
    } else {
      if Among(landing, f.path) {
        var k :| 0 <= k < |landing| && landing[k].path == f.path;
        assert needed[k] in needed;
        NeededAre(component, remote, local, area.target, needed[k]);
        SamePathSameFile(remote.files, f, needed[k]);
      }
      PlanPartitions(component, remote, local);
      assert f.path in Paths(remote.files);
    }
  }

  /** After a successful apply every file of the manifest verifies exactly when the ledger was faithful. */
  lemma VerifiesExactly(env: Env, area: Area, component: string, remote: Component, local: Component)
    requires UniquePaths(remote.files) && AppliedItem(env, area, ItemFor(component, remote, local)).1.Ok?
    ensures AllInPlace(AppliedItem(env, area, ItemFor(component, remote, local)).0.target, remote.files,
      env.digest) <==>
      Faithful(area.target, ItemFor(component, remote, local).keep, env.digest)
  {
    var item := ItemFor(component, remote, local);
    var after := AppliedItem(env, area, item).0.target;
    var needed := Needed(area.target, item);
    NeededUnique(component, remote, local, area.target);
    EndsAs(env, area, item);
    assert Landing(env, area, item) == needed;
    forall f | f in remote.files
      ensures InPlace(after, f, env.digest) <==> f in needed || InPlace(area.target, f, env.digest)
      ensures f in item.keep || f in needed
    {
      FileAfter(env, area, component, remote, local, f);
      NeededAre(component, remote, local, area.target, f);
    }
    if Faithful(area.target, item.keep, env.digest) {
      forall k | 0 <= k < |remote.files| ensures InPlace(after, remote.files[k], env.digest) {
        var f := remote.files[k];
        assert f in remote.files;
        NeededAre(component, remote, local, area.target, f);
      }
    }
    if AllInPlace(after, remote.files, env.digest) {
      forall f | f in item.keep ensures TrueIfThere(area.target, f, env.digest) {
        MatchingAre(local.files, remote.files, true, f);
        NeededAre(component, remote, local, area.target, f);
        var k :| 0 <= k < |remote.files| && remote.files[k] == f;
      }
    }
  }

  lemma RemovesNothingNeeded(component: string, remote: Component, local: Component, target: Files)
    ensures forall p :: p in ItemFor(component, remote, local).toRemove ==>
      !Among(Needed(target, ItemFor(component, remote, local)), p)
  {
    var item := ItemFor(component, remote, local);
    var needed := Needed(target, item);
    PlanPartitions(component, remote, local);
    forall p | p in item.toRemove ensures !Among(needed, p) {
      if Among(needed, p) {
        var k :| 0 <= k < |needed| && needed[k].path == p;
        assert needed[k] in needed;
        NeededAre(component, remote, local, target, needed[k]);
      }
    }
  }

  // ---------- success ----------

  /** Every file of the list can be had: its path is safe and its server answers in full. */
  ghost predicate Available(env: Env, component: string, files: seq<FileEntry>) {
    forall k :: 0 <= k < |files| ==> Obtainable(env, component, files[k])
  }

  ghost predicate Obtainable(env: Env, component: string, f: FileEntry) {
    env.safe(f.path) && exists payload ::
      AnswersInFull(payload, env.server(component, f.path)) && Describes(f, env.digest, payload)
  }

  lemma {:induction false} AvailableStages(env: Env, component: string, staged: Files, files: seq<FileEntry>)
    requires Available(env, component, files) && env.maxAttempts >= 2
    ensures StagedAll(env, component, staged, files).1.None?
    decreases |files|
  {
    if files != [] {
      var most, last := files[..|files| - 1], files[|files| - 1];
      assert forall k :: 0 <= k < |most| ==> most[k] == files[k];
      AvailableStages(env, component, staged, most);
      var before := StagedAll(env, component, staged, most).0;
      assert Obtainable(env, component, last);
      var payload :| AnswersInFull(payload, env.server(component, last.path)) && Describes(last, env.digest, payload);
      TwoAttemptsSuffice(At(before, last.path), last, env.server(component, last.path), env.digest, env.transient,
        env.maxAttempts, payload);
    }
  }

  /** Every file of the list can be given its name. */
  ghost predicate Renamable(env: Env, component: string, files: seq<FileEntry>) {
    forall k :: 0 <= k < |files| ==> env.renames(component, files[k].path)
  }

  /** From any staging area, with servers that answer in full and files that can be replaced, the default two
      attempts apply the item. */
  lemma AvailableApplies(env: Env, area: Area, item: PlanItem)
    requires UniquePaths(Needed(area.target, item)) && env.maxAttempts >= 2
    requires Available(env, item.component, Needed(area.target, item))
    requires Renamable(env, item.component, Needed(area.target, item))
    ensures AppliedItem(env, area, item).1.Ok?
  {
    AvailableStages(env, item.component, area.staged, Needed(area.target, item));
    EndsAs(env, area, item);
  }

  lemma ManifestApplies(env: Env, area: Area, component: string, remote: Component, local: Component)
    requires UniquePaths(remote.files) && env.maxAttempts >= 2
    requires Available(env, component, remote.files) && Renamable(env, component, remote.files)
    ensures AppliedItem(env, area, ItemFor(component, remote, local)).1.Ok?
  {
    var item := ItemFor(component, remote, local);
    var needed := Needed(area.target, item);
    NeededUnique(component, remote, local, area.target);
    forall k | 0 <= k < |needed|
      ensures Obtainable(env, component, needed[k]) && env.renames(component, needed[k].path)
    {
      assert needed[k] in needed;
      NeededAre(component, remote, local, area.target, needed[k]);
      var j :| 0 <= j < |remote.files| && remote.files[j] == needed[k];
    }
    AvailableApplies(env, area, item);
  }

  // ---------- a half-updated target ----------

  function Sized(path: string, hash: string): FileEntry { FileEntry(path, 1, hash, "1", None) }

  function Version1(): Component { Component("1", [Sized("a", "old"), Sized("b", "old")]) }

  function Version2(): Component { Component("2", [Sized("a", "new"), Sized("b", "new")]) }

  /** The installed "b" is in use and cannot be replaced. */
  function InUse(): Env {
    Env(_ => true, bytes => if bytes == [1] then "new" else "old", _ => false, 2,
      (component, path) => (attempt, hops, offset) => Refused("offline"), (component, path) => path == "a")
  }

  /** Version 1 is installed, version 2 is staged. */
  function BothStaged(): Area { Area(map["a" := [0], "b" := [0]], map["a" := [1], "b" := [1]]) }

  function Halfway(): Area { Area(map["a" := [1], "b" := [0]], map["b" := [1]]) }

  lemma SecondVersionItem()
    ensures Needed(BothStaged().target, ItemFor("runtime", Version2(), Version1())) == Version2().files
  {
    var local, files := Version1().files, Version2().files;
    assert local[..1] == [local[0]] && files[..1] == [files[0]] && files[..1][..0] == [];
    assert !RecordMatches(local, files[0]) && !RecordMatches(local, files[1]);
    assert Matching(local, files[..1], false) == files[..1] && Matching(local, files[..1], true) == [];
    assert files[..1] + [files[1]] == files;
    assert Matching(local, files, false) == files && Matching(local, files, true) == [];
    assert files + [] == files;
  }

  /** The guarantee fails: the new "a" is installed, "b" is the old one, and nothing is reported as applied. */
  lemma HalfUpdated()
    ensures AppliedItem(InUse(), BothStaged(), ItemFor("runtime", Version2(), Version1())) ==
      (Halfway(), Interrupted("runtime", "b"))
  {
    var env, area, needed := InUse(), BothStaged(), Version2().files;
    SecondVersionItem();
    assert needed[..1] == [needed[0]] && needed[..1][..0] == [];
    assert StagedAll(env, "runtime", area.staged, needed[..1]) == (area.staged, None);
    assert StagedAll(env, "runtime", area.staged, needed) == (area.staged, None);
    assert area.staged - {"a"} == Halfway().staged && area.target["a" := [1]] == Halfway().target;
    assert Moved(env, "runtime", area, needed[..1][..0]) == (area, None);
    assert Moved(env, "runtime", area, needed[..1]) == (Halfway(), None);
    assert Moved(env, "runtime", area, needed) == (Halfway(), Some("b"));
  }

  // ---------- what an omitted component misses ----------

  function UpdatedTarget(env: Env, area: Area, component: string, remote: Component, local: Component): Files {
    var item := ItemFor(component, remote, local);
    if NeedsAction(item, local) then AppliedItem(env, area, item).0.target else area.target
  }

  /** The disk is only looked at for a component with something to do, and then only for presence and size. With
      servers that answer in full and files that can be replaced, everything is in place afterwards exactly when
      it was before or, for a component in the plan, when no known file of the right size has other contents;
      contrary to bootstrapper/electron/updateManager.js:51-56. */
  lemma HealsExactly(env: Env, area: Area, component: string, remote: Component, local: Component)
    requires UniquePaths(remote.files) && env.maxAttempts >= 2
    requires Available(env, component, remote.files) && Renamable(env, component, remote.files)
    ensures var item := ItemFor(component, remote, local);
      AllInPlace(UpdatedTarget(env, area, component, remote, local), remote.files, env.digest) <==>
      if NeedsAction(item, local) then Faithful(area.target, item.keep, env.digest)
      else AllInPlace(area.target, remote.files, env.digest)
  {
    if NeedsAction(ItemFor(component, remote, local), local) {
      ManifestApplies(env, area, component, remote, local);
      VerifiesExactly(env, area, component, remote, local);
    }
  }
}

/** Applying a planned update to one component: stage and verify everything first, only then move it into
    place (bootstrapper/electron/updateManager.js). */
module Updater {
  import opened Wrappers
  import opened Octets
  import opened UpdatePlan
  import opened StagedDownload

  type Files = map<string, Bytes>

  /** A component's files, by relative path: those installed and those staged under downloads/. */
  datatype Area = Area(target: Files, staged: Files)

  /** What an update depends on besides plan and disk: which relative paths stay inside the component's
      directories, the digest, which transport errors are worth a retry, how many attempts, the servers, and
      which files of which component can be given their names; a file in use cannot be replaced. */
  datatype Env = Env(
    safe: string -> bool,
    digest: Digest,
    transient: string -> bool,
    maxAttempts: nat,
    server: (string, string) -> Replies,
    renames: (string, string) -> bool)

  datatype Failure = Failure(path: string, error: Option<Error>)

  datatype ItemResult =
    | Failed(component: string, failure: Failure)
    | Interrupted(component: string, file: string)
    | Ok(component: string, targetVersion: string, files: seq<FileEntry>, downloaded: seq<string>, removed: seq<string>,
      kept: seq<string>)

  function At(files: Files, path: string): Option<Bytes> { if path in files then Some(files[path]) else None }

  function Put(files: Files, path: string, file: Option<Bytes>): Files {
    if file.Some? then files[path := file.value] else files - {path}
  }

  // ---------- phase one: staging ----------

  /** The recorded files that are, or are not, on disk with their recorded size. */
  function OnDisk(target: Files, keep: seq<FileEntry>, wanted: bool): seq<FileEntry> {
    if keep == [] then []
    else
      var last := keep[|keep| - 1];
      OnDisk(target, keep[..|keep| - 1], wanted) +
        if (last.path in target && |target[last.path]| == last.size) == wanted then [last] else []
  }

  /** What is really downloaded: the planned files and those the ledger trusts in vain. */
  function Needed(target: Files, item: PlanItem): seq<FileEntry> { item.toDownload + OnDisk(target, item.keep, false) }

  predicate StagedFileMatches(staged: Files, f: FileEntry, digest: Digest) {
    f.path in staged && Verified(f, digest, staged[f.path])
  }

  function StagedOne(env: Env, component: string, staged: Files, f: FileEntry): (Files, Option<Failure>) {
    if !env.safe(f.path) then (staged, Some(Failure(f.path, Some(UnsafePath))))
    else if StagedFileMatches(staged, f, env.digest) then (staged, None)
    else
      var (got, ok, error) :=
        Retried(At(staged, f.path), f, env.server(component, f.path), env.digest, env.transient, 0, env.maxAttempts,
          None);
      (Put(staged, f.path, got), if ok then None else Some(Failure(f.path, error)))
  }

  /** Files in order, stopping at the first that cannot be had. */
  function StagedAll(env: Env, component: string, staged: Files, files: seq<FileEntry>): (Files, Option<Failure>) {
    if files == [] then (staged, None)
    else
      var (before, failure) := StagedAll(env, component, staged, files[..|files| - 1]);
      if failure.Some? then (before, failure) else StagedOne(env, component, before, files[|files| - 1])
  }

  // ---------- phase two: installing ----------

  /** Staged files are given their names in order; the first one that cannot be throws, and that is where the
      component is left. */
  function Moved(env: Env, component: string, area: Area, files: seq<FileEntry>): (Area, Option<string>) {
    if files == [] then (area, None)
    else
      var (before, broken) := Moved(env, component, area, files[..|files| - 1]);
      var path := files[|files| - 1].path;
      if broken.Some? then (before, broken)
      else if !env.renames(component, path) then (before, Some(path))
      else if path in before.staged
        then (Area(before.target[path := before.staged[path]], before.staged - {path}), None)
      else (before, None)
  }

  function Pruned(env: Env, target: Files, toRemove: seq<string>): (Files, seq<string>) {
    if toRemove == [] then (target, [])
    else
      var (before, removed) := Pruned(env, target, toRemove[..|toRemove| - 1]);
      var path := toRemove[|toRemove| - 1];
      if env.safe(path) && path in before then (before - {path}, removed + [path]) else (before, removed)
  }

  function PathList(files: seq<FileEntry>): seq<string> { seq(|files|, k requires 0 <= k < |files| => files[k].path) }

  function AppliedItem(env: Env, area: Area, item: PlanItem): (Area, ItemResult) {
    var needed := Needed(area.target, item);
    var (staged, failure) := StagedAll(env, item.component, area.staged, needed);
    if failure.Some? then (Area(area.target, staged), Failed(item.component, failure.value))
    else
      var (moved, broken) := Moved(env, item.component, Area(area.target, staged), needed);
      if broken.Some? then (moved, Interrupted(item.component, broken.value))
      else
        var (target, removed) := Pruned(env, moved.target, item.toRemove);
        (Area(target, moved.staged),
         Ok(item.component, item.targetVersion, item.files, PathList(needed), removed,
            PathList(OnDisk(area.target, item.keep, true))))
  }

  // ---------- the same, in place ----------

  class ComponentArea {
    const component: string
    var target: Files
    var staged: Files

    ghost function State(): Area reads this { Area(target, staged) }

    constructor (component: string, target: Files, staged: Files)
      ensures this.component == component && State() == Area(target, staged)
    {
      this.component, this.target, this.staged := component, target, staged;
    }

    method SetStaged(path: string, file: Option<Bytes>)
      modifies this`staged
      ensures staged == Put(old(staged), path, file)
    {
      match file
      case Some(bytes) => staged := staged[path := bytes];
      case None => staged := staged - {path};
    }

    /** The body goes to the file as it arrives: after what is there for a 206, in its place otherwise. */
    method Pipe(path: string, reply: Reply)
      requires reply.Response?
      modifies this`staged
      ensures At(staged, path) == Some(Start(At(old(staged), path), reply) + Joined(reply.chunks))
      ensures staged - {path} == old(staged) - {path}
    {
      ghost var start := Start(At(staged, path), reply);
      SetStaged(path, Some(if reply.status == 206 && path in staged then staged[path] else []));
      assert start + [] == start;
      for i := 0 to |reply.chunks|
        invariant path in staged && staged[path] == start + Joined(reply.chunks[..i])
        invariant staged - {path} == old(staged) - {path}
      {
        assert reply.chunks[..i + 1][..i] == reply.chunks[..i];
        assert start + Joined(reply.chunks[..i]) + reply.chunks[i] ==
          start + (Joined(reply.chunks[..i]) + reply.chunks[i]);
        SetStaged(path, Some(staged[path] + reply.chunks[i]));
      }
      assert reply.chunks[..|reply.chunks|] == reply.chunks;
    }

    /** One request, its redirects, and the second try without a range. */
    method Request(path: string, replies: Replies, attempt: nat, hops: nat, offset: nat) returns (error: Option<Error>)
      modifies this`staged
      ensures (At(staged, path), error) == Requested(At(old(staged), path), replies, attempt, hops, offset)
      ensures staged - {path} == old(staged) - {path}
      decreases hops, offset
    {
      var reply := replies(attempt, hops, offset);
      if reply.Refused? { return Some(Transport(reply.error)); }
      if Redirects(reply) && hops > 0 {
        error := Request(path, replies, attempt, hops - 1, offset);
        return;
      }
      if offset > 0 && reply.status != 206 {
        SetStaged(path, None);
        error := Request(path, replies, attempt, hops, 0);
        return;
      }
      if reply.status != 200 && reply.status != 206 { return Some(HttpStatus(reply.status)); }
      Pipe(path, reply);
      error := if reply.dropped.Some? then Some(Transport(reply.dropped.value)) else None;
    }

    method DownloadFile(f: FileEntry, replies: Replies, digest: Digest, attempt: nat) returns (error: Option<Error>)
      modifies this`staged
      ensures (At(staged, f.path), error) == Attempted(At(old(staged), f.path), f, replies, digest, attempt)
      ensures staged - {f.path} == old(staged) - {f.path}
    {
      var startOffset: nat := 0;
      if f.path in staged {
        if 0 < |staged[f.path]| < f.size {
          startOffset := |staged[f.path]|;
        } else if |staged[f.path]| >= f.size {
          SetStaged(f.path, None);
        }
      }
      assert At(staged, f.path) == Resumable(At(old(staged), f.path), f) && startOffset == Offset(At(staged, f.path));
      error := Request(f.path, replies, attempt, MAX_REDIRECTS, startOffset);
      if error.Some? { return; }
      if |staged[f.path]| != f.size || digest(staged[f.path]) != f.hash {
        SetStaged(f.path, None);
        error := Some(Corrupted);
      }
    }

    /** The attempts for one file. */
    method FetchFile(env: Env, f: FileEntry) returns (ok: bool, lastError: Option<Error>)
      modifies this`staged
      ensures (At(staged, f.path), ok, lastError) ==
        Retried(At(old(staged), f.path), f, env.server(component, f.path), env.digest, env.transient, 0,
          env.maxAttempts, None)
      ensures staged - {f.path} == old(staged) - {f.path}
    {
      var replies := env.server(component, f.path);
      ghost var whole := Retried(At(staged, f.path), f, replies, env.digest, env.transient, 0, env.maxAttempts, None);
      ok, lastError := false, None;
      for attempt := 0 to env.maxAttempts
        invariant !ok && Retried(At(staged, f.path), f, replies, env.digest, env.transient, attempt, env.maxAttempts,
          lastError) == whole
        invariant staged - {f.path} == old(staged) - {f.path}
      {
        var error := DownloadFile(f, replies, env.digest, attempt);
        if error.None? { return true, lastError; }
        lastError := error;
        if !IsRetryable(error.value, env.transient) { return; }
      }
    }

    /** Phase one. */
    method StageFiles(env: Env, files: seq<FileEntry>) returns (failure: Option<Failure>)
      modifies this`staged
      ensures (staged, failure) == StagedAll(env, component, old(staged), files)
    {
      failure := None;
      for i := 0 to |files|
        invariant (staged, failure) == StagedAll(env, component, old(staged), files[..i]) && failure.None?
      {
        var f := files[i];
        assert files[..i + 1][..i] == files[..i];
        StagedAllStops(env, component, old(staged), files, i + 1);
        if !env.safe(f.path) { return Some(Failure(f.path, Some(UnsafePath))); }
        if f.path in staged && |staged[f.path]| == f.size && env.digest(staged[f.path]) == f.hash { continue; }
        ghost var before := staged;
        var ok, lastError := FetchFile(env, f);
        OnlyThisPath(before, staged, f.path);
        if !ok { return Some(Failure(f.path, lastError)); }
      }
      assert files[..|files|] == files;
    }

    /** Phase two: the staged files get their names, up to one that cannot. */
    method MoveFiles(env: Env, files: seq<FileEntry>) returns (broken: Option<string>)
      requires UniquePaths(files) && forall k :: 0 <= k < |files| ==> files[k].path in staged
      modifies this
      ensures (State(), broken) == Moved(env, component, old(State()), files)
    {
      broken := None;
      for i := 0 to |files|
        invariant (State(), None) == Moved(env, component, old(State()), files[..i])
        invariant forall k :: i <= k < |files| ==> files[k].path in staged
      {
        assert files[..i + 1][..i] == files[..i];
        MovedStops(env, component, old(State()), files, i + 1);
        var path := files[i].path;
        if !env.renames(component, path) { return Some(path); }
        target, staged := target[path := staged[path]], staged - {path};
      }
      assert files[..|files|] == files;
    }

    /** Then what is obsolete goes, as far as it is there. */
    method RemoveObsolete(env: Env, toRemove: seq<string>) returns (removed: seq<string>)
      modifies this`target
      ensures (target, removed) == Pruned(env, old(target), toRemove)
    {
      removed := [];
      for i := 0 to |toRemove|
        invariant (target, removed) == Pruned(env, old(target), toRemove[..i])
      {
        assert toRemove[..i + 1][..i] == toRemove[..i];
        var path := toRemove[i];
        if env.safe(path) && path in target {
          target, removed := target - {path}, removed + [path];
        }
      }
      assert toRemove[..|toRemove|] == toRemove;
    }

    /** The ledger's word is checked against the disk: presence and size. */
    method Recheck(keep: seq<FileEntry>) returns (kept: seq<FileEntry>, again: seq<FileEntry>)
      ensures kept == OnDisk(target, keep, true) && again == OnDisk(target, keep, false)
    {
      kept, again := [], [];
      for i := 0 to |keep|
        invariant kept == OnDisk(target, keep[..i], true) && again == OnDisk(target, keep[..i], false)
      {
        var f := keep[i];
        assert keep[..i + 1][..i] == keep[..i];
        if f.path in target && |target[f.path]| == f.size { kept := kept + [f]; } else { again := again + [f]; }
      }
      assert keep[..|keep|] == keep;
    }

    method ApplyItem(env: Env, item: PlanItem) returns (result: ItemResult)
      requires item.component == component && UniquePaths(Needed(target, item))
      modifies this
      ensures (State(), result) == AppliedItem(env, old(State()), item)
    {
      var kept, again := Recheck(item.keep);
      var needed := item.toDownload + again;
      var failure := StageFiles(env, needed);
      if failure.Some? { return Failed(component, failure.value); }
      AllStaged(env, component, old(staged), needed);
      var broken := MoveFiles(env, needed);
      if broken.Some? { return Interrupted(component, broken.value); }
      var removed := RemoveObsolete(env, item.toRemove);
      result := Ok(component, item.targetVersion, item.files, PathList(needed), removed, PathList(kept));
    }

    method VerifyComponentFiles(digest: Digest, files: seq<FileEntry>)
      returns (missing: seq<string>, corrupt: seq<string>)
      ensures missing == Troubles(target, digest, files, false) && corrupt == Troubles(target, digest, files, true)
      ensures missing == [] && corrupt == [] <==> forall k :: 0 <= k < |files| ==> InPlace(target, files[k], digest)
      ensures forall path :: path in missing <==> Among(files, path) && path !in target
      ensures forall path :: path in corrupt <==> SomeCorrupt(target, files, digest, path)
    {
      missing, corrupt := [], [];
      for i := 0 to |files|
        invariant missing == Troubles(target, digest, files[..i], false)
          && corrupt == Troubles(target, digest, files[..i], true)
      {
        var f := files[i];
        assert files[..i + 1][..i] == files[..i];
        if f.path !in target {
          missing := missing + [f.path];
          continue;
        }
        if digest(target[f.path]) != f.hash || |target[f.path]| != f.size { corrupt := corrupt + [f.path]; }
      }
      assert files[..|files|] == files;
      NoTroubles(target, digest, files);
      forall path
        ensures path in missing <==> Among(files, path) && path !in target
        ensures path in corrupt <==> SomeCorrupt(target, files, digest, path)
      {
        TroublesAre(target, digest, files, path);
      }
    }
  }

  // ---------- the final gate ----------

  predicate InPlace(target: Files, f: FileEntry, digest: Digest) {
    f.path in target && Verified(f, digest, target[f.path])
  }

  /** The files that are not there, or that are and are not what they should be. */
  function Troubles(target: Files, digest: Digest, files: seq<FileEntry>, present: bool): seq<string> {
    if files == [] then []
    else
      var last := files[|files| - 1];
      Troubles(target, digest, files[..|files| - 1], present) +
        if (last.path in target) == present && !InPlace(target, last, digest) then [last.path] else []
  }

  /** The file is there, and its size or its hash is not what it should be. */
  predicate IsCorrupt(target: Files, f: FileEntry, digest: Digest) {
    f.path in target && (|target[f.path]| != f.size || digest(target[f.path]) != f.hash)
  }

  predicate SomeCorrupt(target: Files, files: seq<FileEntry>, digest: Digest, path: string) {
    exists k :: 0 <= k < |files| && IsCorrupt(target, files[k], digest) && files[k].path == path
  }

  lemma {:induction false} TroublesAre(target: Files, digest: Digest, files: seq<FileEntry>, path: string)
    ensures path in Troubles(target, digest, files, false) <==> Among(files, path) && path !in target
    ensures path in Troubles(target, digest, files, true) <==> SomeCorrupt(target, files, digest, path)
    decreases |files|
  {
    if files != [] {
      var most, last := files[..|files| - 1], files[|files| - 1];
      TroublesAre(target, digest, most, path);
      AmongLast(files, path);
      assert forall k :: 0 <= k < |most| ==> most[k] == files[k];
      assert SomeCorrupt(target, files, digest, path) <==>
        SomeCorrupt(target, most, digest, path) || (IsCorrupt(target, last, digest) && last.path == path);
    }
  }

  lemma {:induction false} NoTroubles(target: Files, digest: Digest, files: seq<FileEntry>)
    ensures Troubles(target, digest, files, false) == [] && Troubles(target, digest, files, true) == [] <==>
      forall k :: 0 <= k < |files| ==> InPlace(target, files[k], digest)
    decreases |files|
  {
    if files != [] {
      var most := files[..|files| - 1];
      NoTroubles(target, digest, most);
      assert forall k :: 0 <= k < |most| ==> most[k] == files[k];
    }
  }

  // ---------- facts about staging ----------

  lemma OnlyThisPath(before: Files, after: Files, path: string)
    requires after - {path} == before - {path}
    ensures after == Put(before, path, At(after, path))
  {
    forall p ensures p != path ==> (p in after <==> p in before) && (p in after ==> after[p] == before[p]) {
      if p != path {
        assert p in after <==> p in after - {path};
        assert p in before <==> p in before - {path};
        if p in after { assert (after - {path})[p] == (before - {path})[p]; }
      }
    }
  }

  /** A failure ends the staging: later files change nothing. */
  lemma {:induction false} StagedAllStops(env: Env, component: string, staged: Files, files: seq<FileEntry>, i: nat)
    requires i <= |files|
    ensures StagedAll(env, component, staged, files[..i]).1.Some? ==>
      StagedAll(env, component, staged, files) == StagedAll(env, component, staged, files[..i])
    decreases |files|
  {
    if i < |files| {
      assert files[..|files| - 1][..i] == files[..i];
      StagedAllStops(env, component, staged, files[..|files| - 1], i);
    } else {
      assert files[..i] == files;
    }
  }

  lemma StagedOneVerified(env: Env, component: string, staged: Files, f: FileEntry)
    ensures var (after, failure) := StagedOne(env, component, staged, f);
      && (failure.None? ==> StagedFileMatches(after, f, env.digest))
      && (failure.Some? ==> failure.value.path == f.path)
      && (forall path :: path != f.path ==> At(after, path) == At(staged, path))
  {
    SuccessIsVerified(At(staged, f.path), f, env.server(component, f.path), env.digest, env.transient, 0,
      env.maxAttempts, None);
  }

  predicate Among(files: seq<FileEntry>, path: string) { path in Paths(files) }

  /** When staging succeeds every file is staged with verified bytes; whatever happens, only those files'
      staged bytes change. */
  lemma {:induction false} StagedAllVerified(env: Env, component: string, staged: Files, files: seq<FileEntry>)
    requires UniquePaths(files)
    ensures var (after, failure) := StagedAll(env, component, staged, files);
      && (failure.None? ==> forall k :: 0 <= k < |files| ==> StagedFileMatches(after, files[k], env.digest))
      && (forall path :: !Among(files, path) ==> At(after, path) == At(staged, path))
    decreases |files|
  {
    if files != [] {
      var most, last := files[..|files| - 1], files[|files| - 1];
      assert forall k :: 0 <= k < |most| ==> most[k] == files[k];
      StagedAllVerified(env, component, staged, most);
      var before := StagedAll(env, component, staged, most).0;
      StagedOneVerified(env, component, before, last);
      var (after, failure) := StagedAll(env, component, staged, files);
      forall path ensures !Among(files, path) ==> At(after, path) == At(staged, path) {
        assert Among(most, path) ==> Among(files, path);
        assert Among(files, last.path);
      }
      forall k | 0 <= k < |files| && failure.None? ensures StagedFileMatches(after, files[k], env.digest) {
        if k < |most| {
          assert StagedFileMatches(before, files[k], env.digest)
            && At(after, files[k].path) == At(before, files[k].path);
        }
      }
    }
  }

  lemma AllStaged(env: Env, component: string, staged: Files, files: seq<FileEntry>)
    requires UniquePaths(files) && StagedAll(env, component, staged, files).1.None?
    ensures forall k :: 0 <= k < |files| ==> files[k].path in StagedAll(env, component, staged, files).0
  {
    StagedAllVerified(env, component, staged, files);
  }

  // ---------- facts about installing ----------

  /** A rename that throws ends the moving. */
  lemma {:induction false} MovedStops(env: Env, component: string, area: Area, files: seq<FileEntry>, i: nat)
    requires i <= |files|
    ensures Moved(env, component, area, files[..i]).1.Some? ==>
      Moved(env, component, area, files) == Moved(env, component, area, files[..i])
    decreases |files|
  {
    if i < |files| {
      assert files[..|files| - 1][..i] == files[..i];
      MovedStops(env, component, area, files[..|files| - 1], i);
    } else {
      assert files[..i] == files;
    }
  }

  /** How many files get their names: those before the first that cannot. */
  function Movable(env: Env, component: string, files: seq<FileEntry>): (n: nat)
    ensures n <= |files| && (n < |files| ==> !env.renames(component, files[n].path))
    ensures forall k :: 0 <= k < n ==> env.renames(component, files[k].path)
  {
    if files == [] then 0
    else
      var n := Movable(env, component, files[..|files| - 1]);
      if n == |files| - 1 && env.renames(component, files[n].path) then |files| else n
  }

  /** Exactly the files before the first that cannot be renamed land under their paths; nothing else of the
      target changes, and the others stay staged. */
  lemma {:induction false} MovedInto(env: Env, component: string, area: Area, files: seq<FileEntry>)
    requires UniquePaths(files) && forall k :: 0 <= k < |files| ==> files[k].path in area.staged
    ensures var n := Movable(env, component, files);
      var (after, broken) := Moved(env, component, area, files);
      && broken == (if n < |files| then Some(files[n].path) else None)
      && (forall path ::
        At(after.target, path) == At(if Among(files[..n], path) then area.staged else area.target, path))
      && (forall path :: At(after.staged, path) == if Among(files[..n], path) then None else At(area.staged, path))
    decreases |files|
  {
    if files != [] {
      var most, last := files[..|files| - 1], files[|files| - 1];
      assert forall k :: 0 <= k < |most| ==> most[k] == files[k];
      MovedInto(env, component, area, most);
      NotAmong(files);
      var n := Movable(env, component, files);
      if n < |files| {
        assert files[..n] == most[..n];
      } else {
        assert most[..|most|] == most && files[..n] == files;
        var (before, broken) := Moved(env, component, area, most);
        assert broken == None && At(before.staged, last.path) == At(area.staged, last.path);
        assert Moved(env, component, area, files).0 ==
          Area(before.target[last.path := before.staged[last.path]], before.staged - {last.path});
        forall path ensures Among(files, path) <==> Among(most, path) || path == last.path {
          AmongLast(files, path);
        }
      }
    }
  }

  lemma NotAmong(files: seq<FileEntry>)
    requires UniquePaths(files) && files != []
    ensures !Among(files[..|files| - 1], files[|files| - 1].path)
  {
    var most := files[..|files| - 1];
    assert forall k :: 0 <= k < |most| ==> most[k] == files[k];
  }

  lemma AmongLast(files: seq<FileEntry>, path: string)
    requires files != []
    ensures Among(files, path) <==> Among(files[..|files| - 1], path) || path == files[|files| - 1].path
  {
    var most := files[..|files| - 1];
    assert forall k :: 0 <= k < |most| ==> most[k] == files[k];
    if Among(files, path) {
      var k :| 0 <= k < |files| && files[k].path == path;
      assert k < |most| ==> most[k].path == path;
    }
  }

  lemma {:induction false} PrunedIs(env: Env, target: Files, toRemove: seq<string>, path: string)
    ensures At(Pruned(env, target, toRemove).0, path) == if path in toRemove
      && env.safe(path) then None else At(target, path)
    decreases |toRemove|
  {
    if toRemove != [] {
      PrunedIs(env, target, toRemove[..|toRemove| - 1], path);
      assert toRemove == toRemove[..|toRemove| - 1] + [toRemove[|toRemove| - 1]];
    }
  }
}

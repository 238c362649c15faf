/** Planning an update: the remote manifest against the local ledger, file by file
    (bootstrapper/electron/updateManager.js). */
module UpdatePlan {
  import opened Wrappers

  datatype FileEntry = FileEntry(path: string, size: int, hash: string, version: string, url: Option<string>)

  datatype Component = Component(version: string, files: seq<FileEntry>)

  /** A remote manifest or the local ledger: what is said of each component. */
  type Manifest = map<string, Component>

  datatype PlanItem = PlanItem(component: string, targetVersion: string, files: seq<FileEntry>,
                               toDownload: seq<FileEntry>, toRemove: seq<string>, keep: seq<FileEntry>)

  const COMPONENTS: seq<string> := ["runtime", "resources"]

  const NOTHING_INSTALLED := Component("0.0.0", [])

  function Local(ledger: Manifest, component: string): Component {
    if component in ledger then ledger[component] else NOTHING_INSTALLED
  }

  ghost predicate UniquePaths(files: seq<FileEntry>) {
    forall i, j :: 0 <= i < j < |files| ==> files[i].path != files[j].path
  }

  /** The record a path-keyed map built from the list holds: the last one. */
  function Recorded(files: seq<FileEntry>, path: string): Option<FileEntry> {
    if files == [] then None
    else if files[|files| - 1].path == path then Some(files[|files| - 1])
    else Recorded(files[..|files| - 1], path)
  }

  /** The ledger knows this very content under this path. */
  predicate RecordMatches(local: seq<FileEntry>, f: FileEntry) {
    var r := Recorded(local, f.path);
    r.Some? && r.value.hash == f.hash && r.value.size == f.size
  }

  function Matching(local: seq<FileEntry>, files: seq<FileEntry>, wanted: bool): seq<FileEntry> {
    if files == [] then []
    else
      var last := files[|files| - 1];
      Matching(local, files[..|files| - 1], wanted) + if RecordMatches(local, last) == wanted then [last] else []
  }

  /** The local paths the remote manifest no longer has. */
  function Obsolete(remote: set<string>, local: seq<FileEntry>): seq<string> {
    if local == [] then []
    else Obsolete(remote, local[..|local| - 1]) + if local[|local| - 1].path in remote then []
      else [local[|local| - 1].path]
  }

  function Paths(files: seq<FileEntry>): set<string> { set k | 0 <= k < |files| :: files[k].path }

  function ItemFor(component: string, remote: Component, local: Component): PlanItem {
    PlanItem(component, remote.version, remote.files, Matching(local.files, remote.files, false),
      Obsolete(Paths(remote.files), local.files), Matching(local.files, remote.files, true))
  }

  predicate NeedsAction(item: PlanItem, local: Component) {
    item.toDownload != [] || item.toRemove != [] || item.targetVersion != local.version
  }

  function PlanOf(manifest: Manifest, ledger: Manifest, components: seq<string>): seq<PlanItem> {
    if components == [] then []
    else
      var c := components[|components| - 1];
      PlanOf(manifest, ledger, components[..|components| - 1]) +
        if c in manifest && NeedsAction(ItemFor(c, manifest[c], Local(ledger, c)), Local(ledger, c))
          then [ItemFor(c, manifest[c], Local(ledger, c))] else []
  }

  method LocalByPath(files: seq<FileEntry>) returns (byPath: map<string, FileEntry>)
    ensures forall path :: path in byPath <==> Recorded(files, path).Some?
    ensures forall path :: path in byPath ==> Recorded(files, path) == Some(byPath[path])
  {
    byPath := map[];
    for i := 0 to |files|
      invariant forall path :: path in byPath <==> Recorded(files[..i], path).Some?
      invariant forall path :: path in byPath ==> Recorded(files[..i], path) == Some(byPath[path])
    {
      assert files[..i + 1][..i] == files[..i];
      byPath := byPath[files[i].path := files[i]];
    }
    assert files[..|files|] == files;
  }

  method PlanComponent(component: string, remote: Component, local: Component) returns (item: PlanItem)
    ensures item == ItemFor(component, remote, local)
  {
    var byPath := LocalByPath(local.files);
    var remotePaths := set k | 0 <= k < |remote.files| :: remote.files[k].path;
    var toDownload, keep, toRemove := [], [], [];
    for i := 0 to |remote.files|
      invariant toDownload == Matching(local.files, remote.files[..i], false)
      invariant keep == Matching(local.files, remote.files[..i], true)
    {
      var f := remote.files[i];
      assert remote.files[..i + 1][..i] == remote.files[..i];
      if f.path in byPath && byPath[f.path].hash == f.hash && byPath[f.path].size == f.size {
        keep := keep + [f];
      } else {
        toDownload := toDownload + [f];
      }
    }
    for i := 0 to |local.files|
      invariant toRemove == Obsolete(remotePaths, local.files[..i])
    {
      assert local.files[..i + 1][..i] == local.files[..i];
      if local.files[i].path !in remotePaths { toRemove := toRemove + [local.files[i].path]; }
    }
    assert remote.files[..|remote.files|] == remote.files && local.files[..|local.files|] == local.files;
    item := PlanItem(component, remote.version, remote.files, toDownload, toRemove, keep);
  }

  method PlanUpdate(manifest: Manifest, ledger: Manifest) returns (plan: seq<PlanItem>)
    ensures plan == PlanOf(manifest, ledger, COMPONENTS)
  {
    plan := [];
    for i := 0 to |COMPONENTS|
      invariant plan == PlanOf(manifest, ledger, COMPONENTS[..i])
    {
      var c := COMPONENTS[i];
      assert COMPONENTS[..i + 1][..i] == COMPONENTS[..i];
      if c !in manifest { continue; }
      var local := Local(ledger, c);
      var item := PlanComponent(c, manifest[c], local);
      if item.toDownload != [] || item.toRemove != [] || item.targetVersion != local.version {
        plan := plan + [item];
      }
    }
    assert COMPONENTS[..|COMPONENTS|] == COMPONENTS;
  }

  // ---------- what a plan says ----------

  lemma {:induction false} MatchingAre(local: seq<FileEntry>, files: seq<FileEntry>, wanted: bool, f: FileEntry)
    ensures f in Matching(local, files, wanted) <==> f in files && RecordMatches(local, f) == wanted
    decreases |files|
  {
    if files != [] {
      MatchingAre(local, files[..|files| - 1], wanted, f);
      assert files == files[..|files| - 1] + [files[|files| - 1]];
    }
  }

  /** The parts of a plan keep the order of the manifest, or of the ledger. */
  lemma {:induction false} MatchingInOrder(local: seq<FileEntry>, a: seq<FileEntry>, b: seq<FileEntry>, wanted: bool)
    ensures Matching(local, a + b, wanted) == Matching(local, a, wanted) + Matching(local, b, wanted)
    decreases |b|
  {
    if b == [] {
      assert a + b == a;
    } else {
      var most, last := b[..|b| - 1], b[|b| - 1];
      assert (a + b)[..|a + b| - 1] == a + most;
      MatchingInOrder(local, a, most, wanted);
      Assoc(Matching(local, a, wanted), Matching(local, most, wanted),
        if RecordMatches(local, last) == wanted then [last] else []);
    }
  }

  lemma {:induction false} ObsoleteInOrder(remote: set<string>, a: seq<FileEntry>, b: seq<FileEntry>)
    ensures Obsolete(remote, a + b) == Obsolete(remote, a) + Obsolete(remote, b)
    decreases |b|
  {
    if b == [] {
      assert a + b == a;
    } else {
      var most, last := b[..|b| - 1], b[|b| - 1];
      assert (a + b)[..|a + b| - 1] == a + most;
      ObsoleteInOrder(remote, a, most);
      Assoc(Obsolete(remote, a), Obsolete(remote, most), if last.path in remote then [] else [last.path]);
    }
  }

  lemma {:induction false} MatchingParts(local: seq<FileEntry>, files: seq<FileEntry>)
    ensures multiset(Matching(local, files, true)) + multiset(Matching(local, files, false)) == multiset(files)
    decreases |files|
  {
    if files != [] {
      var most, last := files[..|files| - 1], files[|files| - 1];
      MatchingParts(local, most);
      assert files == most + [last];
      var yes, no := Matching(local, most, true), Matching(local, most, false);
      if RecordMatches(local, last) {
        assert Matching(local, files, true) == yes + [last] && Matching(local, files, false) == no + [];
      } else {
        assert Matching(local, files, true) == yes + [] && Matching(local, files, false) == no + [last];
      }
    }
  }

  lemma {:induction false} ObsoleteAre(remote: set<string>, local: seq<FileEntry>, path: string)
    ensures path in Obsolete(remote, local) <==> path !in remote && Recorded(local, path).Some?
    decreases |local|
  {
    if local != [] { ObsoleteAre(remote, local[..|local| - 1], path); }
  }

  /** Every remote file is either downloaded or kept, kept exactly when the ledger knows its content; what is
      removed is what only the ledger knows. */
  lemma PlanPartitions(component: string, remote: Component, local: Component)
    ensures var item := ItemFor(component, remote, local);
      && multiset(item.keep) + multiset(item.toDownload) == multiset(remote.files)
      && (forall f :: f in item.keep <==> f in remote.files && RecordMatches(local.files, f))
      && (forall f :: f in item.toDownload <==> f in remote.files && !RecordMatches(local.files, f))
      && (forall path :: path in item.toRemove <==> path !in Paths(remote.files) && Recorded(local.files, path).Some?)
  {
    hide Matching, Obsolete, RecordMatches, Recorded;
    MatchingParts(local.files, remote.files);
    forall f, wanted
      ensures f in Matching(local.files, remote.files, wanted) <==>
        f in remote.files && RecordMatches(local.files, f) == wanted
    {
      MatchingAre(local.files, remote.files, wanted, f);
    }
    forall path
      ensures path in Obsolete(Paths(remote.files), local.files) <==>
        path !in Paths(remote.files) && Recorded(local.files, path).Some?
    {
      ObsoleteAre(Paths(remote.files), local.files, path);
    }
  }

  /** What a list says of a path: hash and size, or nothing. */
  function Content(files: seq<FileEntry>, path: string): Option<(string, int)> {
    match Recorded(files, path)
    case None => None
    case Some(f) => Some((f.hash, f.size))
  }

  lemma {:induction false} RecordedIs(files: seq<FileEntry>, path: string)
    ensures Recorded(files, path).Some? <==> path in Paths(files)
    ensures Recorded(files, path).Some? ==>
      Recorded(files, path).value in files && Recorded(files, path).value.path == path
    decreases |files|
  {
    if files != [] {
      var most, last := files[..|files| - 1], files[|files| - 1];
      RecordedIs(most, path);
      assert files == most + [last];
      assert forall k :: 0 <= k < |most| ==> most[k] == files[k];
      assert Paths(files) == Paths(most) + {last.path};
    }
  }

  lemma {:induction false} RecordedUnique(files: seq<FileEntry>, k: nat)
    requires UniquePaths(files) && k < |files|
    ensures Recorded(files, files[k].path) == Some(files[k])
    decreases |files|
  {
    if k < |files| - 1 {
      assert files[..|files| - 1][k] == files[k];
      RecordedUnique(files[..|files| - 1], k);
    }
  }

  /** A component is left out of the plan exactly when version and contents agree, path by path. */
  lemma OmittedExactly(component: string, remote: Component, local: Component)
    requires UniquePaths(remote.files)
    ensures !NeedsAction(ItemFor(component, remote, local), local) <==>
      remote.version == local.version && forall path :: Content(remote.files, path) == Content(local.files, path)
  {
    var item := ItemFor(component, remote, local);
    PlanPartitions(component, remote, local);
    if !NeedsAction(item, local) {
      forall path ensures Content(remote.files, path) == Content(local.files, path) {
        RecordedIs(remote.files, path);
        assert path !in item.toRemove;
        if Recorded(remote.files, path).Some? {
          assert Recorded(remote.files, path).value !in item.toDownload;
        }
      }
    } else if remote.version == local.version {
      if item.toDownload != [] {
        var f := item.toDownload[0];
        assert f in item.toDownload && f in remote.files;
        var k :| 0 <= k < |remote.files| && remote.files[k] == f;
        RecordedUnique(remote.files, k);
        assert Content(remote.files, f.path) != Content(local.files, f.path);
      } else {
        var path := item.toRemove[0];
        assert path in item.toRemove;
        RecordedIs(remote.files, path);
        assert Content(remote.files, path) != Content(local.files, path);
      }
    }
  }

  /** A component the ledger does not know counts as version 0.0.0 without files. */
  lemma UnknownExactly(c: string, remote: Component, ledger: Manifest)
    requires UniquePaths(remote.files) && c !in ledger
    ensures !NeedsAction(ItemFor(c, remote, Local(ledger, c)), Local(ledger, c)) <==>
      remote.version == "0.0.0" && remote.files == []
  {
    OmittedExactly(c, remote, Local(ledger, c));
    if remote.files != [] {
      RecordedUnique(remote.files, 0);
      assert Content(remote.files, remote.files[0].path) != Content([], remote.files[0].path);
    }
  }

  // ---------- planning again ----------

  /** The ledger with the components `done` says were applied. */
  function Recording(manifest: Manifest, ledger: Manifest, done: set<string>): Manifest {
    map c | c in ledger.Keys + (done * manifest.Keys) :: if c in done && c in manifest then manifest[c] else ledger[c]
  }

  function Remaining(plan: seq<PlanItem>, done: set<string>): seq<PlanItem> {
    if plan == [] then []
    else Remaining(plan[..|plan| - 1], done) + if plan[|plan| - 1].component in done then [] else [plan[|plan| - 1]]
  }

  lemma RemainingAppend(plan: seq<PlanItem>, item: PlanItem, done: set<string>)
    ensures Remaining(plan + [item], done) == Remaining(plan, done) + if item.component in done then [] else [item]
  {
    assert (plan + [item])[..|plan|] == plan;
  }

  /** Convergence: once the components in `done` are recorded, planning the same manifest again asks for
      exactly the items that are left; when all of them are done, for nothing. */
  lemma {:induction false} ReplanLeavesTheRest(manifest: Manifest, ledger: Manifest, done: set<string>,
          components: seq<string>)
    requires forall c :: c in manifest ==> UniquePaths(manifest[c].files)
    ensures PlanOf(manifest, Recording(manifest, ledger, done), components) ==
      Remaining(PlanOf(manifest, ledger, components), done)
    decreases |components|
  {
    if components != [] {
      var most, c := components[..|components| - 1], components[|components| - 1];
      ReplanLeavesTheRest(manifest, ledger, done, most);
      var after := Recording(manifest, ledger, done);
      var before := PlanOf(manifest, ledger, most);
      assert before + [] == before && Remaining(before, done) + [] == Remaining(before, done);
      if c in manifest {
        RemainingAppend(before, ItemFor(c, manifest[c], Local(ledger, c)), done);
        if c in done {
          assert Local(after, c) == manifest[c];
          OmittedExactly(c, manifest[c], manifest[c]);
          assert !NeedsAction(ItemFor(c, manifest[c], Local(after, c)), Local(after, c));
        } else {
          assert Local(after, c) == Local(ledger, c);
        }
      }
    }
  }
}

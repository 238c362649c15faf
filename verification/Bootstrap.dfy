/** One start of the bootstrapper, from a valid manifest on: plan, apply, record in the ledger, verify
    (bootstrapper/electron/bootstrap.js). */
module Bootstrap {
  import opened Wrappers
  import opened UpdatePlan
  import opened StagedDownload
  import opened Updater
  import opened UpdateTheorems

  /** How a start ends, as far as the update goes: Threw when a file could not be given its name. */
  datatype Outcome =
    | UpToDate
    | Updated
    | UpdateFailed(failure: Failure)
    | Threw(file: string)
    | VerificationFailed(missing: seq<string>, corrupt: seq<string>)

  datatype Areas = Areas(runtime: Area, resources: Area)

  function Of(areas: Areas, component: string): Area {
    if component == "runtime" then areas.runtime else areas.resources
  }

  /** The plan is one of COMPONENTS, each at most once, and each item can be applied. */
  ghost predicate Shaped(plan: seq<PlanItem>, areas: Areas) {
    && (forall k :: 0 <= k < |plan| ==> plan[k].component in COMPONENTS)
    && (forall i, j :: 0 <= i < j < |plan| ==> plan[i].component != plan[j].component)
    && (forall k :: 0 <= k < |plan| ==> UniquePaths(Needed(Of(areas, plan[k].component).target, plan[k])))
  }

  /** The last component was interrupted, which ended everything. */
  predicate Broken(results: seq<ItemResult>) { results != [] && results[|results| - 1].Interrupted? }

  /** The first components of the plan one after the other, each from its own files: what became of one changes
      nothing for another. */
  ghost predicate AppliedFirst(env: Env, plan: seq<PlanItem>, before: Areas, after: Areas, results: seq<ItemResult>) {
    && |results| <= |plan|
    && (forall k :: 0 <= k < |results| ==> IsApplied(env, plan[k], before, after, results[k]))
    && (forall k :: 0 <= k < |results| - 1 ==> !results[k].Interrupted?)
    && (forall c :: c in COMPONENTS && Untried(plan, |results|, c) ==> Of(after, c) == Of(before, c))
  }

  /** All of them, except that a rename that throws ends the whole. */
  ghost predicate Applied(env: Env, plan: seq<PlanItem>, before: Areas, after: Areas, results: seq<ItemResult>) {
    AppliedFirst(env, plan, before, after, results) && (|results| == |plan| || Broken(results))
  }

  predicate IsApplied(env: Env, item: PlanItem, before: Areas, after: Areas, result: ItemResult) {
    (Of(after, item.component), result) == AppliedItem(env, Of(before, item.component), item)
  }

  predicate Untried(plan: seq<PlanItem>, n: nat, component: string)
    requires n <= |plan|
  {
    forall k :: 0 <= k < n ==> plan[k].component != component
  }

  function OkOf(results: seq<ItemResult>): set<string> {
    set k | 0 <= k < |results| && results[k].Ok? :: results[k].component
  }

  ghost predicate RuntimeFailed(results: seq<ItemResult>) {
    exists k :: 0 <= k < |results| && results[k].Failed? && results[k].component == "runtime"
  }

  /** The results say of each planned component what the manifest says. */
  ghost predicate FromManifest(manifest: Manifest, results: seq<ItemResult>) {
    forall k :: 0 <= k < |results| && results[k].Ok? ==> SaysManifest(manifest, results[k])
  }

  predicate SaysManifest(manifest: Manifest, r: ItemResult)
    requires r.Ok?
  {
    r.component in manifest && manifest[r.component] == Component(r.targetVersion, r.files)
  }

  /** The ledger is not written: a rename threw, or a first install failed on the runtime. */
  ghost predicate Unwritten(results: seq<ItemResult>, firstInstall: bool) {
    Broken(results) || (firstInstall && RuntimeFailed(results))
  }

  /** The ledger after an update: what succeeded is recorded, or nothing is. */
  ghost function LedgerAfter(manifest: Manifest, ledger: Manifest, results: seq<ItemResult>,
          firstInstall: bool): Manifest {
    if Unwritten(results, firstInstall) then ledger else Recording(manifest, ledger, OkOf(results))
  }

  /** What the outcome of a start says about the installed runtime and about the update. */
  ghost predicate Tells(outcome: Outcome, manifest: Manifest, results: seq<ItemResult>, firstInstall: bool,
          runtime: Files, digest: Octets.Digest) {
    && (outcome.Threw? <==> Broken(results))
    && (outcome.Threw? ==> outcome.file == results[|results| - 1].file)
    && (outcome.UpdateFailed? <==> !Broken(results) && firstInstall && RuntimeFailed(results))
    && (outcome.UpdateFailed? ==> Failed("runtime", outcome.failure) in results)
    && (outcome.VerificationFailed? ==>
      firstInstall && "runtime" in OkOf(results) && !RuntimeInPlace(manifest, runtime, digest))
    && (outcome.Updated? && firstInstall && "runtime" in OkOf(results) ==> RuntimeInPlace(manifest, runtime, digest))
  }

  ghost predicate RuntimeInPlace(manifest: Manifest, runtime: Files, digest: Octets.Digest) {
    "runtime" in manifest && AllInPlace(runtime, manifest["runtime"].files, digest)
  }

  class Bootstrapper {
    const runtime: ComponentArea
    const resources: ComponentArea
    /** version.json. */
    var ledger: Manifest

    ghost predicate Valid() reads this {
      runtime != resources && runtime.component == "runtime" && resources.component == "resources"
    }

    constructor (runtime: ComponentArea, resources: ComponentArea, ledger: Manifest)
      requires runtime != resources && runtime.component == "runtime" && resources.component == "resources"
      ensures Valid() && this.runtime == runtime && this.resources == resources && this.ledger == ledger
    {
      this.runtime, this.resources, this.ledger := runtime, resources, ledger;
    }

    ghost function State(): Areas reads this, runtime, resources { Areas(runtime.State(), resources.State()) }

    method ApplyUpdate(env: Env, plan: seq<PlanItem>) returns (results: seq<ItemResult>)
      requires Valid() && Shaped(plan, State())
      modifies runtime, resources
      ensures Applied(env, plan, old(State()), State(), results)
    {
      results := [];
      for i := 0 to |plan|
        invariant |results| == i && !Broken(results)
        invariant AppliedFirst(env, plan, old(State()), State(), results)
      {
        var item := plan[i];
        ghost var before := State();
        StillUntried(plan, i, old(State()));
        var result;
        if item.component == "runtime" {
          result := runtime.ApplyItem(env, item);
        } else {
          result := resources.ApplyItem(env, item);
        }
        AppliedNext(env, plan, old(State()), before, State(), results, result);
        results := results + [result];
        if result.Interrupted? { return; }
      }
    }

    /** The ledger in memory takes in what was applied; a first install that failed on the runtime stops before
        the ledger is written. */
    method RecordResults(manifest: Manifest, results: seq<ItemResult>, firstInstall: bool)
      returns (failure: Option<Failure>)
      requires FromManifest(manifest, results) && forall k :: 0 <= k < |results| ==> !results[k].Interrupted?
      modifies this`ledger
      ensures failure.Some? <==> firstInstall && RuntimeFailed(results)
      ensures failure.Some? ==> Failed("runtime", failure.value) in results
      ensures ledger == LedgerAfter(manifest, old(ledger), results, firstInstall)
    {
      var local := ledger;
      assert OkOf(results[..0]) == {} && Recording(manifest, ledger, {}) == ledger;
      for i := 0 to |results|
        invariant local == Recording(manifest, ledger, OkOf(results[..i])) && ledger == old(ledger)
        invariant firstInstall ==> forall k :: 0 <= k < i ==> results[k].Failed? ==> results[k].component != "runtime"
      {
        var result := results[i];
        OkOfNext(results, i);
        if result.Ok? {
          assert SaysManifest(manifest, result);
          RecordingNext(manifest, ledger, OkOf(results[..i]), result.component);
          local := local[result.component := Component(result.targetVersion, result.files)];
        } else if firstInstall && result.component == "runtime" {
          return Some(result.failure);
        }
      }
      assert results[..|results|] == results;
      ledger := local;
      failure := None;
    }

    /** The plan, its execution, the ledger, and the final gate on a runtime that was just installed. */
    method RunUpdate(env: Env, manifest: Manifest, firstInstall: bool)
      returns (outcome: Outcome, results: seq<ItemResult>)
      requires Valid() && forall c :: c in manifest ==> UniquePaths(manifest[c].files)
      modifies this`ledger, runtime, resources
      ensures Applied(env, PlanOf(manifest, old(ledger), COMPONENTS), old(State()), State(), results)
      ensures ledger == LedgerAfter(manifest, old(ledger), results, firstInstall)
      ensures outcome.UpToDate? <==> PlanOf(manifest, old(ledger), COMPONENTS) == []
      ensures Tells(outcome, manifest, results, firstInstall, runtime.target, env.digest)
    {
      var plan := PlanUpdate(manifest, ledger);
      if plan == [] {
        NothingRecorded(manifest, ledger);
        return UpToDate, [];
      }
      PlanIsShaped(manifest, ledger, State());
      results := ApplyUpdate(env, plan);
      if results[|results| - 1].Interrupted? { return Threw(results[|results| - 1].file), results; }
      ResultsFromManifest(env, manifest, ledger, old(State()), State(), results);
      var failure := RecordResults(manifest, results, firstInstall);
      if failure.Some? { return UpdateFailed(failure.value), results; }
      outcome := CheckRuntime(env.digest, manifest, results, firstInstall);
    }

    method CheckRuntime(digest: Octets.Digest, manifest: Manifest, results: seq<ItemResult>, firstInstall: bool)
      returns (outcome: Outcome)
      requires FromManifest(manifest, results)
      ensures outcome.Updated? || outcome.VerificationFailed?
      ensures outcome.VerificationFailed? <==>
        firstInstall && "runtime" in OkOf(results) && !RuntimeInPlace(manifest, runtime.target, digest)
    {
      for i := 0 to |results|
        invariant forall k :: 0 <= k < i ==> !(results[k].Ok? && results[k].component == "runtime")
      {
        if results[i].Ok? && results[i].component == "runtime" {
          assert SaysManifest(manifest, results[i]);
          var missing, corrupt := runtime.VerifyComponentFiles(digest, results[i].files);
          if (missing != [] || corrupt != []) && firstInstall { return VerificationFailed(missing, corrupt); }
          return Updated;
        }
      }
      outcome := Updated;
    }
  }

  // ---------- plans and ledgers ----------

  lemma {:induction false} PlanItemsAre(manifest: Manifest, ledger: Manifest, components: seq<string>)
    requires forall i, j :: 0 <= i < j < |components| ==> components[i] != components[j]
    ensures AreItems(manifest, ledger, components, PlanOf(manifest, ledger, components))
    decreases |components|
  {
    if components != [] {
      var most, c := components[..|components| - 1], components[|components| - 1];
      PlanItemsAre(manifest, ledger, most);
      var before, plan := PlanOf(manifest, ledger, most), PlanOf(manifest, ledger, components);
      assert components == most + [c] && c !in most;
      forall k | 0 <= k < |plan| ensures IsItem(manifest, ledger, components, plan[k]) {
        if k < |before| { assert plan[k] == before[k] && IsItem(manifest, ledger, most, before[k]); }
      }
      forall i, j | 0 <= i < j < |plan| ensures plan[i].component != plan[j].component {
        assert plan[i] == before[i] && IsItem(manifest, ledger, most, before[i]);
        if j < |before| { assert plan[j] == before[j]; }
      }
    }
  }

  /** One item at most for each component, and each as the planner makes it. */
  ghost predicate AreItems(manifest: Manifest, ledger: Manifest, components: seq<string>, plan: seq<PlanItem>) {
    && (forall k :: 0 <= k < |plan| ==> IsItem(manifest, ledger, components, plan[k]))
    && (forall i, j :: 0 <= i < j < |plan| ==> plan[i].component != plan[j].component)
  }

  predicate IsItem(manifest: Manifest, ledger: Manifest, components: seq<string>, item: PlanItem) {
    && item.component in components && item.component in manifest
    && item == ItemFor(item.component, manifest[item.component], Local(ledger, item.component))
  }

  lemma PlanIsShaped(manifest: Manifest, ledger: Manifest, areas: Areas)
    requires forall c :: c in manifest ==> UniquePaths(manifest[c].files)
    ensures Shaped(PlanOf(manifest, ledger, COMPONENTS), areas)
  {
    PlanItemsAre(manifest, ledger, COMPONENTS);
    var plan := PlanOf(manifest, ledger, COMPONENTS);
    forall k | 0 <= k < |plan|
      ensures plan[k].component in COMPONENTS
      ensures UniquePaths(Needed(Of(areas, plan[k].component).target, plan[k]))
    {
      assert IsItem(manifest, ledger, COMPONENTS, plan[k]);
      var c := plan[k].component;
      NeededUnique(c, manifest[c], Local(ledger, c), Of(areas, c).target);
    }
  }

  lemma StillUntried(plan: seq<PlanItem>, i: nat, areas: Areas)
    requires i < |plan| && Shaped(plan, areas)
    ensures plan[i].component in COMPONENTS && Untried(plan, i, plan[i].component)
  {
  }

  /** Only the component's own area matters, before and after. */
  lemma OwnAreaOnly(env: Env, item: PlanItem, before: Areas, after: Areas, before': Areas, after': Areas,
          result: ItemResult)
    requires IsApplied(env, item, before, after, result)
    requires Of(before', item.component) == Of(before, item.component)
    requires Of(after', item.component) == Of(after, item.component)
    ensures IsApplied(env, item, before', after', result)
  {
  }

  lemma EarlierStay(env: Env, plan: seq<PlanItem>, start: Areas, before: Areas, after: Areas, results: seq<ItemResult>,
          k: nat)
    requires k < |results| < |plan| && AppliedFirst(env, plan, start, before, results) && Shaped(plan, start)
    requires forall c :: c in COMPONENTS && c != plan[|results|].component ==> Of(after, c) == Of(before, c)
    ensures IsApplied(env, plan[k], start, after, results[k])
  {
    assert plan[k].component != plan[|results|].component;
    OwnAreaOnly(env, plan[k], start, before, start, after, results[k]);
  }

  /** One more component. */
  lemma AppliedNext(env: Env, plan: seq<PlanItem>, start: Areas, before: Areas, after: Areas,
                    results: seq<ItemResult>, result: ItemResult)
    requires |results| < |plan| && AppliedFirst(env, plan, start, before, results) && !Broken(results)
    requires Shaped(plan, start) && IsApplied(env, plan[|results|], before, after, result)
    requires forall c :: c in COMPONENTS && c != plan[|results|].component ==> Of(after, c) == Of(before, c)
    ensures AppliedFirst(env, plan, start, after, results + [result])
  {
    hide AppliedItem, Needed;
    var i, all := |results|, results + [result];
    StillUntried(plan, i, start);
    OwnAreaOnly(env, plan[i], before, after, start, after, result);
    forall k | 0 <= k <= i ensures IsApplied(env, plan[k], start, after, all[k]) {
      if k < i { EarlierStay(env, plan, start, before, after, results, k); }
    }
    forall c | c in COMPONENTS && Untried(plan, i + 1, c) ensures Of(after, c) == Of(start, c) {
      assert c != plan[i].component && Untried(plan, i, c);
    }
  }

  lemma ResultsFromManifest(env: Env, manifest: Manifest, ledger: Manifest, before: Areas, after: Areas,
          results: seq<ItemResult>)
    requires Applied(env, PlanOf(manifest, ledger, COMPONENTS), before, after, results)
    ensures FromManifest(manifest, results)
    ensures forall k :: 0 <= k < |results| ==> results[k].component == PlanOf(manifest, ledger, COMPONENTS)[k].component
  {
    var plan := PlanOf(manifest, ledger, COMPONENTS);
    PlanItemsAre(manifest, ledger, COMPONENTS);
    forall k | 0 <= k < |results|
      ensures results[k].component == plan[k].component
      ensures results[k].Ok? ==> SaysManifest(manifest, results[k])
    {
      assert IsItem(manifest, ledger, COMPONENTS, plan[k]) && IsApplied(env, plan[k], before, after, results[k]);
    }
  }

  lemma NothingRecorded(manifest: Manifest, ledger: Manifest)
    ensures OkOf([]) == {} && Recording(manifest, ledger, {}) == ledger
  {
  }

  lemma OkOfNext(results: seq<ItemResult>, i: nat)
    requires i < |results|
    ensures OkOf(results[..i + 1]) == OkOf(results[..i]) + if results[i].Ok? then {results[i].component} else {}
  {
    var now, next := results[..i], results[..i + 1];
    assert forall k :: 0 <= k < i ==> now[k] == next[k];
    assert next[i] == results[i];
    forall c ensures c in OkOf(next) <==> c in OkOf(now) || (results[i].Ok? && c == results[i].component) {
      if c in OkOf(next) { var k :| 0 <= k < |next| && next[k].Ok? && next[k].component == c; }
      if c in OkOf(now) { var k :| 0 <= k < |now| && now[k].Ok? && now[k].component == c; assert next[k] == now[k]; }
    }
  }

  lemma RecordingNext(manifest: Manifest, ledger: Manifest, done: set<string>, c: string)
    requires c in manifest
    ensures Recording(manifest, ledger, done + {c}) == Recording(manifest, ledger, done)[c := manifest[c]]
  {
  }

  // ---------- the next start ----------

  predicate NoneIn(plan: seq<PlanItem>, done: set<string>) {
    forall k :: 0 <= k < |plan| ==> plan[k].component !in done
  }

  predicate AllIn(plan: seq<PlanItem>, done: set<string>) {
    forall k :: 0 <= k < |plan| ==> plan[k].component in done
  }

  lemma LastIn(plan: seq<PlanItem>, done: set<string>)
    requires plan != []
    ensures var most, last := plan[..|plan| - 1], plan[|plan| - 1];
      && (NoneIn(plan, done) <==> NoneIn(most, done) && last.component !in done)
      && (AllIn(plan, done) <==> AllIn(most, done) && last.component in done)
  {
    var most := plan[..|plan| - 1];
    assert forall k :: 0 <= k < |most| ==> plan[k] == most[k];
  }

  lemma {:induction false} RemainingLess(plan: seq<PlanItem>, done: set<string>)
    ensures |Remaining(plan, done)| <= |plan|
    ensures |Remaining(plan, done)| == |plan| <==> NoneIn(plan, done)
    ensures NoneIn(plan, done) ==> Remaining(plan, done) == plan
    ensures Remaining(plan, done) == [] <==> AllIn(plan, done)
    decreases |plan|
  {
    hide NoneIn, AllIn;
    if plan == [] {
      NothingIn(done);
    } else {
      LastIn(plan, done);
      RemainingLess(plan[..|plan| - 1], done);
      assert plan == plan[..|plan| - 1] + [plan[|plan| - 1]];
    }
  }

  lemma NothingIn(done: set<string>)
    ensures NoneIn([], done) && AllIn([], done)
  {
  }

  /** What the next start plans for the same manifest is exactly what is left, if and only if the ledger was
      written or there was nothing to record; otherwise it plans everything again. */
  lemma NextPlan(manifest: Manifest, ledger: Manifest, results: seq<ItemResult>, firstInstall: bool)
    requires forall c :: c in manifest ==> UniquePaths(manifest[c].files)
    ensures var plan := PlanOf(manifest, ledger, COMPONENTS);
      var next := PlanOf(manifest, LedgerAfter(manifest, ledger, results, firstInstall), COMPONENTS);
      && (next == Remaining(plan, OkOf(results)) <==>
          (!Unwritten(results, firstInstall) || NoneIn(plan, OkOf(results))))
      && (next == [] <==>
          (plan == [] ||
           (!Unwritten(results, firstInstall) && AllIn(plan, OkOf(results)))))
  {
    ReplanLeavesTheRest(manifest, ledger, OkOf(results), COMPONENTS);
    RemainingLess(PlanOf(manifest, ledger, COMPONENTS), OkOf(results));
  }

  /** A component that was recorded is not in the next plan, whatever its files look like. */
  lemma RecordedIsOmitted(manifest: Manifest, ledger: Manifest, results: seq<ItemResult>, firstInstall: bool, c: string)
    requires forall d :: d in manifest ==> UniquePaths(manifest[d].files)
    requires c in OkOf(results) && c in manifest && !Unwritten(results, firstInstall)
    ensures var next := PlanOf(manifest, LedgerAfter(manifest, ledger, results, firstInstall), COMPONENTS);
      Untried(next, |next|, c)
  {
    var after := LedgerAfter(manifest, ledger, results, firstInstall);
    PlanItemsNeed(manifest, after, COMPONENTS);
    var next := PlanOf(manifest, after, COMPONENTS);
    OmittedExactly(c, manifest[c], manifest[c]);
    forall k | 0 <= k < |next| ensures next[k].component != c {
      assert Wanted(manifest, after, next[k]);
    }
  }

  predicate Wanted(manifest: Manifest, ledger: Manifest, item: PlanItem) {
    && item.component in manifest && NeedsAction(item, Local(ledger, item.component))
    && item == ItemFor(item.component, manifest[item.component], Local(ledger, item.component))
  }

  lemma {:induction false} PlanItemsNeed(manifest: Manifest, ledger: Manifest, components: seq<string>)
    ensures AllWanted(manifest, ledger, PlanOf(manifest, ledger, components))
    decreases |components|
  {
    if components != [] {
      var most := components[..|components| - 1];
      PlanItemsNeed(manifest, ledger, most);
      var before, plan := PlanOf(manifest, ledger, most), PlanOf(manifest, ledger, components);
      forall k | 0 <= k < |plan| ensures Wanted(manifest, ledger, plan[k]) {
        if k < |before| { assert plan[k] == before[k] && Wanted(manifest, ledger, before[k]); }
      }
    }
  }

  ghost predicate AllWanted(manifest: Manifest, ledger: Manifest, plan: seq<PlanItem>) {
    forall k :: 0 <= k < |plan| ==> Wanted(manifest, ledger, plan[k])
  }

  // ---------- a first install that forgets ----------

  function One(path: string): FileEntry { Sized(path, "h") }

  function Released(): Manifest {
    map["runtime" := Component("1", [One("app")]), "resources" := Component("1", [One("map")])]
  }

  function NothingYet(): Manifest { map["runtime" := NOTHING_INSTALLED, "resources" := NOTHING_INSTALLED] }

  /** The server of the resources works, that of the runtime does not. */
  function HalfOnline(): Env {
    Env(_ => true, _ => "h", _ => false, 2,
      (component, path) => if component == "resources" then Serves() else Offline(),
      (component, path) => true)
  }

  function Serves(): Replies { (attempt, hops, offset) => Response(200, false, [[1]], None) }

  function Offline(): Replies { (attempt, hops, offset) => Refused("offline") }

  function Empty(): Area { Area(map[], map[]) }

  /** A component of one new file, on an empty disk. */
  lemma OneFileItem(c: string, path: string)
    ensures var item := ItemFor(c, Component("1", [One(path)]), NOTHING_INSTALLED);
      && Needed(map[], item) == [One(path)] && item.keep == []
      && NeedsAction(item, NOTHING_INSTALLED) && item.component == c
  {
    var files := [One(path)];
    assert files[..0] == [];
    assert Matching([], files, false) == files && Matching([], files, true) == [];
    assert files + [] == files;
  }

  lemma ItemNeeds(c: string)
    requires c in COMPONENTS
    ensures c in Released() && Released()[c].files == [One(if c == "runtime" then "app" else "map")]
    ensures var item := ItemFor(c, Released()[c], NOTHING_INSTALLED);
      && Needed(map[], item) == Released()[c].files && item.keep == []
      && NeedsAction(item, NOTHING_INSTALLED) && item.component == c
  {
    OneFileItem(c, if c == "runtime" then "app" else "map");
    assert c == "runtime" || c == "resources";
    assert Released()[c] == Component("1", [One(if c == "runtime" then "app" else "map")]);
  }

  lemma FirstPlan()
    ensures PlanOf(Released(), NothingYet(), COMPONENTS) == [
      ItemFor("runtime", Released()["runtime"], NOTHING_INSTALLED),
      ItemFor("resources", Released()["resources"], NOTHING_INSTALLED)]
  {
    ItemNeeds("runtime");
    ItemNeeds("resources");
    assert COMPONENTS[..1] == ["runtime"] && ["runtime"][..0] == [];
    assert PlanOf(Released(), NothingYet(), ["runtime"]) ==
      [ItemFor("runtime", Released()["runtime"], NOTHING_INSTALLED)];
  }

  lemma RuntimeIsOffline()
    ensures AppliedItem(HalfOnline(), Empty(), ItemFor("runtime", Released()["runtime"], NOTHING_INSTALLED)) ==
      (Empty(), Failed("runtime", Failure("app", Some(Transport("offline")))))
  {
    ItemNeeds("runtime");
    var env, f := HalfOnline(), One("app");
    assert Requested(None, Offline(), 0, MAX_REDIRECTS, 0) == (None, Some(Transport("offline")));
    assert Retried(None, f, Offline(), env.digest, env.transient, 0, 2, None) ==
      (None, false, Some(Transport("offline")));
    assert Put(map[], "app", None) == map[];
    assert StagedOne(env, "runtime", map[], f) == (map[], Some(Failure("app", Some(Transport("offline")))));
    assert [f][..0] == [];
    assert StagedAll(env, "runtime", map[], [f]) == StagedOne(env, "runtime", map[], f);
  }

  lemma ResourcesAreServed()
    ensures var (after, result) :=
        AppliedItem(HalfOnline(), Empty(), ItemFor("resources", Released()["resources"], NOTHING_INSTALLED));
      result.Ok? && AllInPlace(after.target, Released()["resources"].files, HalfOnline().digest)
  {
    ItemNeeds("resources");
    var env, remote := HalfOnline(), Released()["resources"];
    var payload: seq<bv8> := [1];
    assert Octets.Joined([payload]) == payload by { assert [payload][..0] == []; assert [] + payload == payload; }
    assert AnswersInFull(payload, Serves()) by {
      forall attempt: nat ensures Answers(payload, Serves(), attempt, MAX_REDIRECTS, 0) {
        assert Serves()(attempt, MAX_REDIRECTS, 0) == Response(200, false, [payload], None) && payload[0..] == payload;
      }
    }
    assert env.server("resources", "map") == Serves() && env.digest(payload) == "h";
    assert Describes(One("map"), env.digest, payload);
    assert Obtainable(env, "resources", One("map"));
    ManifestApplies(env, Empty(), "resources", remote, NOTHING_INSTALLED);
    VerifiesExactly(env, Empty(), "resources", remote, NOTHING_INSTALLED);
  }

  /** The resources are installed and in place, the runtime fails, and since that ends a first install before the
      ledger is written (bootstrapper/electron/bootstrap.js:79-80) the next start plans both again. */
  lemma FirstInstallForgets() returns (after: Areas, results: seq<ItemResult>)
    ensures var plan := PlanOf(Released(), NothingYet(), COMPONENTS);
      && Applied(HalfOnline(), plan, Areas(Empty(), Empty()), after, results) && |plan| == 2
      && RuntimeFailed(results) && "resources" in OkOf(results)
      && AllInPlace(after.resources.target, Released()["resources"].files, HalfOnline().digest)
      && PlanOf(Released(), LedgerAfter(Released(), NothingYet(), results, true), COMPONENTS) == plan
  {
    FirstPlan();
    RuntimeIsOffline();
    ResourcesAreServed();
    var plan := PlanOf(Released(), NothingYet(), COMPONENTS);
    var first, second := AppliedItem(HalfOnline(), Empty(), plan[0]), AppliedItem(HalfOnline(), Empty(), plan[1]);
    after, results := Areas(first.0, second.0), [first.1, second.1];
    ItemNeeds("runtime");
    ItemNeeds("resources");
    BothApplied(HalfOnline(), plan, Areas(Empty(), Empty()), after, first.1, second.1);
  }

  lemma BothApplied(env: Env, plan: seq<PlanItem>, before: Areas, after: Areas, first: ItemResult, second: ItemResult)
    requires |plan| == 2 && plan[0].component == "runtime" && plan[1].component == "resources"
    requires IsApplied(env, plan[0], before, after, first) && IsApplied(env, plan[1], before, after, second)
    requires first.Failed? && second.Ok?
    ensures Applied(env, plan, before, after, [first, second])
    ensures RuntimeFailed([first, second]) && "resources" in OkOf([first, second])
  {
    var results := [first, second];
    assert results[0].Failed? && results[0].component == "runtime";
    assert results[1].Ok? && results[1].component == "resources";
    assert !Untried(plan, 2, "runtime") && !Untried(plan, 2, "resources");
  }

  /** Two starts: the ledger is written before the gate, so a first install that fails verification has recorded
      its runtime, the second start leaves it out, and the broken file stays as it is. */
  method StartTwice(b: Bootstrapper, env: Env, manifest: Manifest, firstInstall: bool, env': Env, firstInstall': bool)
    returns (first: Outcome, second: Outcome)
    requires b.Valid() && forall c :: c in manifest ==> UniquePaths(manifest[c].files)
    modifies b`ledger, b.runtime, b.resources
    ensures first.VerificationFailed? ==>
      !RuntimeInPlace(manifest, b.runtime.target, env.digest) && !second.VerificationFailed?
  {
    var results, results';
    ghost var ledger := b.ledger;
    ghost var start := b.State();
    first, results := b.RunUpdate(env, manifest, firstInstall);
    ghost var between := b.State();
    ghost var recorded := b.ledger;
    second, results' := b.RunUpdate(env', manifest, firstInstall');
    if first.VerificationFailed? {
      ResultsFromManifest(env, manifest, ledger, start, between, results);
      var k :| 0 <= k < |results| && results[k].Ok? && results[k].component == "runtime";
      assert SaysManifest(manifest, results[k]);
      RecordedIsOmitted(manifest, ledger, results, firstInstall, "runtime");
      ResultsFromManifest(env', manifest, recorded, between, b.State(), results');
      assert Untried(PlanOf(manifest, recorded, COMPONENTS), |results'|, "runtime");
      assert Of(b.State(), "runtime") == Of(between, "runtime");
    }
  }

  // ---------- a first start that is rejected ----------

  function Runtime(version: string): Component {
    Component(version, [Sized("app", "new"), Sized("lib", "new")])
  }

  function WithRuntime(version: string): Manifest {
    map["runtime" := Runtime(version), "resources" := NOTHING_INSTALLED]
  }

  /** The executable is gone, which makes it a first install (bootstrapper/electron/installState.js:8-13), and is
      staged again; the library has its recorded size and other contents. */
  function Damaged(): Area { Area(map["lib" := [0]], map["app" := [1]]) }

  function Staged(): Env { InUse().(renames := (component, path) => true) }

  lemma {:induction false} AllMatch(local: seq<FileEntry>, files: seq<FileEntry>)
    requires forall k :: 0 <= k < |files| ==> RecordMatches(local, files[k])
    ensures Matching(local, files, true) == files && Matching(local, files, false) == []
    decreases |files|
  {
    if files != [] {
      var most := files[..|files| - 1];
      assert forall k :: 0 <= k < |most| ==> most[k] == files[k];
      AllMatch(local, most);
      assert files == most + [files[|files| - 1]];
    }
  }

  /** A new version of the very same files: all of them are kept. */
  lemma SameFilesItem(c: string, files: seq<FileEntry>, next: string, version: string)
    requires UniquePaths(files)
    ensures var item := ItemFor(c, Component(next, files), Component(version, files));
      item.component == c && item.toDownload == [] && item.keep == files
  {
    forall k | 0 <= k < |files| ensures RecordMatches(files, files[k]) { RecordedUnique(files, k); }
    AllMatch(files, files);
  }

  lemma DamagedItem()
    ensures var item := ItemFor("runtime", Runtime("2"), Runtime("1"));
      && item.component == "runtime" && item.toDownload == [] && item.keep == Runtime("2").files
      && Needed(Damaged().target, item) == [Sized("app", "new")]
  {
    hide Matching, Obsolete, OnDisk;
    SameFilesItem("runtime", Runtime("2").files, "2", "1");
    OneMissing(Damaged().target, Sized("app", "new"), Sized("lib", "new"));
    assert [] + [Sized("app", "new")] == [Sized("app", "new")];
  }

  lemma OneMissing(target: Files, a: FileEntry, b: FileEntry)
    requires a.path !in target && b.path in target && |target[b.path]| == b.size
    ensures OnDisk(target, [a, b], false) == [a]
  {
    assert [a, b][..1] == [a] && [a][..0] == [];
    assert OnDisk(target, [a], false) == [a];
  }

  /** The executable lands, and the library is left as it is. */
  lemma DamagedStays()
    ensures var (after, result) := AppliedItem(Staged(), Damaged(), ItemFor("runtime", Runtime("2"), Runtime("1")));
      result.Ok? && !AllInPlace(after.target, Runtime("2").files, Staged().digest)
  {
    DamagedItem();
    var env, area, exe := Staged(), Damaged(), Sized("app", "new");
    assert [exe][..0] == [];
    assert StagedAll(env, "runtime", area.staged, [exe]) == (area.staged, None);
    assert Moved(env, "runtime", area, [exe]).1 == None;
    var lib := Runtime("2").files[1];
    assert lib in Runtime("2").files && !TrueIfThere(area.target, lib, env.digest);
    VerifiesExactly(env, area, "runtime", Runtime("2"), Runtime("1"));
  }

  lemma DamagedPlan()
    ensures PlanOf(WithRuntime("2"), WithRuntime("1"), COMPONENTS) ==
      [ItemFor("runtime", Runtime("2"), Runtime("1"))]
  {
    assert COMPONENTS[..1] == ["runtime"] && ["runtime"][..0] == [];
    assert WithRuntime("2")["runtime"] == Runtime("2") && Local(WithRuntime("1"), "runtime") == Runtime("1");
    assert !NeedsAction(ItemFor("resources", NOTHING_INSTALLED, NOTHING_INSTALLED), NOTHING_INSTALLED);
    assert PlanOf(WithRuntime("2"), WithRuntime("1"), ["runtime"]) ==
      [ItemFor("runtime", Runtime("2"), Runtime("1"))];
  }

  /** So the first of such two starts does end in a failed verification. */
  method RejectedStart() returns (b: Bootstrapper, outcome: Outcome)
    ensures fresh(b) && outcome.VerificationFailed? && b.ledger == WithRuntime("2")
      && !RuntimeInPlace(WithRuntime("2"), b.runtime.target, Staged().digest)
  {
    hide AppliedItem, ItemFor, PlanOf, AllInPlace, Applied, LedgerAfter;
    var runtime := new ComponentArea("runtime", Damaged().target, Damaged().staged);
    var resources := new ComponentArea("resources", map[], map[]);
    b := new Bootstrapper(runtime, resources, WithRuntime("1"));
    DamagedPlan();
    DamagedStays();
    ghost var before := b.State();
    var results;
    outcome, results := b.RunUpdate(Staged(), WithRuntime("2"), true);
    DamagedResults(before, b.State(), results);
  }

  lemma DamagedResults(before: Areas, after: Areas, results: seq<ItemResult>)
    requires before.runtime == Damaged()
    requires Applied(Staged(), PlanOf(WithRuntime("2"), WithRuntime("1"), COMPONENTS), before, after, results)
    ensures !Broken(results) && !RuntimeFailed(results) && "runtime" in OkOf(results)
    ensures !RuntimeInPlace(WithRuntime("2"), after.runtime.target, Staged().digest)
    ensures LedgerAfter(WithRuntime("2"), WithRuntime("1"), results, true) == WithRuntime("2")
  {
    var item := ItemFor("runtime", Runtime("2"), Runtime("1"));
    hide AppliedItem, ItemFor, PlanOf, AllInPlace;
    DamagedItem();
    DamagedPlan();
    DamagedStays();
    assert IsApplied(Staged(), [item][0], before, after, results[0]);
    assert results == [results[0]] && results[0].Ok?;
    ResultsFromManifest(Staged(), WithRuntime("2"), WithRuntime("1"), before, after, results);
    assert SaysManifest(WithRuntime("2"), results[0]) && results[0].component == "runtime";
    assert OkOf(results) == {"runtime"};
  }
}

/** The registry in its own form: records changed in place, a while-changed cascade, a queue and counters
    (runtime/src/ResourceRegistry.cpp). */
module ResourceRegistry {
  import opened Wrappers
  import opened Graph
  import opened ResourceState
  import opened Loading
  import opened Kahn
  import opened Cascade

  predicate BrokenReason(t: Table, d: string, error: string) {
    Broken(t, d) && error == if d !in t then "missing dependency: " + d else "dependency failed: " + d
  }

  ghost predicate FirstBrokenAt(t: Table, deps: seq<string>, k: nat) {
    k < |deps| && Broken(t, deps[k]) && forall j :: 0 <= j < k ==> !Broken(t, deps[j])
  }

  /** error is what the first broken dependency in the list gives as the reason. */
  ghost predicate FirstReason(t: Table, deps: seq<string>, error: string) {
    exists k: nat :: FirstBrokenAt(t, deps, k) && BrokenReason(t, deps[k], error)
  }

  /** `after` lists id under every Cached entry of deps once more for each time it occurs there. */
  ghost predicate Grown(t: Table, deps: seq<string>, id: string, before: Lists, after: Lists) {
    forall d, x :: multiset(At(after, d))[x] == multiset(At(before, d))[x] + Mentions(t, deps, id, d, x)
  }

  ghost function Mentions(t: Table, deps: seq<string>, id: string, d: string, x: string): nat {
    if x == id && IsCached(t, d) then multiset(deps)[d] else 0
  }

  lemma GrownStep(t: Table, deps: seq<string>, id: string, before: Lists, after: Lists, dep: string)
    requires Grown(t, deps, id, before, after)
    ensures Grown(t, deps + [dep], id, before, Listing(t, after, dep, id))
  {
    forall d, x
      ensures multiset(At(Listing(t, after, dep, id), d))[x] ==
        multiset(At(before, d))[x] + Mentions(t, deps + [dep], id, d, x)
    {
      GrownAt(t, deps, id, before, after, dep, d, x);
    }
  }

  function Listing(t: Table, m: Lists, dep: string, id: string): Lists {
    if IsCached(t, dep) then m[dep := At(m, dep) + [id]] else m
  }

  lemma GrownAt(t: Table, deps: seq<string>, id: string, before: Lists, after: Lists, dep: string, d: string, x: string)
    requires multiset(At(after, d))[x] == multiset(At(before, d))[x] + Mentions(t, deps, id, d, x)
    ensures multiset(At(Listing(t, after, dep, id), d))[x] ==
      multiset(At(before, d))[x] + Mentions(t, deps + [dep], id, d, x)
  {
    OneMore(deps, dep, d);
    OneMore(At(after, d), id, x);
  }

  lemma OneMore(s: seq<string>, last: string, x: string)
    ensures multiset(s + [last])[x] == multiset(s)[x] + if x == last then 1 else 0
  {
  }

  /** The graph as far as the records in `listed` go. */
  ghost predicate BuiltFor(t: Table, listed: seq<string>, inDegree: map<string, int>, dependents: Lists) {
    && (forall x :: x in inDegree <==> IsCached(t, x) && x in listed)
    && (forall x :: x in inDegree ==> inDegree[x] == Degree(t[x].entry.dependencies, CachedSet(t)))
    && (forall d, x :: IsCached(t, d) ==> multiset(At(dependents, d))[x] == ListedMentions(t, listed, d, x))
  }

  ghost function ListedMentions(t: Table, listed: seq<string>, d: string, x: string): nat {
    if IsCached(t, x) && x in listed then multiset(t[x].entry.dependencies)[d] else 0
  }

  lemma BuiltNone(t: Table)
    ensures BuiltFor(t, [], map[], map[])
  {
  }

  lemma BuiltStep(t: Table, listed: seq<string>, inDegree: map<string, int>, before: Lists, id: string, degree: int,
          after: Lists)
    requires BuiltFor(t, listed, inDegree, before) && id !in listed && IsCached(t, id)
    requires degree == Degree(t[id].entry.dependencies, CachedSet(t))
    requires Grown(t, t[id].entry.dependencies, id, before, after)
    ensures BuiltFor(t, listed + [id], inDegree[id := degree], after)
  {
    forall d, x | IsCached(t, d) ensures multiset(At(after, d))[x] == ListedMentions(t, listed + [id], d, x) {
      assert multiset(At(after, d))[x] == multiset(At(before, d))[x] + Mentions(t, t[id].entry.dependencies, id, d, x);
    }
  }

  lemma BuiltSkip(t: Table, listed: seq<string>, inDegree: map<string, int>, dependents: Lists, id: string)
    requires BuiltFor(t, listed, inDegree, dependents) && !IsCached(t, id)
    ensures BuiltFor(t, listed + [id], inDegree, dependents)
  {
    forall d, x | IsCached(t, d) ensures multiset(At(dependents, d))[x] == ListedMentions(t, listed + [id], d, x) {
      assert multiset(At(dependents, d))[x] == ListedMentions(t, listed, d, x);
    }
  }

  lemma BuiltAll(t: Table, listed: seq<string>, inDegree: map<string, int>, dependents: Lists)
    requires BuiltFor(t, listed, inDegree, dependents) && forall x :: IsCached(t, x) ==> x in listed
    ensures inDegree.Keys == CachedSet(t) && Counted(CachedGraph(t), {}, inDegree)
      && Reversed(CachedGraph(t), dependents)
  {
    var g := CachedGraph(t);
    assert g.Keys == CachedSet(t) && g.Keys - {} == g.Keys;
    forall d, x | d in g ensures multiset(At(dependents, d))[x] == (if x in g then multiset(g[x])[d] else 0) {
      assert multiset(At(dependents, d))[x] == ListedMentions(t, listed, d, x);
    }
  }

  /** The keys of a set in some order: std::map iterates in the order of the keys, which nothing below uses. */
  method Enumerate(s: set<string>) returns (list: seq<string>)
    ensures Enumerates(list, s)
  {
    list := [];
    var rest := s;
    while rest != {}
      invariant NoRepeats(list) && rest <= s
      invariant forall x :: x in list <==> x in s && x !in rest
    {
      var x :| x in rest;
      rest := rest - {x};
      list := list + [x];
    }
  }

  /** The fresh table of a manifest: every entry Pending. */
  function ManifestTable(entries: seq<Entry>): Table {
    if entries == [] then map[]
    else ManifestTable(entries[..|entries| - 1])[entries[|entries| - 1].id :=
      Record(entries[|entries| - 1], Pending, "")]
  }

  predicate Reloadable(t: Table, id: string) { id in t && t[id].state in {Started, Stopped} }

  /** The table after a reload: the file was looked at again, and a resource that ran and is fine runs again. */
  function Reloaded(t: Table, dir: string, disk: Disk, id: string): Table {
    if !Reloadable(t, id) then t
    else if t[id].state == Started && FileFresh(dir, t[id].entry, disk) then t[id := Record(t[id].entry, Started, "")]
    else t[id := Examined(dir, t[id], disk)]
  }

  /** A reload looks at the file of a started or stopped resource: the right size, or any when none is recorded,
      keeps it started, or makes it Loaded; anything else fails it. Nothing else changes. */
  lemma ReloadedBySize(t: Table, dir: string, disk: Disk, id: string)
    requires id in t
    ensures var after := Reloaded(t, dir, disk, id);
      var path := dir + "\\" + t[id].entry.path;
      var fits := if t[id].entry.size > 0 then disk(path) == Sized(t[id].entry.size) else disk(path).Sized?;
      && after.Keys == t.Keys && (forall x :: x in t && x != id ==> after[x] == t[x])
      && (t[id].state != Started && t[id].state != Stopped ==> after == t)
      && (t[id].state == Started ==> after[id].state == if fits then Started else Failed)
      && (t[id].state == Stopped ==> after[id].state == if fits then Loaded else Failed)
      && (Reloadable(t, id) ==> after[id] == Record(t[id].entry, after[id].state,
        if fits then ""
        else if disk(path) == Missing then "file missing during load: " + path
        else "file changed on disk since verification: " + path))
  {
  }

  predicate MayLoad(t: Table, id: string) { id in t && IsValidTransition(t[id].state, Loading) }

  /** The nodes nothing holds back at the start, each once. */
  method ZeroDegree(inDegree: map<string, int>) returns (queue: seq<string>)
    ensures Queued({}, inDegree, queue)
  {
    queue := [];
    var list := Enumerate(inDegree.Keys);
    for i := 0 to |list|
      invariant NoRepeats(queue) && forall x :: x in queue <==> x in list[..i] && x in inDegree && inDegree[x] == 0
    {
      var id := list[i];
      assert list[..i + 1] == list[..i] + [id];
      assert id in list && id !in list[..i];
      if inDegree[id] == 0 { queue := queue + [id]; }
    }
    assert list[..|list|] == list;
  }

  class ResourceRegistry {
    const resourcesDir: string
    var records: Table
    /** The ids LoadOne was called with, in order. */
    ghost var attempts: seq<string>

    constructor (resourcesDir: string)
      ensures this.resourcesDir == resourcesDir && records == map[] && attempts == []
    {
      this.resourcesDir := resourcesDir;
      records, attempts := map[], [];
    }

    method LoadManifest(entries: seq<Entry>)
      modifies this
      ensures attempts == old(attempts)
      ensures records == ManifestTable(entries)
    {
      records := map[];
      for i := 0 to |entries|
        invariant attempts == old(attempts) && records == ManifestTable(entries[..i])
      {
        assert entries[..i + 1][..i] == entries[..i];
        records := records[entries[i].id := Record(entries[i], Pending, "")];
      }
      assert entries[..|entries|] == entries;
    }

    /** True and applied when the record is there and the move is legal, false and ignored otherwise. */
    method TransitionTo(id: string, newState: State, error: string) returns (ok: bool)
      modifies this`records
      ensures ok <==> id in old(records) && IsValidTransition(old(records)[id].state, newState)
      ensures records == if ok then old(records)[id := Record(old(records)[id].entry, newState, error)]
        else old(records)
    {
      if id !in records || !IsValidTransition(records[id].state, newState) { return false; }
      records := records[id := Record(records[id].entry, newState, error)];
      ok := true;
    }

    /** From Loading: looks at the file and ends in Loaded or Failed. */
    method ValidateAndMarkLoaded(id: string, entry: Entry, disk: Disk) returns (ok: bool)
      requires id in records && records[id].state == Loading && records[id].entry == entry
      modifies this`records
      ensures records == old(records)[id := Examined(resourcesDir, old(records)[id], disk)]
      ensures ok <==> FileFresh(resourcesDir, entry, disk)
    {
      var fullPath := resourcesDir + "\\" + entry.path;
      if disk(fullPath).Missing? {
        var done := TransitionTo(id, Failed, "file missing during load: " + fullPath);
        return false;
      }
      if disk(fullPath).Unreadable? || (entry.size > 0 && disk(fullPath).bytes != entry.size) {
        var done := TransitionTo(id, Failed, "file changed on disk since verification: " + fullPath);
        return false;
      }
      var done := TransitionTo(id, Loaded, "");
      ok := true;
    }

    method LoadOne(id: string, disk: Disk) returns (ok: bool)
      modifies this
      ensures attempts == old(attempts) + [id]
      ensures ok <==> MayLoad(old(records), id) && FileFresh(resourcesDir, old(records)[id].entry, disk)
      ensures records == if MayLoad(old(records), id)
        then old(records)[id := Examined(resourcesDir, old(records)[id], disk)] else old(records)
    {
      attempts := attempts + [id];
      if id !in records { return false; }
      ok := TransitionTo(id, Loading, "");
      if !ok { return; }
      ok := ValidateAndMarkLoaded(id, records[id].entry, disk);
    }

    method Start(id: string) returns (error: Option<string>)
      modifies this`records
      ensures error.None? <==> id in old(records) && old(records)[id].state in {Loaded, Stopped}
      ensures records == if error.None? then old(records)[id := Record(old(records)[id].entry, Started, "")]
        else old(records)
      ensures error.Some? ==> error.value == "cannot start resource \"" + id + "\" from its current state"
    {
      var ok := TransitionTo(id, Started, "");
      error := if ok then None else Some("cannot start resource \"" + id + "\" from its current state");
    }

    method Stop(id: string) returns (error: Option<string>)
      modifies this`records
      ensures error.None? <==> id in old(records) && old(records)[id].state == Started
      ensures records == if error.None? then old(records)[id := Record(old(records)[id].entry, Stopped, "")]
        else old(records)
      ensures error.Some? ==> error.value == "cannot stop resource \"" + id + "\" from its current state"
    {
      var ok := TransitionTo(id, Stopped, "");
      error := if ok then None else Some("cannot stop resource \"" + id + "\" from its current state");
    }

    /** Looks at the file of a started or stopped resource again; a started one is started again. */
    method Reload(id: string, disk: Disk) returns (error: Option<string>)
      modifies this`records
      ensures records == Reloaded(old(records), resourcesDir, disk, id)
      ensures error.None? <==> Reloadable(old(records), id) && FileFresh(resourcesDir, old(records)[id].entry, disk)
      ensures error.Some? && Reloadable(old(records), id) ==> error.value == records[id].error
    {
      if id !in records { return Some("unknown resource \"" + id + "\""); }
      var wasStarted := records[id].state == Started;
      if records[id].state != Started && records[id].state != Stopped {
        return Some("cannot reload resource \"" + id + "\" from its current state");
      }
      var ok := TransitionTo(id, Loading, "");
      if !ok { return Some("reload transition failed for \"" + id + "\""); }
      ok := ValidateAndMarkLoaded(id, records[id].entry, disk);
      if !ok { return Some(records[id].error); }
      if wasStarted { ok := TransitionTo(id, Started, ""); }
      error := None;
    }

    /** The reason the first broken dependency of a record gives it to fail. */
    method FirstBroken(deps: seq<string>) returns (reason: Option<string>)
      ensures reason.None? ==> forall d :: d in deps ==> !Broken(records, d)
      ensures reason.Some? ==> FirstReason(records, deps, reason.value)
    {
      for i := 0 to |deps|
        invariant forall k :: 0 <= k < i ==> !Broken(records, deps[k])
      {
        var dep := deps[i];
        if dep !in records {
          assert FirstBrokenAt(records, deps, i);
          return Some("missing dependency: " + dep);
        }
        if records[dep].state == Failed {
          assert FirstBrokenAt(records, deps, i);
          return Some("dependency failed: " + dep);
        }
      }
      reason := None;
    }

    /** Fails a Cached record and reports it. */
    method Fail(id: string, error: string, summary: Summary, ghost t: Table) returns (summary': Summary)
      requires IsCached(records, id) && IsCached(t, id) && Accounted(t, records, summary)
      modifies this`records
      ensures records == old(records)[id := Record(old(records)[id].entry, Failed, error)]
      ensures Accounted(t, records, summary')
    {
      AccountFailure(t, records, summary, id, Record(records[id].entry, Failed, error));
      var done := TransitionTo(id, Failed, error);
      summary' := Summary(summary.loaded, summary.failed + 1, summary.errors + [(id, error)]);
    }

    /** One pass after another fails the records with a broken dependency, until a pass changes nothing. */
    method CascadeFailures(eligible: seq<string>, ghost t: Table) returns (summary: Summary)
      requires records == t && Enumerates(eligible, CachedSet(t))
      modifies this`records
      ensures Complete(t, records) && Accounted(t, records, summary)
    {
      hide Accounted, Doomed;
      summary := Summary(0, 0, []);
      NothingYet(t);
      var changed := true;
      while changed
        invariant Cascading(t, records) && Accounted(t, records, summary)
        invariant !changed ==> Settled(records)
        decreases |CachedSet(records)|, changed
      {
        ghost var start := |CachedSet(records)|;
        changed := false;
        for i := 0 to |eligible|
          invariant Cascading(t, records) && Accounted(t, records, summary)
          invariant !changed ==> |CachedSet(records)| == start && SettledFor(records, eligible[..i])
          invariant changed ==> |CachedSet(records)| < start
        {
          var id := eligible[i];
          assert eligible[..i + 1] == eligible[..i] + [id];
          assert id in eligible;
          if records[id].state != Cached { continue; }
          var broken := FirstBroken(records[id].entry.dependencies);
          if broken.Some? {
            CascadeFailure(t, records, id, broken.value);
            summary := Fail(id, broken.value, summary, t);
            changed := true;
          }
        }
        assert eligible[..|eligible|] == eligible;
      }
      forall x ensures IsCached(records, x) <==> IsCached(t, x) && !Doomed(t, x) {
        CascadeComplete(t, records, x);
      }
    }

    /** Counts one record's dependencies among the Cached ones and lists it under each of them. */
    method ListDependent(id: string, eligible: set<string>, dependents: Lists) returns (degree: int, dependents': Lists)
      requires id in records && eligible <= records.Keys && CachedSet(records) <= eligible
      ensures degree == Degree(records[id].entry.dependencies, CachedSet(records))
      ensures Grown(records, records[id].entry.dependencies, id, dependents, dependents')
    {
      var deps := records[id].entry.dependencies;
      degree, dependents' := 0, dependents;
      for i := 0 to |deps|
        invariant degree == Degree(deps[..i], CachedSet(records))
          && Grown(records, deps[..i], id, dependents, dependents')
      {
        var dep := deps[i];
        assert deps[..i + 1] == deps[..i] + [dep];
        assert deps[..i + 1][..i] == deps[..i];
        GrownStep(records, deps[..i], id, dependents, dependents', dep);
        if dep in eligible && records[dep].state == Cached {
          degree := degree + 1;
          dependents' := dependents'[dep := At(dependents', dep) + [id]];
        }
      }
      assert deps[..|deps|] == deps;
    }

    method BuildGraph(list: seq<string>, eligible: set<string>) returns (inDegree: map<string, int>, dependents: Lists)
      requires eligible <= records.Keys && CachedSet(records) <= eligible && Enumerates(list, eligible)
      ensures inDegree.Keys == CachedSet(records)
      ensures Counted(CachedGraph(records), {}, inDegree) && Reversed(CachedGraph(records), dependents)
    {
      hide BuiltFor, Grown, Counted, Reversed, Degree;
      inDegree, dependents := map[], map[];
      BuiltNone(records);
      for i := 0 to |list|
        invariant BuiltFor(records, list[..i], inDegree, dependents)
      {
        var id := list[i];
        assert list[..i + 1] == list[..i] + [id];
        assert id in list && id !in list[..i];
        if records[id].state != Cached {
          BuiltSkip(records, list[..i], inDegree, dependents, id);
          continue;
        }
        var degree, dependents' := ListDependent(id, eligible, dependents);
        BuiltStep(records, list[..i], inDegree, dependents, id, degree, dependents');
        inDegree, dependents := inDegree[id := degree], dependents';
      }
      assert list[..|list|] == list;
      BuiltAll(records, list, inDegree, dependents);
    }

    /** One turn of Kahn's loop: the head of the queue is attempted and its dependents are released. */
    method TakeNext(inDegree: map<string, int>, dependents: Lists, queue: seq<string>, processed: set<string>,
            ghost order: seq<string>,
                    summary: Summary, disk: Disk, ghost t: Table, ghost u: Table)
      returns (inDegree': map<string, int>, queue': seq<string>, processed': set<string>, summary': Summary)
      requires queue != [] && KahnLoop(u, records, resourcesDir, disk, processed, order, inDegree, queue)
      requires Reversed(CachedGraph(u), dependents) && CachedSet(u) <= CachedSet(t) && Accounted(t, records, summary)
      modifies this
      ensures attempts == old(attempts) + [queue[0]]
      ensures processed' == processed + {queue[0]} && queue[0] !in processed && IsCached(u, queue[0])
      ensures KahnLoop(u, records, resourcesDir, disk, processed', order + [queue[0]], inDegree', queue')
      ensures Accounted(t, records, summary')
    {
      var id := queue[0];
      KahnLoopHead(u, records, resourcesDir, disk, processed, order, inDegree, queue);
      processed' := processed + {id};
      summary' := Attempt(id, summary, disk, t);
      DependentsKnown(CachedGraph(u), dependents, processed, inDegree, id);
      inDegree', queue' := Release(At(dependents, id), inDegree, queue[1..]);
      StepKeepsCounts(CachedGraph(u), dependents, processed, inDegree, queue, inDegree', queue');
      StepKeepsQueue(CachedGraph(u), dependents, processed, inDegree, queue, inDegree', queue');
    }

    /** Kahn's loop: takes what nothing holds back, loads it, releases its dependents. */
    method RunKahn(startDegree: map<string, int>, dependents: Lists, summary: Summary, disk: Disk, ghost t: Table)
      returns (summary': Summary, processed: set<string>, ghost order: seq<string>)
      requires CachedSet(records) <= CachedSet(t) && Accounted(t, records, summary)
      requires Counted(CachedGraph(records), {}, startDegree) && Reversed(CachedGraph(records), dependents)
      modifies this
      ensures attempts == old(attempts) + order
      ensures KahnRun(old(records), records, resourcesDir, disk, processed, order)
      ensures Unstuck(old(records), processed)
      ensures Accounted(t, records, summary')
    {
      hide Accounted, KahnLoop, KahnRun, Counted, Reversed, Queued;
      var inDegree := startDegree;
      ghost var u := records;
      var queue := ZeroDegree(inDegree);
      summary', processed, order := summary, {}, [];
      RunStarts(u, resourcesDir, disk, inDegree, queue);
      while queue != []
        invariant KahnLoop(u, records, resourcesDir, disk, processed, order, inDegree, queue)
        invariant attempts == old(attempts) + order
        invariant Accounted(t, records, summary')
        decreases CachedSet(u) - processed
      {
        ghost var id := queue[0];
        inDegree, queue, processed, summary' :=
          TakeNext(inDegree, dependents, queue, processed, order, summary', disk, t, u);
        assert old(attempts) + order + [id] == old(attempts) + (order + [id]);
        order := order + [id];
      }
      RunIsExact(u, records, resourcesDir, disk, processed, order, inDegree);
    }

    /** LoadOne and its entry in the summary. */
    method Attempt(id: string, summary: Summary, disk: Disk, ghost t: Table) returns (summary': Summary)
      requires IsCached(records, id) && IsCached(t, id) && Accounted(t, records, summary)
      modifies this
      ensures attempts == old(attempts) + [id]
      ensures records == old(records)[id := Examined(resourcesDir, old(records)[id], disk)]
      ensures Accounted(t, records, summary')
    {
      ghost var r := Examined(resourcesDir, records[id], disk);
      if r.state == Loaded {
        AccountLoad(t, records, summary, id, r);
      } else {
        AccountFailure(t, records, summary, id, r);
      }
      var ok := LoadOne(id, disk);
      if ok {
        summary' := Summary(summary.loaded + 1, summary.failed, summary.errors);
      } else {
        summary' := Summary(summary.loaded, summary.failed + 1, summary.errors + [(id, records[id].error)]);
      }
    }

    /** What was never taken off the queue is part of a cycle or depends on one. */
    method FailCycles(list: seq<string>, processed: set<string>, summary: Summary, ghost t: Table)
      returns (summary': Summary)
      requires Leftover(t, records, list, processed) && Accounted(t, records, summary)
      modifies this`records
      ensures records.Keys == old(records).Keys
      ensures forall x :: x in records ==> records[x] == CycleFailed(old(records)[x])
      ensures Accounted(t, records, summary')
    {
      summary' := summary;
      for i := 0 to |list|
        invariant records.Keys == old(records).Keys && Accounted(t, records, summary')
        invariant forall x :: x in records ==>
          records[x] == if x in list[..i] then CycleFailed(old(records)[x]) else old(records)[x]
      {
        var id := list[i];
        assert list[..i + 1] == list[..i] + [id];
        assert id in list && id !in list[..i];
        if id in processed { continue; }
        summary' := Fail(id, "circular dependency", summary', t);
      }
      assert list[..|list|] == list;
    }

    /** The part of LoadAll after the cascade. */
    method LoadSorted(list: seq<string>, eligible: set<string>, summary: Summary, disk: Disk, ghost t: Table)
      returns (summary': Summary, ghost order: seq<string>)
      requires Enumerates(list, eligible) && eligible == CachedSet(t)
      requires Complete(t, records) && Accounted(t, records, summary)
      modifies this
      ensures attempts == old(attempts) + order
      ensures Finished(t, records, resourcesDir, disk, order) && Accounted(t, records, summary')
    {
      ghost var u := records;
      StillEligible(t, u);
      var inDegree, dependents := BuildGraph(list, eligible);
      var processed;
      summary', processed, order := RunKahn(inDegree, dependents, summary, disk, t);
      ghost var v := records;
      var left := Enumerate(inDegree.Keys);
      LeftoverAfterRun(t, u, v, resourcesDir, disk, processed, order, left);
      summary' := FailCycles(left, processed, summary', t);
      JudgedAtLast(t, u, v, records, resourcesDir, disk, processed, order);
    }

    /** Loads everything that was verified, in dependency order. */
    method LoadAll(disk: Disk) returns (summary: Summary, ghost order: seq<string>)
      modifies this
      ensures Judged(old(records), resourcesDir, disk, records)
      ensures Accounted(old(records), records, summary)
      ensures summary.loaded + summary.failed == |CachedSet(old(records))|
      ensures attempts == old(attempts) + order
      ensures NoRepeats(order) && Ordered(CachedGraph(old(records)), order)
      ensures forall x :: x in order <==> Loadable(old(records), x)
    {
      ghost var t := records;
      var eligible := set x | x in records && records[x].state == Cached;
      var list := Enumerate(eligible);
      summary := CascadeFailures(list, t);
      summary, order := LoadSorted(list, eligible, summary, disk, t);
      LoadConserves(t, records, summary);
    }
  }

  /** A table part-way through Kahn's loop. */
  ghost predicate KahnRun(u: Table, now: Table, dir: string, disk: Disk, processed: set<string>, order: seq<string>) {
    && now.Keys == u.Keys && processed <= CachedSet(u)
    && (forall x :: x in u ==> now[x] == if x in processed then Examined(dir, u[x], disk) else u[x])
    && Enumerates(order, processed) && Ordered(CachedGraph(u), order)
  }

  ghost predicate KahnLoop(u: Table, now: Table, dir: string, disk: Disk, processed: set<string>, order: seq<string>,
                           inDegree: map<string, int>, queue: seq<string>) {
    && KahnRun(u, now, dir, disk, processed, order)
    && Counted(CachedGraph(u), processed, inDegree) && Queued(processed, inDegree, queue)
  }

  /** Exactly the Cached records with no path into a cycle. */
  ghost predicate Unstuck(u: Table, processed: set<string>) {
    forall x :: IsCached(u, x) ==> (x in processed <==> !Stuck(u, x))
  }

  lemma RunStarts(u: Table, dir: string, disk: Disk, inDegree: map<string, int>, queue: seq<string>)
    requires Counted(CachedGraph(u), {}, inDegree) && Queued({}, inDegree, queue)
    ensures KahnLoop(u, u, dir, disk, {}, [], inDegree, queue)
  {
  }

  lemma RunIsExact(u: Table, now: Table, dir: string, disk: Disk, processed: set<string>, order: seq<string>,
          inDegree: map<string, int>)
    requires KahnLoop(u, now, dir, disk, processed, order, inDegree, [])
    ensures KahnRun(u, now, dir, disk, processed, order) && Unstuck(u, processed)
  {
    forall x | IsCached(u, x) ensures x in processed <==> !Stuck(u, x) {
      KahnExact(CachedGraph(u), processed, inDegree, order, x);
    }
  }

  lemma KahnLoopHead(u: Table, now: Table, dir: string, disk: Disk, processed: set<string>, order: seq<string>,
                     inDegree: map<string, int>, queue: seq<string>)
    requires queue != [] && KahnLoop(u, now, dir, disk, processed, order, inDegree, queue)
    ensures IsCached(u, queue[0]) && IsCached(now, queue[0]) && queue[0] !in processed
    ensures KahnRun(u, now[queue[0] := Examined(dir, now[queue[0]], disk)], dir, disk, processed + {queue[0]},
      order + [queue[0]])
  {
    var id := queue[0];
    assert id in queue;
    OrderGrows(CachedGraph(u), processed, inDegree, order, id);
  }

  /** The list is the Cached records and the processed ones, which are not Cached any more. */
  ghost predicate Leftover(t: Table, now: Table, list: seq<string>, processed: set<string>) {
    && NoRepeats(list) && (forall x :: x in list <==> IsCached(now, x) || x in processed)
    && (forall x :: x in processed ==> !IsCached(now, x)) && (forall x :: IsCached(now, x) ==> IsCached(t, x))
  }

  lemma LeftoverAfterRun(t: Table, u: Table, v: Table, dir: string, disk: Disk, processed: set<string>,
          order: seq<string>, list: seq<string>)
    requires Complete(t, u) && KahnRun(u, v, dir, disk, processed, order) && Enumerates(list, CachedSet(u))
    ensures Leftover(t, v, list, processed)
  {
    forall x ensures (IsCached(u, x) <==> IsCached(v, x) || x in processed) && (x in processed ==> !IsCached(v, x)) {
      assert x in processed ==> x in CachedSet(u);
    }
  }

  function CycleFailed(r: Record): Record {
    if r.state == Cached then Record(r.entry, Failed, "circular dependency") else r
  }

  ghost predicate Finished(t: Table, w: Table, dir: string, disk: Disk, order: seq<string>) {
    && Judged(t, dir, disk, w)
    && NoRepeats(order) && Ordered(CachedGraph(t), order) && (forall x :: x in order <==> Loadable(t, x))
    && (forall x :: IsCached(t, x) ==> w[x].state == Loaded || w[x].state == Failed)
  }

  lemma StillEligible(t: Table, u: Table)
    requires Complete(t, u)
    ensures CachedSet(t) <= u.Keys && CachedSet(u) <= CachedSet(t)
  {
    forall x | x in CachedSet(u) ensures x in CachedSet(t) {
      assert IsCached(u, x);
    }
  }

  lemma VerdictAtLast(t: Table, u: Table, v: Table, dir: string, disk: Disk, processed: set<string>, order: seq<string>,
          x: string)
    requires Complete(t, u) && KahnRun(u, v, dir, disk, processed, order) && Unstuck(u, processed) && x in t
    ensures Verdict(t, dir, disk, x, CycleFailed(v[x])) && (x in order <==> Loadable(t, x))
    ensures IsCached(t, x) ==> CycleFailed(v[x]).state == Loaded || CycleFailed(v[x]).state == Failed
  {
    assert x in order <==> x in processed;
    assert x in processed ==> x in CachedSet(u);
    if IsCached(u, x) {
      StuckSurvives(t, u, x);
    } else {
      assert v[x] == u[x];
    }
  }

  lemma OrderedBefore(t: Table, u: Table, order: seq<string>)
    requires Complete(t, u) && Ordered(CachedGraph(u), order) && forall x :: x in order ==> IsCached(u, x)
    ensures Ordered(CachedGraph(t), order)
  {
    forall k, y | 0 <= k < |order| && Edge(CachedGraph(t), order[k], y) ensures y in order[..k] {
      assert order[k] in order;
      EdgeSurvives(t, u, order[k], y);
    }
  }

  /** The three stages put together are the verdict on the table as it was. */
  lemma JudgedAtLast(t: Table, u: Table, v: Table, w: Table, dir: string, disk: Disk, processed: set<string>,
          order: seq<string>)
    requires Complete(t, u) && KahnRun(u, v, dir, disk, processed, order) && Unstuck(u, processed)
    requires w.Keys == v.Keys && forall x :: x in w ==> w[x] == CycleFailed(v[x])
    ensures Finished(t, w, dir, disk, order)
  {
    forall x | x in t ensures Verdict(t, dir, disk, x, w[x]) && (x in order <==> Loadable(t, x))
      ensures IsCached(t, x) ==> w[x].state == Loaded || w[x].state == Failed
    {
      VerdictAtLast(t, u, v, dir, disk, processed, order, x);
    }
    forall x | x in order ensures IsCached(u, x) {
      assert x in processed && x in CachedSet(u);
    }
    OrderedBefore(t, u, order);
  }

  ghost predicate SettledFor(now: Table, ids: seq<string>) {
    forall x, d :: x in ids && IsCached(now, x) && DependsOn(now, x, d) ==> !Broken(now, d)
  }

  /** A cascade step taken for the first broken dependency, and the Cached records it leaves. */
  lemma CascadeFailure(t: Table, now: Table, x: string, error: string)
    requires Cascading(t, now) && IsCached(now, x)
    requires FirstReason(now, now[x].entry.dependencies, error)
    ensures IsCached(t, x)
    ensures Cascading(t, now[x := Record(now[x].entry, Failed, error)])
    ensures |CachedSet(now[x := Record(now[x].entry, Failed, error)])| == |CachedSet(now)| - 1
  {
    var deps := now[x].entry.dependencies;
    var k: nat :| FirstBrokenAt(now, deps, k) && BrokenReason(now, deps[k], error);
    assert deps[k] in deps;
    CascadeStep(t, now, x, deps[k], error);
    CachedWithout(now, x, Record(now[x].entry, Failed, error));
  }

  lemma CachedWithout(now: Table, x: string, r: Record)
    requires IsCached(now, x) && r.state != Cached
    ensures |CachedSet(now[x := r])| == |CachedSet(now)| - 1
  {
    assert CachedSet(now[x := r]) == CachedSet(now) - {x};
  }
}

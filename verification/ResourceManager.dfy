/** Applying a manifest: every resource is checked on disk or downloaded, and the registry is driven
    accordingly; then what any later use of the registry can do (runtime/src/ResourceManager.cpp). */
module ResourceManager {
  import opened Wrappers
  import opened Octets
  import RS = ResourceState
  import L = Loading
  import R = ResourceRegistry
  import D = Download
  import DS = DownloadSafety
  import DR = DownloadResume
  import H = HttpDownloader

  /** The request for an entry; the number of attempts is the default of runtime/src/HttpDownloader.h. */
  function RequestFor(dir: string, e: L.Entry): D.Request { D.Request(L.FullPath(dir, e), e.size, e.hash, 2) }

  /** The file is there with the announced size and the announced hash. */
  predicate LocalFileMatches(dir: string, e: L.Entry, files: D.Files, digest: Digest) {
    var path := L.FullPath(dir, e);
    path in files && |files[path]| == e.size && digest(files[path]) == e.hash
  }

  /** The file on disk passes every check the entry asks for. */
  predicate Intact(dir: string, e: L.Entry, files: D.Files, digest: Digest) {
    D.FileMatchesExpected(files, RequestFor(dir, e), digest)
  }

  /** No entry writes where another one keeps its file. */
  predicate Separate(a: L.Entry, b: L.Entry) {
    a.path != b.path && a.path != b.path + ".partial" && b.path != a.path + ".partial"
  }

  ghost predicate AllSeparate(entries: seq<L.Entry>) {
    forall i, j :: 0 <= i < j < |entries| ==> Separate(entries[i], entries[j])
  }

  lemma SeparatePaths(dir: string, a: L.Entry, b: L.Entry)
    requires Separate(a, b)
    ensures L.FullPath(dir, a) != L.FullPath(dir, b) && L.FullPath(dir, a) != L.FullPath(dir, b) + ".partial"
    ensures L.FullPath(dir, b) != L.FullPath(dir, a) + ".partial"
  {
    var n := |dir| + 1;
    assert L.FullPath(dir, a)[n..] == a.path && L.FullPath(dir, b)[n..] == b.path;
    assert (L.FullPath(dir, a) + ".partial")[n..] == a.path + ".partial";
    assert (L.FullPath(dir, b) + ".partial")[n..] == b.path + ".partial";
  }

  /** An intact file survives the download of a separate entry. */
  lemma IntactSurvives(dir: string, e: L.Entry, other: L.Entry, before: D.Files, after: D.Files, digest: Digest)
    requires Separate(e, other) && DS.Safe(before, after, RequestFor(dir, other), digest)
      && Intact(dir, e, before, digest)
    ensures Intact(dir, e, after, digest)
  {
    SeparatePaths(dir, e, other);
    assert DS.SameAt(before, after, L.FullPath(dir, e));
  }

  // ---------- what one entry does to its record ----------

  /** Pending, or Cached or Failed when an id occurs twice. */
  predicate Unsettled(s: RS.State) { s == RS.Pending || s == RS.Cached || s == RS.Failed }

  /** What an entry that ended so makes of the record: Failed is final, Cached only gives way to a failure. */
  function SettledBy(r: L.Record, end: EntryEnd, describe: D.Failure -> string): L.Record {
    if r.state == RS.Failed then r
    else if end.Failed? then L.Record(r.entry, RS.Failed, describe(end.error))
    else if r.state == RS.Cached then r
    else L.Record(r.entry, RS.Cached, "")
  }

  /** The table after the first entries ended so. */
  function Settling(t: L.Table, entries: seq<L.Entry>, ends: seq<EntryEnd>, describe: D.Failure -> string): L.Table
    requires |ends| == |entries|
  {
    if entries == [] then t
    else
      var n := |entries| - 1;
      var before := Settling(t, entries[..n], ends[..n], describe);
      var id := entries[n].id;
      if id in before then before[id := SettledBy(before[id], ends[n], describe)] else before
  }

  datatype Counts = Counts(downloaded: nat, matched: nat, failed: nat)

  // ---------- what the manifest does to the files ----------

  /** An entry's own download: the server it is asked of, and whether the final rename fails. */
  datatype Source = Source(server: D.Server, renameError: Option<string>)

  datatype EntryEnd = Matched | Downloaded | Failed(error: D.Failure)

  /** One entry: nothing is done when its file matches, otherwise the downloader decides. */
  function EntryRun(dir: string, e: L.Entry, source: Source, files: D.Files, digest: Digest): (D.Files, EntryEnd) {
    if LocalFileMatches(dir, e, files, digest) then (files, Matched)
    else
      var (p, result) := D.Downloaded(D.Fresh(files), RequestFor(dir, e), source.server, digest, source.renameError);
      (p.files, match result case Done(_) => Downloaded case Failed(error) => Failed(error))
  }

  function Counted(counts: Counts, end: EntryEnd): Counts {
    match end
    case Matched => counts.(matched := counts.matched + 1)
    case Downloaded => counts.(downloaded := counts.downloaded + 1)
    case Failed(_) => counts.(failed := counts.failed + 1)
  }

  /** The first entries in turn, each from the files the one before left. */
  function ManifestRun(dir: string, entries: seq<L.Entry>, sources: nat -> Source, files: D.Files,
          digest: Digest): (r: (D.Files, seq<EntryEnd>))
    ensures |r.1| == |entries|
  {
    if entries == [] then (files, [])
    else
      var n := |entries| - 1;
      var (before, ends) := ManifestRun(dir, entries[..n], sources, files, digest);
      var (after, end) := EntryRun(dir, entries[n], sources(n), before, digest);
      (after, ends + [end])
  }

  function Tally(ends: seq<EntryEnd>): Counts {
    if ends == [] then Counts(0, 0, 0) else Counted(Tally(ends[..|ends| - 1]), ends[|ends| - 1])
  }

  class FileResourceManager {
    const registry: R.ResourceRegistry
    const resourcesDir: string
    const digest: Digest
    var files: D.Files

    constructor (resourcesDir: string, digest: Digest, files: D.Files)
      ensures fresh(registry) && registry.resourcesDir == resourcesDir && this.resourcesDir == resourcesDir
      ensures this.files == files && this.digest == digest
    {
      this.resourcesDir, this.digest, this.files := resourcesDir, digest, files;
      registry := new R.ResourceRegistry(resourcesDir);
    }

    /** DownloadAndVerify on the manager's files. */
    method Fetch(req: D.Request, server: D.Server, renameError: Option<string>) returns (result: D.Result)
      modifies this`files
      ensures var (p, r) := D.Downloaded(D.Fresh(old(files)), req, server, digest, renameError);
        files == p.files && result == r
    {
      var downloader := new H.Downloader(files);
      result := downloader.DownloadAndVerify(req, server, digest, renameError);
      files := downloader.files;
    }

    /** One turn of the manifest loop. */
    method ApplyEntry(e: L.Entry, source: Source, describe: D.Failure -> string, counts: Counts)
      returns (ghost end: EntryEnd, counts': Counts)
      requires e.id in registry.records && Unsettled(registry.records[e.id].state)
      modifies this`files, registry`records
      ensures (files, end) == EntryRun(resourcesDir, e, source, old(files), digest) && counts' == Counted(counts, end)
      ensures registry.records ==
        old(registry.records)[e.id := SettledBy(old(registry.records)[e.id], end, describe)]
      ensures DS.Safe(old(files), files, RequestFor(resourcesDir, e), digest)
      ensures !end.Failed? ==> Intact(resourcesDir, e, files, digest)
    {
      hide D.Downloaded, DS.Safe, Intact, LocalFileMatches;
      EntryIsSafe(resourcesDir, e, source, files, digest);
      var done;
      if LocalFileMatches(resourcesDir, e, files, digest) {
        done := registry.TransitionTo(e.id, RS.Cached, "");
        return Matched, counts.(matched := counts.matched + 1);
      }
      done := registry.TransitionTo(e.id, RS.Downloading, "");
      var result := Fetch(RequestFor(resourcesDir, e), source.server, source.renameError);
      if result.Failed? {
        done := registry.TransitionTo(e.id, RS.Failed, describe(result.error));
        return Failed(result.error), counts.(failed := counts.failed + 1);
      }
      done := registry.TransitionTo(e.id, RS.Verifying, "");
      done := registry.TransitionTo(e.id, RS.Cached, "");
      return Downloaded, counts.(downloaded := counts.downloaded + 1);
    }

    /** The manifest loop: each resource on its own, whatever becomes of the others. */
    method ApplyManifest(entries: seq<L.Entry>, sources: nat -> Source, describe: D.Failure -> string)
      returns (counts: Counts, ghost ends: seq<EntryEnd>)
      modifies this`files, registry
      ensures (files, ends) == ManifestRun(resourcesDir, entries, sources, old(files), digest) && counts == Tally(ends)
      ensures registry.records == Settling(R.ManifestTable(entries), entries, ends, describe)
      ensures AllSeparate(entries) ==>
        Applied(registry.records, R.ManifestTable(entries), resourcesDir, files, digest)
      ensures counts.downloaded + counts.matched + counts.failed == |entries|
    {
      registry.LoadManifest(entries);
      ManifestPending(entries);
      counts, ends := Counts(0, 0, 0), [];
      for i := 0 to |entries|
        invariant (files, ends) == ManifestRun(resourcesDir, entries[..i], sources, old(files), digest)
        invariant counts == Tally(ends)
        invariant registry.records == Settling(R.ManifestTable(entries), entries[..i], ends, describe)
      {
        assert entries[..i + 1][..i] == entries[..i];
        SettlingUnsettled(R.ManifestTable(entries), entries[..i], ends, describe);
        ghost var end;
        end, counts := ApplyEntry(entries[i], sources(i), describe, counts);
        assert (ends + [end])[..i] == ends;
        ends := ends + [end];
      }
      assert entries[..|entries|] == entries;
      TallyCounts(ends);
      if AllSeparate(entries) {
        RunIsApplied(resourcesDir, entries, sources, old(files), digest, describe);
      }
    }
  }

  /** Every record is the last entry with its id and is Cached or Failed; a Cached one's file passes every
      check its entry asks for. */
  ghost predicate Applied(now: L.Table, fresh': L.Table, dir: string, files: D.Files, digest: Digest) {
    now.Keys == fresh'.Keys && forall id :: id in now ==>
      && now[id].entry == fresh'[id].entry
      && (now[id].state == RS.Cached || now[id].state == RS.Failed)
      && (now[id].state == RS.Cached ==> Intact(dir, now[id].entry, files, digest))
  }

  // ---------- one entry ----------

  /** Nothing but the entry's own two files is touched, and what is kept or fetched passes every check. */
  lemma EntryIsSafe(dir: string, e: L.Entry, source: Source, files: D.Files, digest: Digest)
    ensures var (after, end) := EntryRun(dir, e, source, files, digest);
      && DS.Safe(files, after, RequestFor(dir, e), digest)
      && (!end.Failed? ==> Intact(dir, e, after, digest))
  {
    var req := RequestFor(dir, e);
    if LocalFileMatches(dir, e, files, digest) {
      DS.TouchedIsSafe(files, files, req, digest);
    } else {
      DS.SafeAgainstAnyServer(files, req, source.server, digest, source.renameError);
    }
  }

  // ---------- the table ----------

  lemma {:induction false} ManifestEntries(entries: seq<L.Entry>)
    ensures forall k :: 0 <= k < |entries| ==> entries[k].id in R.ManifestTable(entries)
    ensures forall id :: id in R.ManifestTable(entries) ==> FromLast(entries, id, R.ManifestTable(entries)[id])
    decreases |entries|
  {
    if entries != [] {
      var most, last := entries[..|entries| - 1], entries[|entries| - 1];
      ManifestEntries(most);
      forall id | id in R.ManifestTable(entries) ensures FromLast(entries, id, R.ManifestTable(entries)[id]) {
        if id != last.id {
          var k :| LastWith(most, id, k) && R.ManifestTable(most)[id] == L.Record(most[k], RS.Pending, "");
          assert LastWith(entries, id, k);
        } else {
          assert LastWith(entries, id, |entries| - 1);
        }
      }
    }
  }

  /** Entry k is the last one with this id. */
  predicate LastWith(entries: seq<L.Entry>, id: string, k: int) {
    0 <= k < |entries| && entries[k].id == id && forall j :: k < j < |entries| ==> entries[j].id != id
  }

  ghost predicate FromLast(entries: seq<L.Entry>, id: string, r: L.Record) {
    exists k :: LastWith(entries, id, k) && r == L.Record(entries[k], RS.Pending, "")
  }

  lemma ManifestPending(entries: seq<L.Entry>)
    ensures forall k :: 0 <= k < |entries| ==> entries[k].id in R.ManifestTable(entries)
    ensures forall id :: id in R.ManifestTable(entries) ==> R.ManifestTable(entries)[id].state == RS.Pending
  {
    ManifestEntries(entries);
    var t := R.ManifestTable(entries);
    forall id | id in t ensures t[id].state == RS.Pending {
      assert FromLast(entries, id, t[id]);
    }
  }

  lemma {:induction false} SettlingUnsettled(t: L.Table, entries: seq<L.Entry>, ends: seq<EntryEnd>,
          describe: D.Failure -> string)
    requires |ends| == |entries| && forall id :: id in t ==> t[id].state == RS.Pending
    ensures var now := Settling(t, entries, ends, describe);
      now.Keys == t.Keys && forall id :: id in now ==> Unsettled(now[id].state)
    decreases |entries|
  {
    if entries != [] {
      SettlingUnsettled(t, entries[..|entries| - 1], ends[..|entries| - 1], describe);
    }
  }

  /** Entry k is the first one with this id that failed. */
  predicate FirstFailure(entries: seq<L.Entry>, ends: seq<EntryEnd>, id: string, k: nat)
    requires |ends| == |entries|
  {
    && k < |entries| && entries[k].id == id && ends[k].Failed?
    && forall j :: 0 <= j < k && entries[j].id == id ==> !ends[j].Failed?
  }

  /** A record as its entries leave it: failed with the first failure's text, cached if there was none, and still
      pending when nothing has come by. */
  ghost predicate SettledTo(now: L.Record, was: L.Record, entries: seq<L.Entry>, ends: seq<EntryEnd>, id: string,
          describe: D.Failure -> string)
    requires |ends| == |entries|
  {
    && now.entry == was.entry
    && (now.state == RS.Failed || now.state == RS.Cached || now == was)
    && (now.state == RS.Failed <==> exists k: nat :: FirstFailure(entries, ends, id, k))
    && (forall k: nat :: FirstFailure(entries, ends, id, k) ==> now.error == describe(ends[k].error))
    && (now.state == RS.Pending <==> forall k :: 0 <= k < |entries| ==> entries[k].id != id)
  }

  lemma {:induction false} SettledExactly(t: L.Table, entries: seq<L.Entry>, ends: seq<EntryEnd>,
          describe: D.Failure -> string, id: string)
    requires |ends| == |entries| && id in t && forall x :: x in t ==> t[x].state == RS.Pending
    ensures id in Settling(t, entries, ends, describe)
      && SettledTo(Settling(t, entries, ends, describe)[id], t[id], entries, ends, id, describe)
    decreases |entries|
  {
    if entries != [] {
      var n := |entries| - 1;
      var most, front := entries[..n], ends[..n];
      SettlingUnsettled(t, most, front, describe);
      SettledExactly(t, most, front, describe, id);
      var now := Settling(t, most, front, describe)[id];
      assert forall k: nat :: k < n ==> most[k] == entries[k] && front[k] == ends[k];
      forall k: nat ensures k < n ==> FirstFailure(entries, ends, id, k) == FirstFailure(most, front, id, k) {
      }
      if now.state == RS.Failed {
        var k: nat :| FirstFailure(most, front, id, k);
        assert FirstFailure(entries, ends, id, k) && !FirstFailure(entries, ends, id, n);
      } else {
        NoFailure(most, front, id);
        assert FirstFailure(entries, ends, id, n) <==> entries[n].id == id && ends[n].Failed?;
      }
    }
  }

  // ---------- the account ----------

  lemma {:induction false} TallyCounts(ends: seq<EntryEnd>)
    ensures var counts := Tally(ends);
      && counts.downloaded + counts.matched + counts.failed == |ends|
      && (counts.failed == 0 <==> forall k :: 0 <= k < |ends| ==> !ends[k].Failed?)
      && (counts.matched == |ends| <==> forall k :: 0 <= k < |ends| ==> ends[k].Matched?)
      && (counts.downloaded == |ends| <==> forall k :: 0 <= k < |ends| ==> ends[k].Downloaded?)
    decreases |ends|
  {
    if ends != [] {
      var most := ends[..|ends| - 1];
      TallyCounts(most);
      assert forall k :: 0 <= k < |most| ==> most[k] == ends[k];
    }
  }

  // ---------- the whole manifest ----------

  /** The last entry with an id that ended well has its file intact at the end. */
  lemma {:induction false} RunKeepsIntact(dir: string, entries: seq<L.Entry>, sources: nat -> Source, files: D.Files,
          digest: Digest, k: nat)
    requires AllSeparate(entries) && k < |entries|
    requires !ManifestRun(dir, entries, sources, files, digest).1[k].Failed?
    ensures Intact(dir, entries[k], ManifestRun(dir, entries, sources, files, digest).0, digest)
    decreases |entries|
  {
    var n := |entries| - 1;
    var before := ManifestRun(dir, entries[..n], sources, files, digest).0;
    EntryIsSafe(dir, entries[n], sources(n), before, digest);
    if k < n {
      RunKeepsIntact(dir, entries[..n], sources, files, digest, k);
      var after := ManifestRun(dir, entries, sources, files, digest).0;
      IntactSurvives(dir, entries[k], entries[n], before, after, digest);
    }
  }

  lemma RunIsApplied(dir: string, entries: seq<L.Entry>, sources: nat -> Source, files: D.Files, digest: Digest,
          describe: D.Failure -> string)
    requires AllSeparate(entries)
    ensures var (after, ends) := ManifestRun(dir, entries, sources, files, digest);
      var t := R.ManifestTable(entries);
      Applied(Settling(t, entries, ends, describe), t, dir, after, digest)
  {
    var (after, ends) := ManifestRun(dir, entries, sources, files, digest);
    var t := R.ManifestTable(entries);
    var now := Settling(t, entries, ends, describe);
    ManifestPending(entries);
    ManifestEntries(entries);
    SettlingUnsettled(t, entries, ends, describe);
    forall id | id in now
      ensures now[id].entry == t[id].entry && (now[id].state == RS.Cached || now[id].state == RS.Failed)
      ensures now[id].state == RS.Cached ==> Intact(dir, now[id].entry, after, digest)
    {
      SettledExactly(t, entries, ends, describe, id);
      assert FromLast(entries, id, t[id]);
      var k :| LastWith(entries, id, k) && t[id] == L.Record(entries[k], RS.Pending, "");
      if now[id].state == RS.Cached {
        NoFailure(entries, ends, id);
        RunKeepsIntact(dir, entries, sources, files, digest, k);
      }
    }
  }

  /** Without a first failure there is none. */
  lemma NoFailure(entries: seq<L.Entry>, ends: seq<EntryEnd>, id: string)
    requires |ends| == |entries| && forall k: nat :: !FirstFailure(entries, ends, id, k)
    ensures forall k :: 0 <= k < |entries| && entries[k].id == id ==> !ends[k].Failed?
  {
    forall k | 0 <= k < |entries| && entries[k].id == id ensures !ends[k].Failed? {
      NoFailureUpTo(entries, ends, id, k);
    }
  }

  lemma {:induction false} NoFailureUpTo(entries: seq<L.Entry>, ends: seq<EntryEnd>, id: string, k: nat)
    requires |ends| == |entries| && forall j: nat :: !FirstFailure(entries, ends, id, j)
    requires k < |entries| && entries[k].id == id
    ensures !ends[k].Failed?
    decreases k
  {
    forall j: nat | j < k && entries[j].id == id ensures !ends[j].Failed? {
      NoFailureUpTo(entries, ends, id, j);
    }
    assert !FirstFailure(entries, ends, id, k);
  }

  // ---------- nothing to do, and everything to be had ----------

  /** The file is on disk with the size and the hash of its entry. */
  predicate OnDisk(dir: string, e: L.Entry, files: D.Files, digest: Digest) {
    var path := dir + "\\" + e.path;
    path in files && |files[path]| == e.size && digest(files[path]) == e.hash
  }

  /** A manifest whose files are all there changes nothing and asks for nothing. */
  lemma {:induction false} NothingToDo(dir: string, entries: seq<L.Entry>, sources: nat -> Source, files: D.Files,
          digest: Digest)
    requires forall k :: 0 <= k < |entries| ==> OnDisk(dir, entries[k], files, digest)
    ensures var (after, ends) := ManifestRun(dir, entries, sources, files, digest);
      after == files && forall k :: 0 <= k < |entries| ==> ends[k] == Matched
    decreases |entries|
  {
    if entries != [] {
      var most := entries[..|entries| - 1];
      assert forall k :: 0 <= k < |most| ==> most[k] == entries[k];
      NothingToDo(dir, most, sources, files, digest);
    }
  }

  /** The server has the entry's bytes and answers as RFC 9110 describes, what is there of the partial file is a
      beginning of them, and the rename works. */
  ghost predicate Available(dir: string, e: L.Entry, source: Source, files: D.Files, digest: Digest, payload: Bytes) {
    && DR.Honest(payload, source.server) && DR.Standard(payload, source.server) && source.renameError.None?
    && DR.PartialOk(files, RequestFor(dir, e), payload) && D.Passes(RequestFor(dir, e), digest, payload)
  }

  lemma AvailableEnds(dir: string, e: L.Entry, source: Source, files: D.Files, digest: Digest, payload: Bytes)
    requires Available(dir, e, source, files, digest, payload)
    ensures EntryRun(dir, e, source, files, digest).1 == if OnDisk(dir, e, files, digest) then Matched else Downloaded
  {
    var req := RequestFor(dir, e);
    if !OnDisk(dir, e, files, digest) && !D.FileMatchesExpected(files, req, digest) {
      DR.StandardServerInstalls(files, req, source.server, digest, payload);
    }
  }

  /** Entries separate from all those applied so far find their files as they were at the start. */
  lemma {:induction false} RunKeepsOthers(dir: string, entries: seq<L.Entry>, sources: nat -> Source, files: D.Files,
          digest: Digest, e: L.Entry)
    requires forall k :: 0 <= k < |entries| ==> Separate(entries[k], e)
    ensures var after := ManifestRun(dir, entries, sources, files, digest).0;
      && DS.SameAt(files, after, L.FullPath(dir, e))
      && DS.SameAt(files, after, L.FullPath(dir, e) + ".partial")
    decreases |entries|
  {
    hide EntryRun, L.FullPath;
    if entries != [] {
      var n := |entries| - 1;
      var most, other := entries[..n], entries[n];
      assert forall k :: 0 <= k < n ==> most[k] == entries[k];
      RunKeepsOthers(dir, most, sources, files, digest, e);
      var before := ManifestRun(dir, most, sources, files, digest).0;
      EntryIsSafe(dir, other, sources(n), before, digest);
      OthersStay(dir, other, e, before, EntryRun(dir, other, sources(n), before, digest).0, digest);
    }
  }

  lemma OthersStay(dir: string, other: L.Entry, e: L.Entry, before: D.Files, after: D.Files, digest: Digest)
    requires Separate(other, e) && DS.Safe(before, after, RequestFor(dir, other), digest)
    ensures DS.SameAt(before, after, L.FullPath(dir, e)) && DS.SameAt(before, after, L.FullPath(dir, e) + ".partial")
  {
    SeparatePaths(dir, other, e);
    PartialsApart(dir, other, e);
  }

  lemma PartialsApart(dir: string, a: L.Entry, b: L.Entry)
    requires a.path != b.path
    ensures L.FullPath(dir, a) + ".partial" != L.FullPath(dir, b) + ".partial"
  {
    var p, q := L.FullPath(dir, a), L.FullPath(dir, b);
    var n := |dir| + 1;
    assert p[n..] == a.path && q[n..] == b.path;
    if |p| == |q| {
      assert (p + ".partial")[..|p|] == p && (q + ".partial")[..|q|] == q;
    }
  }

  lemma StillAvailable(dir: string, e: L.Entry, source: Source, files: D.Files, now: D.Files, digest: Digest,
          payload: Bytes)
    requires DS.SameAt(files, now, L.FullPath(dir, e)) && DS.SameAt(files, now, L.FullPath(dir, e) + ".partial")
    ensures Available(dir, e, source, files, digest, payload) <==> Available(dir, e, source, now, digest, payload)
    ensures OnDisk(dir, e, files, digest) <==> OnDisk(dir, e, now, digest)
  {
  }

  /** With everything to be had, everything is had: no entry fails, and exactly those whose files were not on disk
      at the start are downloaded. */
  lemma {:induction false} EverythingHad(dir: string, entries: seq<L.Entry>, sources: nat -> Source, files: D.Files,
          digest: Digest, payloads: nat -> Bytes)
    requires AllSeparate(entries)
    requires forall k :: 0 <= k < |entries| ==> Available(dir, entries[k], sources(k), files, digest, payloads(k))
    ensures var ends := ManifestRun(dir, entries, sources, files, digest).1;
      forall k :: 0 <= k < |entries| ==>
        ends[k] == if OnDisk(dir, entries[k], files, digest) then Matched else Downloaded
    decreases |entries|
  {
    hide EntryRun, Available, OnDisk, L.FullPath;
    if entries != [] {
      var n := |entries| - 1;
      var most := entries[..n];
      assert forall k :: 0 <= k < n ==> most[k] == entries[k];
      EverythingHad(dir, most, sources, files, digest, payloads);
      var before := ManifestRun(dir, most, sources, files, digest).0;
      RunKeepsOthers(dir, most, sources, files, digest, entries[n]);
      StillAvailable(dir, entries[n], sources(n), files, before, digest, payloads(n));
      AvailableEnds(dir, entries[n], sources(n), before, digest, payloads(n));
    }
  }

  /** So every record ends Cached, and none is counted as failed. */
  lemma AvailableManifest(dir: string, entries: seq<L.Entry>, sources: nat -> Source, files: D.Files, digest: Digest,
          payloads: nat -> Bytes, describe: D.Failure -> string)
    requires AllSeparate(entries)
    requires forall k :: 0 <= k < |entries| ==> Available(dir, entries[k], sources(k), files, digest, payloads(k))
    ensures var (after, ends) := ManifestRun(dir, entries, sources, files, digest);
      var now := Settling(R.ManifestTable(entries), entries, ends, describe);
      && Tally(ends).failed == 0
      && now.Keys == R.ManifestTable(entries).Keys
      && forall id :: id in now ==> now[id].state == RS.Cached && Intact(dir, now[id].entry, after, digest)
  {
    hide ManifestRun, Settling, Tally, Available, Intact, OnDisk;
    var (after, ends) := ManifestRun(dir, entries, sources, files, digest);
    var t := R.ManifestTable(entries);
    EverythingHad(dir, entries, sources, files, digest, payloads);
    TallyCounts(ends);
    RunIsApplied(dir, entries, sources, files, digest, describe);
    ManifestPending(entries);
    NoneFails(t, entries, ends, describe);
  }

  lemma NoneFails(t: L.Table, entries: seq<L.Entry>, ends: seq<EntryEnd>, describe: D.Failure -> string)
    requires |ends| == |entries| && forall x :: x in t ==> t[x].state == RS.Pending
    requires forall k :: 0 <= k < |ends| ==> !ends[k].Failed?
    ensures var now := Settling(t, entries, ends, describe);
      now.Keys == t.Keys && forall id :: id in now ==> now[id].state != RS.Failed
  {
    hide Settling;
    SettlingUnsettled(t, entries, ends, describe);
    var now := Settling(t, entries, ends, describe);
    forall id | id in now ensures now[id].state != RS.Failed {
      SettledExactly(t, entries, ends, describe, id);
    }
  }
}

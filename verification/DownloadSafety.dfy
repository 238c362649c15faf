/** What no server can make a download do. */
module DownloadSafety {
  import opened Wrappers
  import opened Octets
  import opened Download

  // ---------- only the partial file and, once verified, the destination ----------

  /** Nothing but the partial file differs. */
  predicate SameButPartial(a: Files, b: Files, req: Request) { a - {PartialPath(req)} == b - {PartialPath(req)} }

  ghost predicate OnlyPartialTouched(before: Files, p: Progress, req: Request) {
    SameButPartial(before, p.files, req) && forall k :: 0 <= k < |p.history| ==>
      SameButPartial(before, p.history[k], req)
  }

  lemma StoreTouches(before: Files, p: Progress, req: Request, files: Files)
    requires OnlyPartialTouched(before, p, req) && SameButPartial(before, files, req)
    ensures OnlyPartialTouched(before, Store(p, files), req)
  {
  }

  lemma {:induction false} WrittenTouches(before: Files, p: Progress, req: Request, chunks: seq<Bytes>)
    requires OnlyPartialTouched(before, p, req) && PartialPath(req) in p.files
    ensures OnlyPartialTouched(before, Written(p, PartialPath(req), chunks), req)
    decreases |chunks|
  {
    if chunks != [] {
      WrittenTouches(before, p, req, chunks[..|chunks| - 1]);
      var q := Written(p, PartialPath(req), chunks[..|chunks| - 1]);
      StoreTouches(before, q, req, q.files[PartialPath(req) := q.files[PartialPath(req)] + chunks[|chunks| - 1]]);
    }
  }

  lemma ReceivedTouches(before: Files, p: Progress, req: Request, r: Reply)
    requires OnlyPartialTouched(before, p, req)
    ensures OnlyPartialTouched(before, Received(p, PartialPath(req), r), req)
  {
    if Writes(r) {
      StoreTouches(before, p, req, Opened(p.files, PartialPath(req), r));
      WrittenTouches(before, Store(p, Opened(p.files, PartialPath(req), r)), req, r.chunks);
    }
  }

  lemma {:induction false} TriedTouches(before: Files, p: Progress, req: Request, server: Server, attempt: nat,
          offset: nat)
    requires attempt < Attempts(req) && OnlyPartialTouched(before, p, req)
    ensures OnlyPartialTouched(before, Tried(p, req, server, attempt, offset).0, req)
    decreases Attempts(req) - attempt
  {
    var reply := server(attempt, offset);
    var q := Received(Asked(p, offset), PartialPath(req), reply);
    ReceivedTouches(before, Asked(p, offset), req, reply);
    StoreTouches(before, q, req, q.files - {PartialPath(req)});
    if attempt + 1 < Attempts(req) {
      TriedTouches(before, Discarded(q, req), req, server, attempt + 1, 0);
      TriedTouches(before, Announce(q, SInterrupted), req, server, attempt + 1, PartialSize(q.files, req));
    }
  }

  /** The destination is as it was or holds bytes that pass every check; other files are as they were. */
  ghost predicate Safe(before: Files, now: Files, req: Request, digest: Digest) {
    && (forall path :: path != req.destPath && path != PartialPath(req) ==> SameAt(before, now, path))
    && (SameAt(before, now, req.destPath) || (req.destPath in now && Passes(req, digest, now[req.destPath])))
  }

  predicate SameAt(a: Files, b: Files, path: string) {
    (path in a <==> path in b) && (path in a ==> a[path] == b[path])
  }

  lemma TouchedIsSafe(before: Files, now: Files, req: Request, digest: Digest)
    requires SameButPartial(before, now, req)
    ensures Safe(before, now, req, digest) && SameAt(before, now, req.destPath)
  {
    forall path | path != PartialPath(req) ensures SameAt(before, now, path) {
      assert path in before <==> path in before - {PartialPath(req)};
      assert path in now <==> path in now - {PartialPath(req)};
      if path in before { assert (before - {PartialPath(req)})[path] == (now - {PartialPath(req)})[path]; }
    }
    assert |PartialPath(req)| != |req.destPath|;
  }

  /** Safety against any server: at every moment the destination is untouched or verified, nothing else is
      touched, success means the destination passes, failure means it is untouched. */
  lemma SafeAgainstAnyServer(files: Files, req: Request, server: Server, digest: Digest, renameError: Option<string>)
    ensures var (p, r) := Downloaded(Fresh(files), req, server, digest, renameError);
      && (forall k :: 0 <= k < |p.history| ==> Safe(files, p.history[k], req, digest))
      && Safe(files, p.files, req, digest)
      && (r.Done? ==> FileMatchesExpected(p.files, req, digest))
      && (r.Failed? ==> SameAt(files, p.files, req.destPath))
  {
    var (p, r) := Downloaded(Fresh(files), req, server, digest, renameError);
    if FileMatchesExpected(files, req, digest) {
      TouchedIsSafe(files, files, req, digest);
    } else {
      var q := Prepared(Fresh(files), req);
      var t := Tried(q, req, server, 0, PartialSize(q.files, req));
      StoreTouches(files, Fresh(files), req, files - {PartialPath(req)});
      TriedTouches(files, q, req, server, 0, PartialSize(q.files, req));
      EndsSafely(files, t.0, t.1, req, digest, renameError);
    }
  }

  lemma EndsSafely(files: Files, t: Progress, ending: Ending, req: Request, digest: Digest, renameError: Option<string>)
    requires OnlyPartialTouched(files, t, req) && (ending.Fetched? ==> PartialPath(req) in t.files)
    ensures var (p, r) := if ending.Fetched? then Verified(t, req, digest, renameError, ending.resumed)
      else (t, Result.Failed(ending.error));
      && (forall k :: 0 <= k < |p.history| ==> Safe(files, p.history[k], req, digest))
      && Safe(files, p.files, req, digest)
      && (r.Done? ==> FileMatchesExpected(p.files, req, digest))
      && (r.Failed? ==> SameAt(files, p.files, req.destPath))
  {
    forall k | 0 <= k < |t.history| ensures Safe(files, t.history[k], req, digest) {
      TouchedIsSafe(files, t.history[k], req, digest);
    }
    TouchedIsSafe(files, t.files, req, digest);
    TouchedIsSafe(files, t.files - {PartialPath(req)}, req, digest);
    if ending.Fetched? && Passes(req, digest, t.files[PartialPath(req)]) {
      InstalledIsSafe(files, t.files, req, digest, t.files[PartialPath(req)]);
    }
  }

  lemma InstalledIsSafe(before: Files, now: Files, req: Request, digest: Digest, bytes: Bytes)
    requires SameButPartial(before, now, req) && Passes(req, digest, bytes)
    ensures var after := now[req.destPath := bytes] - {PartialPath(req)};
      Safe(before, after, req, digest) && FileMatchesExpected(after, req, digest)
  {
    TouchedIsSafe(before, now, req, digest);
    assert |PartialPath(req)| != |req.destPath|;
    var after := now[req.destPath := bytes] - {PartialPath(req)};
    forall path
      ensures SameAt(before, now, path) && path != req.destPath && path != PartialPath(req) ==>
        SameAt(before, after, path)
    {
    }
  }

  // ---------- requests ----------

  /** At most max(1, maxAttempts) requests, and each asks for exactly the bytes after those on disk. */
  lemma {:induction false} RequestsAreBounded(p: Progress, req: Request, server: Server, attempt: nat, offset: nat)
    requires attempt < Attempts(req) && offset == PartialSize(p.files, req)
    requires forall k :: 0 <= k < |p.asks| ==> p.asks[k].offset == PartialSize(p.asks[k].files, req)
    ensures var t := Tried(p, req, server, attempt, offset).0;
      && |p.asks| < |t.asks| <= |p.asks| + Attempts(req) - attempt
      && (forall k :: 0 <= k < |t.asks| ==> t.asks[k].offset == PartialSize(t.asks[k].files, req))
    decreases Attempts(req) - attempt
  {
    var reply := server(attempt, offset);
    var q := Received(Asked(p, offset), PartialPath(req), reply);
    ReceivedAsksNothing(Asked(p, offset), PartialPath(req), reply);
    if attempt + 1 < Attempts(req) {
      RequestsAreBounded(Discarded(q, req), req, server, attempt + 1, 0);
      RequestsAreBounded(Announce(q, SInterrupted), req, server, attempt + 1, PartialSize(q.files, req));
    }
  }

  lemma {:induction false} WrittenAsksNothing(p: Progress, path: string, chunks: seq<Bytes>)
    requires path in p.files
    ensures Written(p, path, chunks).asks == p.asks && Written(p, path, chunks).states == p.states
    decreases |chunks|
  {
    if chunks != [] { WrittenAsksNothing(p, path, chunks[..|chunks| - 1]); }
  }

  lemma ReceivedAsksNothing(p: Progress, path: string, r: Reply)
    ensures Received(p, path, r).asks == p.asks && Received(p, path, r).states == p.states
  {
    if Writes(r) { WrittenAsksNothing(Store(p, Opened(p.files, path, r)), path, r.chunks); }
  }

  lemma DownloadAsks(files: Files, req: Request, server: Server, digest: Digest, renameError: Option<string>)
    ensures var (p, r) := Downloaded(Fresh(files), req, server, digest, renameError);
      && |p.asks| <= (if req.maxAttempts > 1 then req.maxAttempts else 1)
      && (p.asks == [] <==> FileMatchesExpected(files, req, digest))
      && (forall k :: 0 <= k < |p.asks| ==> p.asks[k].offset == PartialSize(p.asks[k].files, req))
  {
    var q := Prepared(Fresh(files), req);
    RequestsAreBounded(q, req, server, 0, PartialSize(q.files, req));
  }

  // ---------- announced states ----------

  /** The automaton of announced states. A resumed request never follows another request directly: between
      them there is an interruption, or the restart that makes it a plain one. */
  predicate Follows(a: DownloadState, b: DownloadState) {
    match a
    case SIdle => b.SCompleted? || b.SDownloading? || b.SResuming?
    case SDownloading => b.SDownloading? || b.SInterrupted? || b.SVerifying? || b.SFailed?
    case SResuming => b.SDownloading? || b.SInterrupted? || b.SVerifying? || b.SFailed?
    case SInterrupted => b.SDownloading? || b.SResuming? || b.SFailed?
    case SVerifying => b.SCompleted? || b.SFailed?
    case SCompleted => false
    case SFailed => false
  }

  function Last(states: seq<DownloadState>): DownloadState { if states == [] then SIdle else states[|states| - 1] }

  predicate Legal(states: seq<DownloadState>) {
    states == [] || (Legal(states[..|states| - 1]) && Follows(Last(states[..|states| - 1]), states[|states| - 1]))
  }

  /** p announced a legal sequence and stands at s. */
  predicate At(p: Progress, s: DownloadState) { Legal(p.states) && Last(p.states) == s }

  lemma AnnouncedAt(p: Progress, from: DownloadState, s: DownloadState)
    requires At(p, from) && Follows(from, s)
    ensures At(Announce(p, s), s)
  {
    assert (p.states + [s])[..|p.states|] == p.states;
  }

  predicate InRequest(p: Progress) { At(p, SDownloading) || At(p, SResuming) }

  predicate MayRequest(p: Progress, offset: nat) {
    At(p, SIdle) || At(p, SInterrupted) || (offset == 0 && InRequest(p))
  }

  lemma RequestIsLegal(p: Progress, req: Request, offset: nat, reply: Reply)
    requires MayRequest(p, offset)
    ensures InRequest(Received(Asked(p, offset), PartialPath(req), reply))
  {
    var s := if offset > 0 then SResuming else SDownloading;
    AnnouncedAt(p, Last(p.states), s);
    ReceivedAsksNothing(Asked(p, offset), PartialPath(req), reply);
  }

  lemma FromRequest(p: Progress, s: DownloadState)
    requires InRequest(p) && (s.SInterrupted? || s.SVerifying? || s.SFailed?)
    ensures At(Announce(p, s), s)
  {
    AnnouncedAt(p, Last(p.states), s);
  }

  lemma {:induction false} TriedIsLegal(p: Progress, req: Request, server: Server, attempt: nat, offset: nat)
    requires attempt < Attempts(req) && MayRequest(p, offset)
    ensures var (t, ending) := Tried(p, req, server, attempt, offset);
      if ending.Fetched? then InRequest(t) else At(t, SFailed)
    decreases Attempts(req) - attempt
  {
    hide Legal, Last, Received, OutcomeOf;
    var reply := server(attempt, offset);
    var q := Received(Asked(p, offset), PartialPath(req), reply);
    RequestIsLegal(p, req, offset, reply);
    match OutcomeOf(reply)
    case Completed =>
    case HardFailure(_) => FromRequest(Discarded(q, req), SFailed);
    case RestartFromZero(_) =>
      FromRequest(Discarded(q, req), SFailed);
      if attempt + 1 < Attempts(req) { TriedIsLegal(Discarded(q, req), req, server, attempt + 1, 0); }
    case Interrupted(_) =>
      FromRequest(q, SInterrupted);
      AnnouncedAt(Announce(q, SInterrupted), SInterrupted, SFailed);
      if attempt + 1 < Attempts(req) {
        TriedIsLegal(Announce(q, SInterrupted), req, server, attempt + 1, PartialSize(q.files, req));
      }
  }

  lemma VerifiedIsLegal(t: Progress, req: Request, digest: Digest, renameError: Option<string>, resumed: bool)
    requires InRequest(t) && PartialPath(req) in t.files
    ensures var (p, r) := Verified(t, req, digest, renameError, resumed); At(p, if r.Done? then SCompleted else SFailed)
  {
    var v := Announce(t, SVerifying);
    FromRequest(t, SVerifying);
    AnnouncedAt(v, SVerifying, SFailed);
    AnnouncedAt(Discarded(v, req), SVerifying, SFailed);
    AnnouncedAt(Store(v, t.files[req.destPath := t.files[PartialPath(req)]] - {PartialPath(req)}), SVerifying,
      SCompleted);
  }

  /** Whatever the server does, the announced states form a run of the automaton that ends in Completed
      exactly on success and in Failed otherwise. */
  lemma StatesFormARun(files: Files, req: Request, server: Server, digest: Digest, renameError: Option<string>)
    ensures var (p, r) := Downloaded(Fresh(files), req, server, digest, renameError);
      Legal(p.states) && Last(p.states) == if r.Done? then SCompleted else SFailed
  {
    if FileMatchesExpected(files, req, digest) {
      AnnouncedAt(Fresh(files), SIdle, SCompleted);
    } else {
      var q := Prepared(Fresh(files), req);
      TriedIsLegal(q, req, server, 0, PartialSize(q.files, req));
      var (t, ending) := Tried(q, req, server, 0, PartialSize(q.files, req));
      if ending.Fetched? { VerifiedIsLegal(t, req, digest, renameError, ending.resumed); }
    }
  }
}

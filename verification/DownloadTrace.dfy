/** A download call from outside: which requests it makes, what each leaves on disk, when it stops and with what, all in
    terms of the statuses and bytes that arrive (runtime/src/HttpDownloader.cpp:79-335). */
module DownloadTrace {
  import opened Wrappers
  import opened Octets
  import opened Download
  import opened DownloadSafety
  import opened DownloadResume
  import opened DownloadExhausted

  /** An answer that ends the call at once: any status below 500 but 200, 206 and 416. */
  predicate Fatal(r: Reply) { r.Response? && r.status < 500 && r.status !in {200, 206, 416} }

  /** An answer with nothing missing, as far as the transfer can tell. */
  predicate Complete(r: Reply) {
    r.Response? && r.status in {200, 206} && r.writable && r.dropped.None?
      && (r.contentLength.None? || r.contentLength.value == |Joined(r.chunks)|)
  }

  /** What a request answered so leaves on disk: a 206 continues the partial file, a 200 replaces it, a 416 and an
      answer that ends the call remove it, and nothing else touches it. */
  function Behind(files: Files, req: Request, r: Reply): Files {
    var path := req.destPath + ".partial";
    if r.NoReply? || r.status >= 500 then files
    else if r.status == 206 && r.writable then files[path := Held(files, req) + Joined(r.chunks)]
    else if r.status == 200 && r.writable then files[path := Joined(r.chunks)]
    else if r.status == 200 || r.status == 206 then files
    else files - {path}
  }

  /** What an answer that is neither is called when it was the last one allowed. */
  function Complaint(r: Reply): Failure
    requires !Fatal(r) && !Complete(r)
  {
    if r.NoReply? then Unreachable(r.error)
    else if r.status == 416 || r.status >= 500 then HttpStatus(r.status)
    else if !r.writable then CouldNotOpen
    else if r.dropped.Some? then Dropped(r.dropped.value)
    else ShortBody(|Joined(r.chunks)|, r.contentLength.value)
  }

  // ---------- one request ----------

  lemma OutcomeExactly(r: Reply)
    ensures OutcomeOf(r).Completed? <==> Complete(r)
    ensures OutcomeOf(r).HardFailure? <==> Fatal(r)
    ensures OutcomeOf(r).RestartFromZero? <==> r.Response? && r.status == 416
    ensures OutcomeOf(r).HardFailure? ==> OutcomeOf(r).error == HttpStatus(r.status)
    ensures OutcomeOf(r).Interrupted? || OutcomeOf(r).RestartFromZero? ==> OutcomeOf(r).error == Complaint(r)
  {
  }

  lemma LeftBehind(p: Progress, req: Request, offset: nat, r: Reply)
    ensures var q := Received(Asked(p, offset), PartialPath(req), r);
      && q.asks == p.asks + [Ask(offset, p.files)]
      && (if OutcomeOf(r).HardFailure? || OutcomeOf(r).RestartFromZero? then Discarded(q, req).files else q.files) ==
        Behind(p.files, req, r)
  {
    var a := Asked(p, offset);
    ReceivedAsksNothing(a, PartialPath(req), r);
    if Writes(r) {
      var start := Store(a, Opened(p.files, PartialPath(req), r));
      WrittenIs(start, PartialPath(req), r.chunks);
      assert [] + Joined(r.chunks) == Joined(r.chunks);
    }
  }

  // ---------- the requests of a call ----------

  /** Request k was not the last: its answer neither completed nor ended the call, and the next one found what it
      had left. */
  ghost predicate GoesOn(t: Progress, req: Request, server: Server, k: nat)
    requires k + 1 < |t.asks|
  {
    var r := ReplyTo(t, server, k);
    !Fatal(r) && !Complete(r) && t.asks[k + 1].files == Behind(t.asks[k].files, req, r)
  }

  ghost predicate EndsAs(t: Progress, ending: Ending, req: Request, server: Server)
    requires t.asks != []
  {
    var r := ReplyTo(t, server, |t.asks| - 1);
    && t.files == Behind(t.asks[|t.asks| - 1].files, req, r)
    && match ending
       case Fetched(resumed) => Complete(r) && resumed == (r.status == 206)
       case Stopped(e) => Fatal(r) && e == HttpStatus(r.status)
       case GaveUp(e) => !Fatal(r) && !Complete(r) && |t.asks| == Attempts(req) && e == Complaint(r)
  }

  ghost predicate Traced(p: Progress, t: Progress, ending: Ending, req: Request, server: Server, attempt: nat,
          offset: nat) {
    && p.asks <= t.asks && attempt < |t.asks| <= Attempts(req) && t.asks[attempt] == Ask(offset, p.files)
    && (forall k: nat :: attempt <= k && k + 1 < |t.asks| ==> GoesOn(t, req, server, k))
    && EndsAs(t, ending, req, server)
  }

  lemma {:induction false} TriedIsTraced(p: Progress, req: Request, server: Server, attempt: nat, offset: nat)
    requires attempt < Attempts(req) && |p.asks| == attempt
    ensures var (t, ending) := Tried(p, req, server, attempt, offset);
      Traced(p, t, ending, req, server, attempt, offset)
    decreases Attempts(req) - attempt, 1
  {
    hide Received, OutcomeOf, Behind, Fatal, Complete, Complaint;
    var reply := server(attempt, offset);
    var q := Received(Asked(p, offset), PartialPath(req), reply);
    OutcomeExactly(reply);
    LeftBehind(p, req, offset, reply);
    match OutcomeOf(reply)
    case Completed => assert q.asks[attempt] == Ask(offset, p.files);
    case HardFailure(_) => assert q.asks[attempt] == Ask(offset, p.files);
    case RestartFromZero(e) => OnwardIsTraced(p, Discarded(q, req), req, server, attempt, offset, 0, e);
    case Interrupted(e) =>
      OnwardIsTraced(p, Announce(q, SInterrupted), req, server, attempt, offset, PartialSize(q.files, req), e);
  }

  lemma {:induction false} OnwardIsTraced(p: Progress, q: Progress, req: Request, server: Server, attempt: nat,
          offset: nat, next: nat, e: Failure)
    requires attempt < Attempts(req) && |p.asks| == attempt && q.asks == p.asks + [Ask(offset, p.files)]
    requires !Fatal(server(attempt, offset)) && !Complete(server(attempt, offset))
    requires e == Complaint(server(attempt, offset)) && q.files == Behind(p.files, req, server(attempt, offset))
    ensures var (t, ending) := Onward(q, req, server, attempt, next, e);
      Traced(p, t, ending, req, server, attempt, offset)
    decreases Attempts(req) - attempt, 0
  {
    hide Received, OutcomeOf, Behind, Fatal, Complete, Complaint;
    assert q.asks[attempt] == Ask(offset, p.files);
    if attempt + 1 < Attempts(req) {
      TriedIsTraced(q, req, server, attempt + 1, next);
      var (t, ending) := Tried(q, req, server, attempt + 1, next);
      PrefixFirst(p.asks, Ask(offset, p.files), t.asks);
      assert GoesOn(t, req, server, attempt);
    }
  }

  // ---------- the whole call ----------

  /** The call finds the file it is asked for. */
  predicate Found(files: Files, req: Request, digest: Digest) {
    && req.destPath in files && (req.expectedSize > 0 ==> |files[req.destPath]| == req.expectedSize)
    && (req.expectedHash != "" ==> digest(files[req.destPath]) == req.expectedHash)
  }

  /** What the first request finds: a partial file no shorter than the announced size is not worth resuming. */
  function AtFirst(files: Files, req: Request): Files {
    if req.expectedSize > 0 && |Held(files, req)| >= req.expectedSize then files - {req.destPath + ".partial"}
    else files
  }

  /** The requests one after the other. */
  ghost predicate Requests(p: Progress, files: Files, req: Request, server: Server) {
    && 1 <= |p.asks| <= (if req.maxAttempts > 1 then req.maxAttempts else 1)
    && p.asks[0].files == AtFirst(files, req)
    && (forall k: nat :: k < |p.asks| ==> p.asks[k].offset == |Held(p.asks[k].files, req)|)
    && (forall k: nat :: k + 1 < |p.asks| ==> GoesOn(p, req, server, k))
  }

  /** How the call ends after a complete last answer: size, digest and rename, in this order. */
  function Concluded(files: Files, req: Request, digest: Digest, renameError: Option<string>,
          resumed: bool): (Files, Result) {
    var bytes := Held(files, req);
    var path := req.destPath + ".partial";
    if req.expectedSize > 0 && |bytes| != req.expectedSize
    then (files - {path}, Failed(SizeMismatch(req.expectedSize, |bytes|)))
    else if req.expectedHash != "" && digest(bytes) != req.expectedHash
    then (files - {path}, Failed(HashMismatch(req.expectedHash, digest(bytes))))
    else if renameError.Some? then (files, Failed(CouldNotFinalize(renameError.value)))
    else (files[req.destPath := bytes] - {path}, Done(resumed))
  }

  ghost predicate Ends(p: Progress, result: Result, req: Request, server: Server, digest: Digest,
          renameError: Option<string>)
    requires p.asks != []
  {
    var last := p.asks[|p.asks| - 1];
    var r := ReplyTo(p, server, |p.asks| - 1);
    var left := Behind(last.files, req, r);
    if Complete(r) then (p.files, result) == Concluded(left, req, digest, renameError, r.status == 206)
    else
      && p.files == left
      && if Fatal(r) then result == Failed(HttpStatus(r.status))
         else
           && |p.asks| == (if req.maxAttempts > 1 then req.maxAttempts else 1)
           && result == Failed(DidNotComplete(|p.asks|, Complaint(r)))
  }

  /** A call, exactly: nothing is asked for a file that is there; otherwise it asks again after every answer that is
      neither complete nor final, from what that answer left, until the attempts run out. */
  lemma CallExactly(files: Files, req: Request, server: Server, digest: Digest, renameError: Option<string>)
    ensures var (p, result) := Downloaded(Fresh(files), req, server, digest, renameError);
      if Found(files, req, digest) then p.asks == [] && p.files == files && result == Done(false)
      else Requests(p, files, req, server) && Ends(p, result, req, server, digest, renameError)
  {
    if !Found(files, req, digest) {
      var q := Prepared(Fresh(files), req);
      var offset := PartialSize(q.files, req);
      var (t, ending) := Tried(q, req, server, 0, offset);
      TriedIsTraced(q, req, server, 0, offset);
      RequestsAreBounded(q, req, server, 0, offset);
      EndsByTrace(t, ending, req, server, digest, renameError);
      EndedKeepsAsks(t, ending, req, digest, renameError);
      assert q.files == AtFirst(files, req);
      var p := Ended(t, ending, req, digest, renameError).0;
      forall k: nat | k + 1 < |p.asks| ensures GoesOn(p, req, server, k) {
        assert GoesOn(t, req, server, k);
      }
    }
  }

  lemma EndedKeepsAsks(t: Progress, ending: Ending, req: Request, digest: Digest, renameError: Option<string>)
    requires ending.Fetched? ==> PartialPath(req) in t.files
    ensures Ended(t, ending, req, digest, renameError).0.asks == t.asks
  {
  }

  lemma EndsByTrace(t: Progress, ending: Ending, req: Request, server: Server, digest: Digest,
          renameError: Option<string>)
    requires t.asks != [] && EndsAs(t, ending, req, server)
    requires ending.Fetched? ==> PartialPath(req) in t.files
    ensures var (p, result) := Ended(t, ending, req, digest, renameError);
      p.asks == t.asks && Ends(p, result, req, server, digest, renameError)
  {
    hide Behind, Fatal, Complete, Complaint;
    EndedKeepsAsks(t, ending, req, digest, renameError);
    assert Complete(ReplyTo(t, server, |t.asks| - 1)) ==> !Fatal(ReplyTo(t, server, |t.asks| - 1)) by {
      OutcomeExactly(ReplyTo(t, server, |t.asks| - 1));
    }
  }

  // ---------- what follows ----------

  /** After an answer of 500 or more with attempts left, the same bytes are asked for again. */
  lemma ServerErrorsAreRetried(files: Files, req: Request, server: Server, digest: Digest,
          renameError: Option<string>, k: nat)
    requires !Found(files, req, digest) && k + 1 < req.maxAttempts
    requires var p := Downloaded(Fresh(files), req, server, digest, renameError).0;
      k < |p.asks| && ReplyTo(p, server, k).Response? && ReplyTo(p, server, k).status >= 500
    ensures var p := Downloaded(Fresh(files), req, server, digest, renameError).0;
      k + 1 < |p.asks| && p.asks[k + 1] == p.asks[k]
  {
    CallExactly(files, req, server, digest, renameError);
    var p := Downloaded(Fresh(files), req, server, digest, renameError).0;
    if k + 1 < |p.asks| { assert GoesOn(p, req, server, k); }
  }

  /** A call ends with a bare status exactly when its last answer is one that ends it at once. */
  lemma StatusEndsCall(files: Files, req: Request, server: Server, digest: Digest, renameError: Option<string>)
    requires !Found(files, req, digest)
    ensures var (p, result) := Downloaded(Fresh(files), req, server, digest, renameError);
      p.asks != [] &&
      (result.Failed? && result.error.HttpStatus? <==> Fatal(ReplyTo(p, server, |p.asks| - 1)))
  {
    CallExactly(files, req, server, digest, renameError);
  }

  // ---------- announced states ----------

  /** What request k announces: that it goes out, and that it was interrupted. */
  function AnnouncedBy(t: Progress, server: Server, k: nat): seq<DownloadState>
    requires k < |t.asks|
  {
    var r := ReplyTo(t, server, k);
    [if t.asks[k].offset > 0 then SResuming else SDownloading]
      + if Fatal(r) || Complete(r) || (r.Response? && r.status == 416) then [] else [SInterrupted]
  }

  function AnnouncedFrom(t: Progress, server: Server, k: nat): seq<DownloadState>
    requires k <= |t.asks|
    decreases |t.asks| - k
  {
    if k == |t.asks| then [] else AnnouncedBy(t, server, k) + AnnouncedFrom(t, server, k + 1)
  }

  ghost predicate Announces(p: Progress, t: Progress, ending: Ending, server: Server, attempt: nat) {
    attempt <= |t.asks| &&
    t.states == p.states + (AnnouncedFrom(t, server, attempt) + if ending.Fetched? then [] else [SFailed])
  }

  lemma FirstAnnounced(p: Progress, q: Progress, t: Progress, ending: Ending, server: Server, attempt: nat)
    requires attempt < |t.asks| && q.states == p.states + AnnouncedBy(t, server, attempt)
    requires Announces(q, t, ending, server, attempt + 1)
    ensures Announces(p, t, ending, server, attempt)
  {
    var rest := AnnouncedFrom(t, server, attempt + 1);
    var tail := if ending.Fetched? then [] else [SFailed];
    Assoc(p.states, AnnouncedBy(t, server, attempt), rest + tail);
    Assoc(AnnouncedBy(t, server, attempt), rest, tail);
  }

  lemma EndAnnounced(q: Progress, t: Progress, ending: Ending, server: Server)
    requires t.states == q.states + if ending.Fetched? then [] else [SFailed]
    ensures Announces(q, t, ending, server, |t.asks|)
  {
    var tail := if ending.Fetched? then [] else [SFailed];
    assert [] + tail == tail;
  }

  lemma {:induction false} TriedAnnounces(p: Progress, req: Request, server: Server, attempt: nat, offset: nat)
    requires attempt < Attempts(req) && |p.asks| == attempt
    ensures var (t, ending) := Tried(p, req, server, attempt, offset); Announces(p, t, ending, server, attempt)
    decreases Attempts(req) - attempt
  {
    hide Received, OutcomeOf, Behind, Fatal, Complete, Complaint, AnnouncedFrom;
    var reply := server(attempt, offset);
    var q := Received(Asked(p, offset), PartialPath(req), reply);
    var (t, ending) := Tried(p, req, server, attempt, offset);
    ReceivedAsksNothing(Asked(p, offset), PartialPath(req), reply);
    OutcomeExactly(reply);
    TriedIsTraced(p, req, server, attempt, offset);
    assert ReplyTo(t, server, attempt) == reply && t.asks[attempt].offset == offset;
    var goes := [if offset > 0 then SResuming else SDownloading];
    assert q.states == p.states + goes && goes + [] == goes;
    match OutcomeOf(reply)
    case Completed =>
      EndAnnounced(q, t, ending, server);
      FirstAnnounced(p, q, t, ending, server, attempt);
    case HardFailure(_) =>
      EndAnnounced(q, t, ending, server);
      FirstAnnounced(p, q, t, ending, server, attempt);
    case RestartFromZero(e) =>
      var next := Discarded(q, req);
      if attempt + 1 < Attempts(req) {
        TriedAnnounces(next, req, server, attempt + 1, 0);
      } else {
        EndAnnounced(next, t, ending, server);
      }
      FirstAnnounced(p, next, t, ending, server, attempt);
    case Interrupted(e) =>
      var next := Announce(q, SInterrupted);
      assert next.states == p.states + (goes + [SInterrupted]);
      if attempt + 1 < Attempts(req) {
        TriedAnnounces(next, req, server, attempt + 1, PartialSize(q.files, req));
      } else {
        EndAnnounced(next, t, ending, server);
      }
      FirstAnnounced(p, next, t, ending, server, attempt);
  }

  /** Every announcement of a call: each request, each interruption, the verification of what is complete, the end. */
  lemma AnnouncedExactly(files: Files, req: Request, server: Server, digest: Digest, renameError: Option<string>)
    ensures var (p, result) := Downloaded(Fresh(files), req, server, digest, renameError);
      p.states == AnnouncedFrom(p, server, 0)
        + (if p.asks != [] && Complete(ReplyTo(p, server, |p.asks| - 1)) then [SVerifying] else [])
        + [if result.Done? then SCompleted else SFailed]
  {
    hide AnnouncedFrom, Complete, Tried, EndsAs;
    if Found(files, req, digest) {
      NothingAnnounced(Downloaded(Fresh(files), req, server, digest, renameError).0, server);
    } else {
      var q := Prepared(Fresh(files), req);
      var offset := PartialSize(q.files, req);
      var (t, ending) := Tried(q, req, server, 0, offset);
      TriedIsTraced(q, req, server, 0, offset);
      TriedAnnounces(q, req, server, 0, offset);
      EndedAnnounces(t, ending, req, server, digest, renameError);
      assert q.states == [];
      SameAnnounced(t, Ended(t, ending, req, digest, renameError).0, server, 0);
    }
  }

  lemma NothingAnnounced(p: Progress, server: Server)
    requires p.asks == [] && p.states == [SCompleted]
    ensures p.states == AnnouncedFrom(p, server, 0) + [] + [SCompleted]
  {
  }

  lemma {:induction false} SameAnnounced(t: Progress, p: Progress, server: Server, k: nat)
    requires p.asks == t.asks && k <= |t.asks|
    ensures AnnouncedFrom(p, server, k) == AnnouncedFrom(t, server, k)
    decreases |t.asks| - k
  {
    if k < |t.asks| { SameAnnounced(t, p, server, k + 1); }
  }

  lemma EndedAnnounces(t: Progress, ending: Ending, req: Request, server: Server, digest: Digest,
          renameError: Option<string>)
    requires t.asks != [] && EndsAs(t, ending, req, server) && Announces(Fresh(map[]), t, ending, server, 0)
    requires ending.Fetched? ==> PartialPath(req) in t.files
    ensures var (p, result) := Ended(t, ending, req, digest, renameError);
      && p.asks == t.asks
      && p.states == AnnouncedFrom(t, server, 0)
        + (if Complete(ReplyTo(t, server, |t.asks| - 1)) then [SVerifying] else [])
        + [if result.Done? then SCompleted else SFailed]
  {
    hide Behind, Complaint, AnnouncedFrom;
    var all := AnnouncedFrom(t, server, 0);
    assert t.states == all + if ending.Fetched? then [] else [SFailed];
    assert all + [] == all;
  }
}

/** The downloader in its own form: a retry loop over files that are appended to, truncated, removed and
    renamed (runtime/src/HttpDownloader.cpp), proved against Download. */
module HttpDownloader {
  import opened Wrappers
  import opened Octets
  import opened Download

  class Downloader {
    var files: Files
    var states: seq<DownloadState>
    ghost var history: seq<Files>
    ghost var asks: seq<Ask>

    ghost function State(): Progress reads this { Progress(files, history, states, asks) }

    constructor (files: Files)
      ensures State() == Fresh(files)
    {
      this.files, history, states, asks := files, [files], [], [];
    }

    method SetState(s: DownloadState)
      modifies this`states
      ensures State() == Announce(old(State()), s)
    {
      states := states + [s];
    }

    /** Every change to the disk goes through here. */
    method SetFiles(files': Files)
      modifies this`files, this`history
      ensures State() == Store(old(State()), files')
    {
      files, history := files', history + [files'];
    }

    method Matches(req: Request, digest: Digest) returns (ok: bool)
      ensures ok == FileMatchesExpected(files, req, digest)
    {
      if req.destPath !in files { return false; }
      if req.expectedSize > 0 && |files[req.destPath]| != req.expectedSize { return false; }
      if req.expectedHash != "" && digest(files[req.destPath]) != req.expectedHash { return false; }
      ok := true;
    }

    /** One GET: the status decides, the body is written chunk by chunk, and at the end the bytes that arrived
        are compared with the announced length. */
    method PerformSingleAttempt(partialPath: string, reply: Reply) returns (outcome: AttemptOutcome, usedRange: bool)
      modifies this
      ensures State() == Received(old(State()), partialPath, reply)
      ensures outcome == OutcomeOf(reply)
      ensures outcome == Completed ==> Writes(reply) && usedRange == (reply.status == 206)
    {
      usedRange := false;
      if reply.NoReply? { return Interrupted(Unreachable(reply.error)), false; }
      if reply.status == 416 { return RestartFromZero(HttpStatus(416)), false; }
      if reply.status == 404 { return HardFailure(HttpStatus(404)), false; }
      if reply.status >= 500 { return Interrupted(HttpStatus(reply.status)), false; }
      if reply.status != 200 && reply.status != 206 { return HardFailure(HttpStatus(reply.status)), false; }
      var appendMode := reply.status == 206;
      if !reply.writable { return Interrupted(CouldNotOpen), false; }
      SetFiles(files[partialPath := if appendMode && partialPath in files then files[partialPath] else []]);
      ghost var start := State();
      var total := 0;
      for i := 0 to |reply.chunks|
        invariant partialPath in start.files && State() == Written(start, partialPath, reply.chunks[..i])
        invariant total == |Joined(reply.chunks[..i])|
      {
        assert reply.chunks[..i + 1][..i] == reply.chunks[..i];
        SetFiles(files[partialPath := files[partialPath] + reply.chunks[i]]);
        total := total + |reply.chunks[i]|;
      }
      assert reply.chunks[..|reply.chunks|] == reply.chunks;
      if reply.dropped.Some? { return Interrupted(Dropped(reply.dropped.value)), appendMode; }
      if reply.contentLength.Some? && total != reply.contentLength.value {
        return Interrupted(ShortBody(total, reply.contentLength.value)), appendMode;
      }
      return Completed, appendMode;
    }

    method Remove(path: string)
      modifies this`files, this`history
      ensures State() == Store(old(State()), old(files) - {path})
    {
      SetFiles(files - {path});
    }

    method BeginRequest(offset: nat)
      modifies this`states, this`asks
      ensures State() == Asked(old(State()), offset)
    {
      SetState(if offset > 0 then SResuming else SDownloading);
      asks := asks + [Ask(offset, files)];
    }

    /** The retry loop. */
    method TryAll(req: Request, server: Server, startOffset: nat) returns (ending: Ending)
      modifies this
      ensures (State(), ending) == Tried(old(State()), req, server, 0, startOffset)
    {
      ghost var first := Tried(State(), req, server, 0, startOffset);
      var partialPath := req.destPath + ".partial";
      var maxAttempts := if req.maxAttempts > 0 then req.maxAttempts else 1;
      var offset: nat, attempt: nat, lastError := startOffset, 0, CouldNotOpen;
      while attempt < maxAttempts
        invariant attempt <= maxAttempts && maxAttempts == Attempts(req)
        invariant attempt < maxAttempts ==> Tried(State(), req, server, attempt, offset) == first
        invariant attempt == maxAttempts ==> (Announce(State(), SFailed), GaveUp(lastError)) == first
      {
        BeginRequest(offset);
        var outcome, usedRange := PerformSingleAttempt(partialPath, server(attempt, offset));
        match outcome {
          case Completed =>
            return Fetched(usedRange);
          case HardFailure(e) =>
            Remove(partialPath);
            SetState(SFailed);
            return Stopped(e);
          case RestartFromZero(e) =>
            Remove(partialPath);
            offset, lastError := 0, e;
          case Interrupted(e) =>
            SetState(SInterrupted);
            lastError := e;
            offset := if partialPath in files then |files[partialPath]| else 0;
        }
        attempt := attempt + 1;
      }
      SetState(SFailed);
      return GaveUp(lastError);
    }

    method DownloadAndVerify(req: Request, server: Server, digest: Digest, renameError: Option<string>)
      returns (result: Result)
      modifies this
      ensures (State(), result) == Downloaded(old(State()), req, server, digest, renameError)
    {
      var matches := Matches(req, digest);
      if matches {
        SetState(SCompleted);
        return Done(false);
      }
      var partialPath := req.destPath + ".partial";
      var offset: nat := 0;
      if partialPath in files {
        if req.expectedSize > 0 && |files[partialPath]| >= req.expectedSize {
          Remove(partialPath);
        } else {
          offset := |files[partialPath]|;
        }
      }
      assert State() == Prepared(old(State()), req) && offset == PartialSize(files, req);
      var ending := TryAll(req, server, offset);
      match ending
      case Stopped(e) => return Failed(e);
      case GaveUp(e) => return Failed(DidNotComplete(Attempts(req), e));
      case Fetched(resumed) => result := Finalize(req, digest, renameError, resumed);
    }

    /** Size, then digest, then the rename: only a verified file gets the destination's name. */
    method Finalize(req: Request, digest: Digest, renameError: Option<string>, resumed: bool) returns (result: Result)
      requires PartialPath(req) in files
      modifies this
      ensures (State(), result) == Verified(old(State()), req, digest, renameError, resumed)
    {
      var partialPath := req.destPath + ".partial";
      SetState(SVerifying);
      var actualSize := |files[partialPath]|;
      if req.expectedSize > 0 && actualSize != req.expectedSize {
        Remove(partialPath);
        SetState(SFailed);
        return Failed(SizeMismatch(req.expectedSize, actualSize));
      }
      if req.expectedHash != "" {
        var actualHash := digest(files[partialPath]);
        if actualHash != req.expectedHash {
          Remove(partialPath);
          SetState(SFailed);
          return Failed(HashMismatch(req.expectedHash, actualHash));
        }
      }
      if renameError.Some? {
        SetState(SFailed);
        return Failed(CouldNotFinalize(renameError.value));
      }
      SetFiles(files[req.destPath := files[partialPath]] - {partialPath});
      SetState(SCompleted);
      return Done(resumed);
    }
  }
}

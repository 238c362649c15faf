/** A resumable, verified download as it unfolds: what every request, write and removal does to the files,
    for any server (runtime/src/HttpDownloader.cpp). The digest is a parameter. */
module Download {
  import opened Wrappers
  import opened Octets

  type Files = map<string, Bytes>

  datatype Request = Request(destPath: string, expectedSize: int, expectedHash: string, maxAttempts: int)

  /** What one GET comes to: no response at all, or a status and, for a body, the chunks that arrived, the
      announced length if any, whether the partial file could be opened, and whether the transfer broke off. */
  datatype Reply =
    | NoReply(error: string)
    | Response(status: nat, contentLength: Option<nat>, writable: bool, chunks: seq<Bytes>, dropped: Option<string>)

  /** The server may answer differently at every attempt and to every requested offset. */
  type Server = (nat, nat) -> Reply

  datatype Failure =
    | Unreachable(error: string)
    | HttpStatus(status: nat)
    | CouldNotOpen
    | Dropped(error: string)
    | ShortBody(received: nat, announced: nat)
    | DidNotComplete(attempts: nat, last: Failure)
    | SizeMismatch(expected: int, actual: nat)
    | HashMismatch(expectedHash: string, actualHash: string)
    | CouldNotFinalize(error: string)

  datatype AttemptOutcome =
    | Completed
    | Interrupted(error: Failure)
    | HardFailure(error: Failure)
    | RestartFromZero(error: Failure)

  datatype DownloadState = SIdle | SDownloading | SInterrupted | SResuming | SVerifying | SCompleted | SFailed

  datatype Result = Done(resumed: bool) | Failed(error: Failure)

  /** One request: the offset asked for, and the files at that moment. */
  datatype Ask = Ask(offset: nat, files: Files)

  /** The files, every state they went through, the states announced, the requests made. */
  datatype Progress = Progress(files: Files, history: seq<Files>, states: seq<DownloadState>, asks: seq<Ask>)

  function Store(p: Progress, files: Files): Progress { p.(files := files, history := p.history + [files]) }

  function Announce(p: Progress, s: DownloadState): Progress { p.(states := p.states + [s]) }

  function PartialPath(req: Request): string { req.destPath + ".partial" }

  function Attempts(req: Request): nat { if req.maxAttempts > 0 then req.maxAttempts else 1 }

  // ---------- one request ----------

  function OutcomeOf(r: Reply): AttemptOutcome {
    if r.NoReply? then Interrupted(Unreachable(r.error))
    else if r.status == 416 then RestartFromZero(HttpStatus(416))
    else if r.status == 404 then HardFailure(HttpStatus(404))
    else if r.status >= 500 then Interrupted(HttpStatus(r.status))
    else if r.status != 200 && r.status != 206 then HardFailure(HttpStatus(r.status))
    else if !r.writable then Interrupted(CouldNotOpen)
    else if r.dropped.Some? then Interrupted(Dropped(r.dropped.value))
    else if r.contentLength.Some? && |Joined(r.chunks)| != r.contentLength.value then
      Interrupted(ShortBody(|Joined(r.chunks)|, r.contentLength.value))
    else Completed
  }

  /** The body reaches the disk: a 206 is appended to what is there, a 200 replaces it. */
  predicate Writes(r: Reply) { r.Response? && r.status in {200, 206} && r.writable }

  function Opened(files: Files, path: string, r: Reply): Files
    requires Writes(r)
  {
    files[path := if r.status == 206 && path in files then files[path] else []]
  }

  function Written(p: Progress, path: string, chunks: seq<Bytes>): (q: Progress)
    requires path in p.files
    ensures path in q.files
  {
    if chunks == [] then p
    else
      var q := Written(p, path, chunks[..|chunks| - 1]);
      Store(q, q.files[path := q.files[path] + chunks[|chunks| - 1]])
  }

  function Received(p: Progress, path: string, r: Reply): (q: Progress)
    ensures Writes(r) ==> path in q.files
  {
    if Writes(r) then Written(Store(p, Opened(p.files, path, r)), path, r.chunks) else p
  }

  // ---------- the attempts ----------

  datatype Ending = Fetched(resumed: bool) | Stopped(error: Failure) | GaveUp(error: Failure)

  function PartialSize(files: Files, req: Request): nat {
    if PartialPath(req) in files then |files[PartialPath(req)]| else 0
  }

  function Discarded(p: Progress, req: Request): Progress { Store(p, p.files - {PartialPath(req)}) }

  function Asked(p: Progress, offset: nat): Progress {
    Announce(p, if offset > 0 then SResuming else SDownloading).(asks := p.asks + [Ask(offset, p.files)])
  }

  /** From attempt number `attempt`, counted from zero, asking for the bytes from `offset` on. */
  function Tried(p: Progress, req: Request, server: Server, attempt: nat, offset: nat): (r: (Progress, Ending))
    requires attempt < Attempts(req)
    ensures r.1.Fetched? ==> PartialPath(req) in r.0.files
    decreases Attempts(req) - attempt
  {
    var reply := server(attempt, offset);
    var q := Received(Asked(p, offset), PartialPath(req), reply);
    match OutcomeOf(reply)
    case Completed => (q, Fetched(reply.status == 206))
    case HardFailure(e) => (Announce(Discarded(q, req), SFailed), Stopped(e))
    case RestartFromZero(e) => Onward(Discarded(q, req), req, server, attempt, 0, e)
    case Interrupted(e) => Onward(Announce(q, SInterrupted), req, server, attempt, PartialSize(q.files, req), e)
  }

  /** The next attempt, if there is one. */
  function Onward(p: Progress, req: Request, server: Server, attempt: nat, offset: nat,
          error: Failure): (r: (Progress, Ending))
    requires attempt < Attempts(req)
    ensures r.1.Fetched? ==> PartialPath(req) in r.0.files
    decreases Attempts(req) - attempt, 0
  {
    if attempt + 1 < Attempts(req) then Tried(p, req, server, attempt + 1, offset)
    else (Announce(p, SFailed), GaveUp(error))
  }

  // ---------- the whole download ----------

  predicate Passes(req: Request, digest: Digest, bytes: Bytes) {
    (req.expectedSize > 0 ==> |bytes| == req.expectedSize)
      && (req.expectedHash != "" ==> digest(bytes) == req.expectedHash)
  }

  predicate FileMatchesExpected(files: Files, req: Request, digest: Digest) {
    req.destPath in files && Passes(req, digest, files[req.destPath])
  }

  /** A partial file that is already too long for the announced size is thrown away. */
  function Prepared(p: Progress, req: Request): Progress {
    if PartialPath(req) in p.files && req.expectedSize > 0 && PartialSize(p.files, req) >= req.expectedSize
    then Discarded(p, req) else p
  }

  function Refused(p: Progress, req: Request, error: Failure): (Progress, Result) {
    (Announce(Discarded(p, req), SFailed), Failed(error))
  }

  function Verified(p: Progress, req: Request, digest: Digest, renameError: Option<string>,
          resumed: bool): (Progress, Result)
    requires PartialPath(req) in p.files
  {
    var bytes := p.files[PartialPath(req)];
    var q := Announce(p, SVerifying);
    if req.expectedSize > 0 && |bytes| != req.expectedSize then Refused(q, req, SizeMismatch(req.expectedSize, |bytes|))
    else if req.expectedHash != "" && digest(bytes) != req.expectedHash
    then Refused(q, req, HashMismatch(req.expectedHash, digest(bytes)))
    else if renameError.Some? then (Announce(q, SFailed), Failed(CouldNotFinalize(renameError.value)))
    else (Announce(Store(q, p.files[req.destPath := bytes] - {PartialPath(req)}), SCompleted), Done(resumed))
  }

  function Downloaded(p: Progress, req: Request, server: Server, digest: Digest,
          renameError: Option<string>): (Progress, Result) {
    if FileMatchesExpected(p.files, req, digest) then (Announce(p, SCompleted), Done(false))
    else
      var q := Prepared(p, req);
      var (t, ending) := Tried(q, req, server, 0, PartialSize(q.files, req));
      match ending
      case Fetched(resumed) => Verified(t, req, digest, renameError, resumed)
      case Stopped(e) => (t, Failed(e))
      case GaveUp(e) => (t, Failed(DidNotComplete(Attempts(req), e)))
  }

  function Fresh(files: Files): Progress { Progress(files, [files], [], []) }
}

/** Downloading from a server that sends true bytes: the partial file stays a prefix of the payload through
    every attempt, every call and every process death, and a request answered in full installs the payload. */
module DownloadResume {
  import opened Wrappers
  import opened Octets
  import opened Download
  import opened DownloadSafety

  // ---------- honest servers ----------

  /** What is left of the payload from the offset on, for a 206; all of it for a 200. */
  function Due(payload: Bytes, offset: nat, r: Reply): Bytes
    requires r.Response?
  {
    if r.status == 206 && offset <= |payload| then payload[offset..] else payload
  }

  /** The server may be unreachable, answer with an error, ignore the range, and end a body anywhere, with or
      without a sign of it; but the bytes it sends are the payload's, and a 206 starts where it was asked to. */
  predicate HonestReply(payload: Bytes, offset: nat, r: Reply) {
    Writes(r) ==> (r.status == 206 ==> offset <= |payload|) && Joined(r.chunks) <= Due(payload, offset, r)
  }

  ghost predicate Honest(payload: Bytes, server: Server) {
    forall attempt, offset :: HonestReply(payload, offset, server(attempt, offset))
  }

  /** A request answered with everything that was due, and nothing said against it. */
  predicate FullReply(payload: Bytes, offset: nat, r: Reply) {
    OutcomeOf(r).Completed? && Joined(r.chunks) == Due(payload, offset, r)
  }

  /** Every body that ends early is noticed: the connection fails or the announced length tells. */
  ghost predicate Noticed(payload: Bytes, server: Server) {
    forall attempt, offset ::
      OutcomeOf(server(attempt, offset)).Completed? ==> FullReply(payload, offset, server(attempt, offset))
  }

  /** The checks tell the payload from every beginning of it. */
  ghost predicate Discerns(req: Request, digest: Digest, payload: Bytes) {
    forall bytes :: bytes <= payload && Passes(req, digest, bytes) ==> bytes == payload
  }

  /** The expectations, where given, are those of the payload. */
  predicate Fits(req: Request, digest: Digest, payload: Bytes) { Passes(req, digest, payload) }

  // ---------- the partial file is a prefix at every moment ----------

  predicate PartialOk(files: Files, req: Request, payload: Bytes) {
    PartialPath(req) in files ==> files[PartialPath(req)] <= payload
  }

  ghost predicate AllPartialOk(p: Progress, req: Request, payload: Bytes) {
    PartialOk(p.files, req, payload) && forall k :: 0 <= k < |p.history| ==> PartialOk(p.history[k], req, payload)
  }

  lemma StoreOk(p: Progress, req: Request, payload: Bytes, files: Files)
    requires AllPartialOk(p, req, payload) && PartialOk(files, req, payload)
    ensures AllPartialOk(Store(p, files), req, payload)
  {
  }

  lemma {:induction false} WrittenIs(p: Progress, path: string, chunks: seq<Bytes>)
    requires path in p.files
    ensures Written(p, path, chunks).files == p.files[path := p.files[path] + Joined(chunks)]
    decreases |chunks|
  {
    if chunks == [] {
      assert p.files[path] + [] == p.files[path];
    } else {
      WrittenIs(p, path, chunks[..|chunks| - 1]);
      var most := Joined(chunks[..|chunks| - 1]);
      assert p.files[path] + (most + chunks[|chunks| - 1]) == p.files[path] + most + chunks[|chunks| - 1];
    }
  }

  /** Shorter than a prefix is a prefix. */
  lemma PrefixOfPrefix(base: Bytes, most: Bytes, last: Bytes, payload: Bytes)
    requires base + (most + last) <= payload
    ensures base + most <= payload
  {
    assert base + (most + last) == (base + most) + last;
  }

  lemma {:induction false} WrittenOk(p: Progress, req: Request, payload: Bytes, chunks: seq<Bytes>)
    requires AllPartialOk(p, req, payload) && PartialPath(req) in p.files
    requires p.files[PartialPath(req)] + Joined(chunks) <= payload
    ensures AllPartialOk(Written(p, PartialPath(req), chunks), req, payload)
    decreases |chunks|
  {
    if chunks != [] {
      var most := chunks[..|chunks| - 1];
      PrefixOfPrefix(p.files[PartialPath(req)], Joined(most), chunks[|chunks| - 1], payload);
      WrittenOk(p, req, payload, most);
      WrittenIs(p, PartialPath(req), most);
      WrittenIs(p, PartialPath(req), chunks);
      StoreOk(Written(p, PartialPath(req), most), req, payload, Written(p, PartialPath(req), chunks).files);
    }
  }

  /** The bytes at the partial path after a body arrived. */
  function Base(files: Files, req: Request, r: Reply): Bytes
    requires r.Response?
  {
    if r.status == 206 && PartialPath(req) in files then files[PartialPath(req)] else []
  }

  lemma HonestBody(files: Files, req: Request, payload: Bytes, r: Reply)
    requires PartialOk(files, req, payload) && HonestReply(payload, PartialSize(files, req), r) && Writes(r)
    ensures Base(files, req, r) + Joined(r.chunks) <= payload
    ensures Joined(r.chunks) == Due(payload, PartialSize(files, req), r) <==>
      Base(files, req, r) + Joined(r.chunks) == payload
  {
    if r.status == 206 && PartialPath(req) in files {
      Continues(Base(files, req, r), Joined(r.chunks), payload);
    } else {
      assert Base(files, req, r) + Joined(r.chunks) == Joined(r.chunks);
      assert payload[0..] == payload;
    }
  }

  lemma Continues(base: Bytes, body: Bytes, payload: Bytes)
    requires base <= payload && body <= payload[|base|..]
    ensures base + body <= payload && (body == payload[|base|..] <==> base + body == payload)
  {
    assert payload == base + payload[|base|..];
    assert payload[|base|..] == body + payload[|base|..][|body|..];
    assert base + (body + payload[|base|..][|body|..]) == (base + body) + payload[|base|..][|body|..];
  }

  /** What is at the partial path after a body arrived that nothing was said against. */
  function Arrived(files: Files, req: Request, r: Reply): Bytes
    requires r.Response?
  {
    Base(files, req, r) + Joined(r.chunks)
  }

  lemma ReceivedOk(p: Progress, req: Request, payload: Bytes, r: Reply)
    requires AllPartialOk(p, req, payload) && HonestReply(payload, PartialSize(p.files, req), r)
    ensures AllPartialOk(Received(p, PartialPath(req), r), req, payload)
    ensures Writes(r) ==> Received(p, PartialPath(req), r).files[PartialPath(req)] == Arrived(p.files, req, r)
    ensures Writes(r) ==> Arrived(p.files, req, r) <= payload
    ensures Writes(r) ==>
      (Joined(r.chunks) == Due(payload, PartialSize(p.files, req), r) <==> Arrived(p.files, req, r) == payload)
  {
    if Writes(r) {
      HonestBody(p.files, req, payload, r);
      var start := Store(p, Opened(p.files, PartialPath(req), r));
      StoreOk(p, req, payload, Opened(p.files, PartialPath(req), r));
      assert start.files[PartialPath(req)] == Base(p.files, req, r);
      WrittenOk(start, req, payload, r.chunks);
      WrittenIs(start, PartialPath(req), r.chunks);
    }
  }

  /** What an attempt that completes leaves at the partial path. */
  predicate CompletesWith(files: Files, left: Files, req: Request, payload: Bytes, offset: nat, r: Reply) {
    OutcomeOf(r).Completed? ==>
      && PartialPath(req) in left && left[PartialPath(req)] == Arrived(files, req, r) <= payload
      && (FullReply(payload, offset, r) <==> Arrived(files, req, r) == payload)
  }

  /** One attempt: its outcome, and what the next one finds. */
  lemma HonestStep(p: Progress, req: Request, server: Server, attempt: nat, payload: Bytes)
    requires Honest(payload, server) && AllPartialOk(p, req, payload)
    ensures var offset := PartialSize(p.files, req);
      var reply := server(attempt, offset);
      var q := Received(Asked(p, offset), PartialPath(req), reply);
      && AllPartialOk(q, req, payload) && AllPartialOk(Discarded(q, req), req, payload)
      && q.asks == p.asks + [Ask(offset, p.files)]
      && CompletesWith(p.files, q.files, req, payload, offset, reply)
  {
    var offset := PartialSize(p.files, req);
    var reply := server(attempt, offset);
    assert HonestReply(payload, offset, reply);
    ReceivedOk(Asked(p, offset), req, payload, reply);
    ReceivedAsksNothing(Asked(p, offset), PartialPath(req), reply);
    var q := Received(Asked(p, offset), PartialPath(req), reply);
    StoreOk(q, req, payload, q.files - {PartialPath(req)});
  }

  function LastAsk(t: Progress): Ask
    requires t.asks != []
  {
    t.asks[|t.asks| - 1]
  }

  function LastReply(t: Progress, server: Server): Reply
    requires t.asks != []
  {
    server(|t.asks| - 1, LastAsk(t).offset)
  }

  /** A run of attempts on true bytes: it fetches exactly when its last reply completes, and has the payload
      exactly when that reply was full. */
  ghost predicate HonestRun(t: Progress, ending: Ending, req: Request, server: Server, payload: Bytes) {
    && AllPartialOk(t, req, payload) && t.asks != []
    && (ending.Fetched? <==> OutcomeOf(LastReply(t, server)).Completed?)
    && CompletesWith(LastAsk(t).files, t.files, req, payload, LastAsk(t).offset, LastReply(t, server))
  }

  lemma {:induction false} TriedOk(p: Progress, req: Request, server: Server, attempt: nat, payload: Bytes)
    requires attempt < Attempts(req) && Honest(payload, server) && AllPartialOk(p, req, payload) && |p.asks| == attempt
    ensures var (t, ending) := Tried(p, req, server, attempt, PartialSize(p.files, req));
      HonestRun(t, ending, req, server, payload)
    decreases Attempts(req) - attempt
  {
    HonestStep(p, req, server, attempt, payload);
    var offset := PartialSize(p.files, req);
    var q := Received(Asked(p, offset), PartialPath(req), server(attempt, offset));
    match OutcomeOf(server(attempt, offset))
    case Completed =>
    case HardFailure(_) =>
    case RestartFromZero(_) =>
      if attempt + 1 < Attempts(req) { TriedOk(Discarded(q, req), req, server, attempt + 1, payload); }
    case Interrupted(_) =>
      if attempt + 1 < Attempts(req) { TriedOk(Announce(q, SInterrupted), req, server, attempt + 1, payload); }
  }

  lemma PreparedOk(files: Files, req: Request, payload: Bytes)
    requires PartialOk(files, req, payload)
    ensures AllPartialOk(Prepared(Fresh(files), req), req, payload)
  {
    StoreOk(Fresh(files), req, payload, files - {PartialPath(req)});
  }

  ghost predicate LastReplyFull(p: Progress, server: Server, payload: Bytes) {
    p.asks != [] && FullReply(payload, LastAsk(p).offset, LastReply(p, server))
  }

  /** What becomes of a finished run of attempts. */
  function Ended(t: Progress, ending: Ending, req: Request, digest: Digest,
          renameError: Option<string>): (Progress, Result)
    requires ending.Fetched? ==> PartialPath(req) in t.files
  {
    match ending
    case Fetched(resumed) => Verified(t, req, digest, renameError, resumed)
    case Stopped(e) => (t, Result.Failed(e))
    case GaveUp(e) => (t, Result.Failed(DidNotComplete(Attempts(req), e)))
  }

  /** p and r come of a run on true bytes: success exactly when something arrived that nothing was said against,
      it passes the checks, and the rename works; then it is what is installed. */
  ghost predicate HonestEnd(p: Progress, r: Result, req: Request, server: Server, digest: Digest,
                            renameError: Option<string>, payload: Bytes) {
    && AllPartialOk(p, req, payload) && p.asks != []
    && (r.Done? <==> renameError.None? && ArrivedAndPasses(p, req, server, digest))
    && (r.Done? ==> Installed(p.files, req, LastArrived(p, req, server)))
    && (OutcomeOf(LastReply(p, server)).Completed? ==> LastArrived(p, req, server) <= payload)
    && (OutcomeOf(LastReply(p, server)).Completed? ==>
        (LastReplyFull(p, server, payload) <==> LastArrived(p, req, server) == payload))
  }

  predicate Holds(files: Files, path: string, bytes: Bytes) { path in files && files[path] == bytes }

  function LastArrived(p: Progress, req: Request, server: Server): Bytes
    requires p.asks != [] && LastReply(p, server).Response?
  {
    Arrived(LastAsk(p).files, req, LastReply(p, server))
  }

  predicate ArrivedAndPasses(p: Progress, req: Request, server: Server, digest: Digest)
    requires p.asks != []
  {
    OutcomeOf(LastReply(p, server)).Completed? && Passes(req, digest, LastArrived(p, req, server))
  }

  /** The three ways to end after the last byte: refused, installed, or left where it is. */
  lemma VerifiedIs(t: Progress, req: Request, digest: Digest, renameError: Option<string>, resumed: bool)
    requires PartialPath(req) in t.files
    ensures var arrived := t.files[PartialPath(req)];
      var (p, r) := Verified(t, req, digest, renameError, resumed);
      && p.asks == t.asks
      && (r.Done? <==> renameError.None? && Passes(req, digest, arrived))
      && (r.Done? ==>
          p.files == t.files[req.destPath := arrived] - {PartialPath(req)} && Installed(p.files, req, arrived))
      && (!r.Done? ==> p.files == t.files - {PartialPath(req)} || p.files == t.files)
      && p.history ==
        t.history + if p.files == t.files && !r.Done? && Passes(req, digest, arrived) then [] else [p.files]
  {
    assert |PartialPath(req)| != |req.destPath|;
  }

  predicate Installed(files: Files, req: Request, bytes: Bytes) {
    PartialPath(req) !in files && Holds(files, req.destPath, bytes)
  }

  lemma EndsHonestly(t: Progress, ending: Ending, req: Request, server: Server, digest: Digest,
          renameError: Option<string>, payload: Bytes)
    requires HonestRun(t, ending, req, server, payload)
    ensures var (p, r) := Ended(t, ending, req, digest, renameError);
      p.asks == t.asks && HonestEnd(p, r, req, server, digest, renameError, payload)
  {
    if ending.Fetched? {
      var arrived := t.files[PartialPath(req)];
      assert arrived == LastArrived(t, req, server);
      VerifiedIs(t, req, digest, renameError, ending.resumed);
      StoreOk(t, req, payload, t.files - {PartialPath(req)});
      StoreOk(t, req, payload, t.files[req.destPath := arrived] - {PartialPath(req)});
    }
  }

  lemma DownloadEndsHonestly(files: Files, req: Request, server: Server, digest: Digest, renameError: Option<string>,
          payload: Bytes)
    requires Honest(payload, server) && PartialOk(files, req, payload) && !FileMatchesExpected(files, req, digest)
    ensures var (p, r) := Downloaded(Fresh(files), req, server, digest, renameError);
      HonestEnd(p, r, req, server, digest, renameError, payload)
  {
    var q := Prepared(Fresh(files), req);
    PreparedOk(files, req, payload);
    TriedOk(q, req, server, 0, payload);
    var (t, ending) := Tried(q, req, server, 0, PartialSize(q.files, req));
    EndsHonestly(t, ending, req, server, digest, renameError, payload);
  }

  /** One call: at every moment the partial file is a prefix of the payload, and so is what is installed; it is
      the whole payload exactly when the last request was answered in full, and always when its size was
      announced. */
  lemma HonestDownload(files: Files, req: Request, server: Server, digest: Digest, renameError: Option<string>,
          payload: Bytes)
    requires Honest(payload, server) && PartialOk(files, req, payload)
    ensures var (p, r) := Downloaded(Fresh(files), req, server, digest, renameError);
      && AllPartialOk(p, req, payload)
      && (r.Done? && !FileMatchesExpected(files, req, digest) ==> Installs(p, req, server, payload))
  {
    if !FileMatchesExpected(files, req, digest) {
      DownloadEndsHonestly(files, req, server, digest, renameError, payload);
    }
  }

  ghost predicate Installs(p: Progress, req: Request, server: Server, payload: Bytes) {
    && req.destPath in p.files && p.files[req.destPath] <= payload
    && (p.files[req.destPath] == payload <==> LastReplyFull(p, server, payload))
    && (req.expectedSize == |payload| > 0 ==> p.files[req.destPath] == payload)
  }

  // ---------- over many calls, each of which may be cut off by the death of the process ----------

  /** A call that starts on `files` may leave `next` behind: its last state, or any state on the way. */
  ghost predicate MayLeave(files: Files, next: Files, req: Request, digest: Digest, payload: Bytes) {
    exists server, renameError ::
      Honest(payload, server) && next in Downloaded(Fresh(files), req, server, digest, renameError).0.history
  }

  ghost predicate Lives(disks: seq<Files>, req: Request, digest: Digest, payload: Bytes) {
    forall k :: 0 <= k < |disks| - 1 ==> MayLeave(disks[k], disks[k + 1], req, digest, payload)
  }

  lemma {:induction false} PrefixForLife(disks: seq<Files>, req: Request, digest: Digest, payload: Bytes, k: nat)
    requires Lives(disks, req, digest, payload) && k < |disks| && PartialOk(disks[0], req, payload)
    ensures PartialOk(disks[k], req, payload)
    decreases k
  {
    if k > 0 {
      PrefixForLife(disks, req, digest, payload, k - 1);
      assert MayLeave(disks[k - 1], disks[k], req, digest, payload);
      var server, renameError :|
        Honest(payload, server)
          && disks[k] in Downloaded(Fresh(disks[k - 1]), req, server, digest, renameError).0.history;
      HonestDownload(disks[k - 1], req, server, digest, renameError, payload);
    }
  }

  // ---------- success ----------

  /** The last body ended early, nobody noticed, and what there is passes the checks all the same. */
  ghost predicate LastReplyPasses(p: Progress, req: Request, server: Server, digest: Digest, payload: Bytes) {
    p.asks != [] && ArrivedAndPasses(p, req, server, digest) && !LastReplyFull(p, server, payload)
  }

  ghost predicate LastReplyWill(p: Progress, req: Request, server: Server, digest: Digest, payload: Bytes) {
    LastReplyFull(p, server, payload) || LastReplyPasses(p, req, server, digest, payload)
  }

  /** With an honest server a download succeeds exactly when there was nothing to do, or the rename works and
      its last request was answered in full, or cut short in a way neither transfer nor checks can tell. Where
      one of the two can tell, as with an announced size, only the full answer is left. */
  lemma SucceedsExactly(files: Files, req: Request, server: Server, digest: Digest, renameError: Option<string>,
          payload: Bytes)
    requires Honest(payload, server) && PartialOk(files, req, payload) && Fits(req, digest, payload)
    ensures var (p, r) := Downloaded(Fresh(files), req, server, digest, renameError);
      && (r.Done? <==>
          FileMatchesExpected(files, req, digest) ||
          (renameError.None? && LastReplyWill(p, req, server, digest, payload)))
      && (Noticed(payload, server) || Discerns(req, digest, payload) || req.expectedSize > 0 ==>
          !LastReplyPasses(p, req, server, digest, payload))
  {
    if !FileMatchesExpected(files, req, digest) {
      DownloadEndsHonestly(files, req, server, digest, renameError, payload);
    }
  }

  /** What comes behind the first request, seen from the whole run. */
  lemma PrefixFirst(a: seq<Ask>, x: Ask, b: seq<Ask>)
    requires a + [x] <= b
    ensures a <= b && b[|a|] == x
  {
    assert b[..|a| + 1] == a + [x];
    assert b[..|a|] == (a + [x])[..|a|] == a;
  }

  /** Only the last request of a run completes. */
  lemma {:induction false} OnlyLastCompletes(p: Progress, req: Request, server: Server, attempt: nat, offset: nat,
          k: nat)
    requires attempt < Attempts(req) && |p.asks| == attempt <= k
    ensures var t := Tried(p, req, server, attempt, offset).0;
      && p.asks + [Ask(offset, p.files)] <= t.asks
      && (k + 1 < |t.asks| ==> !OutcomeOf(server(k, t.asks[k].offset)).Completed?)
    decreases Attempts(req) - attempt, 1
  {
    var reply := server(attempt, offset);
    var q := Received(Asked(p, offset), PartialPath(req), reply);
    ReceivedAsksNothing(Asked(p, offset), PartialPath(req), reply);
    var t := Tried(p, req, server, attempt, offset).0;
    match OutcomeOf(reply)
    case Completed => assert t.asks == q.asks;
    case HardFailure(_) => assert t.asks == q.asks;
    case RestartFromZero(_) => OnlyLastOnward(p, Discarded(q, req), req, server, attempt, offset, 0, k);
    case Interrupted(_) =>
      OnlyLastOnward(p, Announce(q, SInterrupted), req, server, attempt, offset, PartialSize(q.files, req), k);
  }

  /** The part of the run behind a request that did not complete. */
  lemma {:induction false} OnlyLastOnward(p: Progress, q: Progress, req: Request, server: Server, attempt: nat,
          offset: nat, next: nat, k: nat)
    requires attempt < Attempts(req) && |p.asks| == attempt <= k && q.asks == p.asks + [Ask(offset, p.files)]
    requires !OutcomeOf(server(attempt, offset)).Completed?
    ensures forall e :: var t := Onward(q, req, server, attempt, next, e).0;
      && q.asks <= t.asks
      && (k + 1 < |t.asks| ==> !OutcomeOf(server(k, t.asks[k].offset)).Completed?)
    decreases Attempts(req) - attempt, 0
  {
    if attempt + 1 < Attempts(req) {
      OnlyLastCompletes(q, req, server, attempt + 1, next, if attempt < k then k else attempt + 1);
      var t := Tried(q, req, server, attempt + 1, next).0;
      PrefixFirst(q.asks, Ask(next, q.files), t.asks);
      PrefixFirst(p.asks, Ask(offset, p.files), t.asks);
    }
  }

  /** Request number k was made, and answered in full. */
  predicate AnsweredInFull(p: Progress, server: Server, payload: Bytes, k: nat) {
    k < |p.asks| && FullReply(payload, p.asks[k].offset, server(k, p.asks[k].offset))
  }

  /** A request that is made and answered in full is the last one; the call verifies and installs exactly the
      payload, leaving no partial file. */
  lemma FullAnswerInstalls(files: Files, req: Request, server: Server, digest: Digest, payload: Bytes, k: nat)
    requires Honest(payload, server) && PartialOk(files, req, payload) && Fits(req, digest, payload)
    requires !FileMatchesExpected(files, req, digest)
    requires AnsweredInFull(Downloaded(Fresh(files), req, server, digest, None).0, server, payload, k)
    ensures var (p, r) := Downloaded(Fresh(files), req, server, digest, None);
      && r.Done? && |p.asks| == k + 1
      && req.destPath in p.files && p.files[req.destPath] == payload && PartialPath(req) !in p.files
  {
    DownloadEndsHonestly(files, req, server, digest, None, payload);
    var q := Prepared(Fresh(files), req);
    OnlyLastCompletes(q, req, server, 0, PartialSize(q.files, req), k);
    EndedAsks(files, req, server, digest);
  }

  lemma EndedAsks(files: Files, req: Request, server: Server, digest: Digest)
    requires !FileMatchesExpected(files, req, digest)
    ensures var q := Prepared(Fresh(files), req);
      Downloaded(Fresh(files), req, server, digest, None).0.asks ==
        Tried(q, req, server, 0, PartialSize(q.files, req)).0.asks
  {
  }

  /** A server as RFC 9110 describes it: full answers wherever there is something left to send, and a full answer
      or a 416 to a request for the bytes after the last one. */
  ghost predicate Standard(payload: Bytes, server: Server) {
    && (forall attempt, offset: nat :: offset == 0 || offset < |payload| ==>
      FullReply(payload, offset, server(attempt, offset)))
    && (forall attempt :: StandardAtEnd(payload, server(attempt, |payload|)))
  }

  predicate StandardAtEnd(payload: Bytes, r: Reply) {
    FullReply(payload, |payload|, r) || (r.Response? && r.status == 416)
  }

  /** One of its first two requests is answered in full. */
  lemma StandardAsks(p: Progress, req: Request, server: Server, payload: Bytes) returns (k: nat)
    requires Attempts(req) >= 2 && Standard(payload, server) && PartialSize(p.files, req) <= |payload| && p.asks == []
    ensures var t := Tried(p, req, server, 0, PartialSize(p.files, req)).0;
      AnsweredInFull(t, server, payload, k)
  {
    var offset := PartialSize(p.files, req);
    OnlyLastCompletes(p, req, server, 0, offset, 0);
    k := 0;
    if !FullReply(payload, offset, server(0, offset)) {
      assert offset == |payload| && StandardAtEnd(payload, server(0, |payload|));
      var q := Discarded(Received(Asked(p, offset), PartialPath(req), server(0, offset)), req);
      ReceivedAsksNothing(Asked(p, offset), PartialPath(req), server(0, offset));
      assert Tried(p, req, server, 0, offset) == Tried(q, req, server, 1, 0);
      OnlyLastCompletes(q, req, server, 1, 0, 1);
      k := 1;
    }
  }

  /** From any prefix, the two attempts that are the default fetch the payload from such a server. */
  lemma StandardServerInstalls(files: Files, req: Request, server: Server, digest: Digest, payload: Bytes)
    requires Honest(payload, server) && PartialOk(files, req, payload) && Fits(req, digest, payload)
    requires !FileMatchesExpected(files, req, digest) && req.maxAttempts >= 2 && Standard(payload, server)
    ensures var (p, r) := Downloaded(Fresh(files), req, server, digest, None);
      r.Done? && req.destPath in p.files && p.files[req.destPath] == payload && PartialPath(req) !in p.files
  {
    var k := StandardAsks(Prepared(Fresh(files), req), req, server, payload);
    EndedAsks(files, req, server, digest);
    FullAnswerInstalls(files, req, server, digest, payload, k);
  }

  // ---------- bytes lost and bytes missing ----------

  /** The shortest unnoticed truncation: a 200 with nothing in it. */
  function SendsNothing(): Server { (attempt, offset) => Response(200, None, true, [], None) }

  /** Without a size and a hash to check, an honest server can leave a truncated file installed. */
  lemma TruncationInstalled(files: Files, req: Request, digest: Digest, payload: Bytes)
    requires req.destPath !in files && PartialPath(req) !in files && req.expectedSize <= 0 && req.expectedHash == ""
    ensures Honest(payload, SendsNothing())
    ensures var (p, r) := Downloaded(Fresh(files), req, SendsNothing(), digest, None);
      r.Done? && req.destPath in p.files && p.files[req.destPath] == []
  {
    var p := Fresh(files);
    var reply := SendsNothing()(0, 0);
    assert reply == Response(200, None, true, [], None) && OutcomeOf(reply) == Completed;
    assert Tried(p, req, SendsNothing(), 0, 0) == (Received(Asked(p, 0), PartialPath(req), reply), Fetched(false));
    assert |PartialPath(req)| != |req.destPath|;
  }

  /** Every request is answered 416, which an honest server may do. */
  function RefusesRanges(): Server { (attempt, offset) => Response(416, None, true, [], None) }

  /** So a partial file can go to waste although the server is honest: the one attempt allowed is answered 416. */
  lemma RangeRefusalWastesPartial(files: Files, req: Request, digest: Digest, payload: Bytes)
    requires !FileMatchesExpected(files, req, digest) && req.maxAttempts <= 1
    requires PartialSize(files, req) > 0 && (req.expectedSize > 0 ==> PartialSize(files, req) < req.expectedSize)
    ensures Honest(payload, RefusesRanges()) && PartialPath(req) in files
    ensures var (p, r) := Downloaded(Fresh(files), req, RefusesRanges(), digest, None);
      r == Result.Failed(DidNotComplete(1, HttpStatus(416))) && PartialPath(req) !in p.files
  {
    var p, offset := Fresh(files), PartialSize(files, req);
    assert Attempts(req) == 1 && Prepared(p, req) == p;
    var reply := RefusesRanges()(0, offset);
    assert reply == Response(416, None, true, [], None);
    assert OutcomeOf(reply) == RestartFromZero(HttpStatus(416));
    var q := Discarded(Asked(p, offset), req);
    assert Received(Asked(p, offset), PartialPath(req), reply) == Asked(p, offset);
    assert Onward(q, req, RefusesRanges(), 0, 0, HttpStatus(416)) == (Announce(q, SFailed), GaveUp(HttpStatus(416)));
    assert Tried(p, req, RefusesRanges(), 0, offset) == (Announce(q, SFailed), GaveUp(HttpStatus(416)));
    assert PartialPath(req) !in q.files;
    forall attempt, at: nat ensures HonestReply(payload, at, RefusesRanges()(attempt, at)) {
      assert RefusesRanges()(attempt, at) == reply;
    }
  }
}

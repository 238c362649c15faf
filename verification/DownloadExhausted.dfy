/** What is left of a partial file when the attempts run out. The comment at
    runtime/src/HttpDownloader.cpp:271-277 says all of it; here is what is true, for any server. */
module DownloadExhausted {
  import opened Wrappers
  import opened Octets
  import opened Download
  import opened DownloadSafety
  import opened DownloadResume

  /** The bytes of the partial file; none when there is no file. */
  function Held(files: Files, req: Request): Bytes {
    if PartialPath(req) in files then files[PartialPath(req)] else []
  }

  /** The bytes after one answered request that was not final. */
  function HeldAfter(held: Bytes, r: Reply): Bytes {
    if r.Response? && r.status == 416 then []
    else if Writes(r) then (if r.status == 206 then held else []) + Joined(r.chunks)
    else held
  }

  function ReplyTo(t: Progress, server: Server, k: nat): Reply
    requires k < |t.asks|
  {
    server(k, t.asks[k].offset)
  }

  /** What request k left behind: what the next one found, or what is there at the end. */
  function HeldBehind(t: Progress, req: Request, k: nat): Bytes
    requires k < |t.asks|
  {
    if k + 1 < |t.asks| then Held(t.asks[k + 1].files, req) else Held(t.files, req)
  }

  /** From request number `from` on, each one leaves what its reply makes of what it found. */
  ghost predicate Chained(t: Progress, req: Request, server: Server, from: nat) {
    forall k: nat :: from <= k < |t.asks| ==>
      HeldBehind(t, req, k) == HeldAfter(Held(t.asks[k].files, req), ReplyTo(t, server, k))
  }

  lemma ReceivedHolds(p: Progress, req: Request, r: Reply)
    requires !OutcomeOf(r).RestartFromZero?
    ensures Held(Received(p, PartialPath(req), r).files, req) == HeldAfter(Held(p.files, req), r)
  {
    if Writes(r) {
      var start := Store(p, Opened(p.files, PartialPath(req), r));
      WrittenIs(start, PartialPath(req), r.chunks);
    }
  }

  /** What a run of attempts started on p leaves: its requests come first and, if it gives up, are chained. */
  ghost predicate Linked(p: Progress, t: Progress, ending: Ending, req: Request, server: Server, attempt: nat,
          offset: nat) {
    && p.asks <= t.asks && |t.asks| > attempt && t.asks[attempt] == Ask(offset, p.files)
    && (ending.Stopped? ==> ending.error.HttpStatus?)
    && (ending.GaveUp? ==> Chained(t, req, server, attempt))
  }

  lemma {:induction false} GivingUpIsChained(p: Progress, req: Request, server: Server, attempt: nat, offset: nat)
    requires attempt < Attempts(req) && |p.asks| == attempt
    ensures var (t, ending) := Tried(p, req, server, attempt, offset);
      Linked(p, t, ending, req, server, attempt, offset)
    decreases Attempts(req) - attempt
  {
    var reply := server(attempt, offset);
    var a := Asked(p, offset);
    var q := Received(a, PartialPath(req), reply);
    ReceivedAsksNothing(a, PartialPath(req), reply);
    match OutcomeOf(reply)
    case Completed =>
    case HardFailure(_) =>
    case RestartFromZero(_) =>
      assert HeldAfter(Held(p.files, req), reply) == [];
      if attempt + 1 < Attempts(req) {
        GivingUpIsChained(Discarded(q, req), req, server, attempt + 1, 0);
        var (t, ending) := Tried(Discarded(q, req), req, server, attempt + 1, 0);
        LinkFirst(p, Discarded(q, req), t, ending, req, server, attempt, offset, 0);
      }
    case Interrupted(_) =>
      ReceivedHolds(a, req, reply);
      if attempt + 1 < Attempts(req) {
        GivingUpIsChained(Announce(q, SInterrupted), req, server, attempt + 1, PartialSize(q.files, req));
        var (t, ending) := Tried(Announce(q, SInterrupted), req, server, attempt + 1, PartialSize(q.files, req));
        LinkFirst(p, Announce(q, SInterrupted), t, ending, req, server, attempt, offset, PartialSize(q.files, req));
      }
  }

  lemma LinkFirst(p: Progress, q: Progress, t: Progress, ending: Ending, req: Request, server: Server,
                  attempt: nat, offset: nat, next: nat)
    requires |p.asks| == attempt && q.asks == p.asks + [Ask(offset, p.files)]
    requires Held(q.files, req) == HeldAfter(Held(p.files, req), server(attempt, offset))
    requires Linked(q, t, ending, req, server, attempt + 1, next)
    ensures Linked(p, t, ending, req, server, attempt, offset)
  {
    assert t.asks[..|q.asks|] == q.asks;
    assert t.asks[attempt] == q.asks[attempt];
    assert t.asks[..attempt] == p.asks;
  }

  // ---------- kept all along ----------

  /** The bytes the first request found are at the start of the partial file behind every request. Within one
      that resends them the file is empty for a moment, for a 200 truncates it on opening. */
  ghost predicate KeptThroughout(t: Progress, req: Request)
    requires t.asks != []
  {
    forall k: nat :: k < |t.asks| ==> Held(t.asks[0].files, req) <= HeldBehind(t, req, k)
  }

  /** A reply that throws bytes away: a 416, or a 200 that replaces them with something else. */
  predicate Discards(held: Bytes, r: Reply) {
    r.Response? && (r.status == 416 || (r.status == 200 && r.writable && !(held <= Joined(r.chunks))))
  }

  ghost predicate NothingDiscarded(t: Progress, req: Request, server: Server)
    requires t.asks != []
  {
    forall k: nat :: k < |t.asks| ==> !Discards(Held(t.asks[0].files, req), ReplyTo(t, server, k))
  }

  lemma KeepsStep(found: Bytes, held: Bytes, r: Reply)
    requires found <= held && !Discards(found, r)
    ensures found <= HeldAfter(held, r)
  {
    if Writes(r) { assert [] + Joined(r.chunks) == Joined(r.chunks); }
  }

  lemma {:induction false} KeptUpTo(t: Progress, req: Request, server: Server, k: nat)
    requires k < |t.asks| && Chained(t, req, server, 0) && NothingDiscarded(t, req, server)
    ensures Held(t.asks[0].files, req) <= Held(t.asks[k].files, req)
    ensures Held(t.asks[0].files, req) <= HeldBehind(t, req, k)
    decreases k
  {
    var found, held, reply := Held(t.asks[0].files, req), Held(t.asks[k].files, req), ReplyTo(t, server, k);
    if k > 0 {
      KeptUpTo(t, req, server, k - 1);
      assert HeldBehind(t, req, k - 1) == held;
    }
    assert !Discards(found, reply) && HeldBehind(t, req, k) == HeldAfter(held, reply);
    KeepsStep(found, held, reply);
  }

  /** Over a chained run the bytes stay exactly when there are none, or no reply discards them. */
  lemma KeptExactly(t: Progress, req: Request, server: Server)
    requires t.asks != [] && Chained(t, req, server, 0)
    ensures KeptThroughout(t, req) <==> Held(t.asks[0].files, req) == [] || NothingDiscarded(t, req, server)
  {
    if NothingDiscarded(t, req, server) {
      forall k: nat | k < |t.asks| ensures Held(t.asks[0].files, req) <= HeldBehind(t, req, k) {
        KeptUpTo(t, req, server, k);
      }
    } else if KeptThroughout(t, req) {
      var k: nat :| k < |t.asks| && Discards(Held(t.asks[0].files, req), ReplyTo(t, server, k));
      assert HeldBehind(t, req, k) == HeldAfter(Held(t.asks[k].files, req), ReplyTo(t, server, k));
      assert [] + Joined(ReplyTo(t, server, k).chunks) == Joined(ReplyTo(t, server, k).chunks);
    }
  }

  /** The whole call: when the attempts run out, the bytes its first request found were there behind every request
      exactly when there were none, or no request was answered 416 and none by a writable 200 with other bytes. */
  lemma ExhaustionKeepsPartialExactly(files: Files, req: Request, server: Server, digest: Digest,
          renameError: Option<string>)
    ensures var (p, r) := Downloaded(Fresh(files), req, server, digest, renameError);
      r.Failed? && r.error.DidNotComplete? ==>
        (p.asks != [] &&
         (KeptThroughout(p, req) <==> Held(p.asks[0].files, req) == [] || NothingDiscarded(p, req, server)))
  {
    if !FileMatchesExpected(files, req, digest) {
      var q := Prepared(Fresh(files), req);
      GivingUpIsChained(q, req, server, 0, PartialSize(q.files, req));
      var (t, ending) := Tried(q, req, server, 0, PartialSize(q.files, req));
      if ending.GaveUp? { KeptExactly(t, req, server); }
    }
  }

  // ---------- still there at the end ----------

  /** The bytes received since the partial file was last started over: nothing if it never was. */
  function SinceRestart(t: Progress, server: Server, n: nat): Option<Bytes>
    requires n <= |t.asks|
  {
    if n == 0 then None
    else
      var r := ReplyTo(t, server, n - 1);
      var before := SinceRestart(t, server, n - 1);
      if r.Response? && r.status == 416 then Some([])
      else if !Writes(r) then before
      else if r.status == 200 then Some(Joined(r.chunks))
      else if before.Some? then Some(before.value + Joined(r.chunks))
      else None
  }

  predicate NeverRestartedOrResent(held: Bytes, since: Option<Bytes>) { since.None? || held <= since.value }

  lemma {:induction false} HeldIsSinceRestart(t: Progress, req: Request, server: Server, n: nat)
    requires 0 < n <= |t.asks| && Chained(t, req, server, 0)
    ensures match SinceRestart(t, server, n)
      case None => Held(t.asks[0].files, req) <= HeldBehind(t, req, n - 1)
      case Some(bytes) => HeldBehind(t, req, n - 1) == bytes
    decreases n
  {
    assert HeldBehind(t, req, n - 1) == HeldAfter(Held(t.asks[n - 1].files, req), ReplyTo(t, server, n - 1));
    var r := ReplyTo(t, server, n - 1);
    if Writes(r) { assert [] + Joined(r.chunks) == Joined(r.chunks); }
    if n > 1 { HeldIsSinceRestart(t, req, server, n - 1); }
  }

  /** At the end they are there exactly when the file was never started over, or what came since starts with
      them: a 416 alone does not decide it, for later requests may bring the same bytes again. */
  lemma ExhaustionEndsWithExactly(files: Files, req: Request, server: Server, digest: Digest,
          renameError: Option<string>)
    ensures var (p, r) := Downloaded(Fresh(files), req, server, digest, renameError);
      r.Failed? && r.error.DidNotComplete? ==>
        (p.asks != [] &&
         (Held(p.asks[0].files, req) <= Held(p.files, req) <==>
          NeverRestartedOrResent(Held(p.asks[0].files, req), SinceRestart(p, server, |p.asks|))))
  {
    if !FileMatchesExpected(files, req, digest) {
      var q := Prepared(Fresh(files), req);
      GivingUpIsChained(q, req, server, 0, PartialSize(q.files, req));
      var (t, ending) := Tried(q, req, server, 0, PartialSize(q.files, req));
      if ending.GaveUp? { HeldIsSinceRestart(t, req, server, |t.asks|); }
    }
  }

  // ---------- three servers ----------

  function Failing(status: nat): Reply { Response(status, None, true, [], None) }

  function Refused416Then(second: Reply): Server { (attempt, offset) => if attempt == 0 then Failing(416) else second }

  /** A partial file worth resuming, and the two attempts that are the default. */
  predicate Resumes(files: Files, req: Request, digest: Digest) {
    && !FileMatchesExpected(files, req, digest) && req.maxAttempts == 2 && Held(files, req) != []
    && (req.expectedSize > 0 ==> |Held(files, req)| < req.expectedSize)
  }

  /** The last attempt allowed, interrupted. */
  lemma LastTry(p: Progress, req: Request, server: Server, attempt: nat, offset: nat)
    requires attempt + 1 == Attempts(req) && OutcomeOf(server(attempt, offset)).Interrupted?
    ensures var reply := server(attempt, offset);
      var q := Received(Asked(p, offset), PartialPath(req), reply);
      Tried(p, req, server, attempt, offset) ==
      (Announce(Announce(q, SInterrupted), SFailed), GaveUp(OutcomeOf(reply).error))
  {
  }

  lemma TwoTries(files: Files, req: Request, digest: Digest, second: Reply, renameError: Option<string>)
    requires Resumes(files, req, digest) && OutcomeOf(second).Interrupted?
    ensures var (p, r) := Downloaded(Fresh(files), req, Refused416Then(second), digest, renameError);
      && r == Result.Failed(DidNotComplete(2, OutcomeOf(second).error))
      && |p.asks| == 2 && Held(p.asks[0].files, req) == Held(files, req)
      && Held(p.files, req) == HeldAfter([], second)
  {
    var p, offset, server := Fresh(files), PartialSize(files, req), Refused416Then(second);
    assert Attempts(req) == 2 && Prepared(p, req) == p;
    assert server(0, offset) == Failing(416) && server(1, 0) == second;
    assert OutcomeOf(Failing(416)) == RestartFromZero(HttpStatus(416));
    var q := Discarded(Asked(p, offset), req);
    assert Received(Asked(p, offset), PartialPath(req), Failing(416)) == Asked(p, offset);
    assert Tried(p, req, server, 0, offset) == Onward(q, req, server, 0, 0, HttpStatus(416));
    assert Onward(q, req, server, 0, 0, HttpStatus(416)) == Tried(q, req, server, 1, 0);
    LastTry(q, req, server, 1, 0);
    ReceivedHolds(Asked(q, 0), req, second);
    ReceivedAsksNothing(Asked(q, 0), PartialPath(req), second);
  }

  /** Lost to a 416 although the last answer was another one. */
  lemma Earlier416LosesPartial(files: Files, req: Request, digest: Digest, renameError: Option<string>)
    requires Resumes(files, req, digest)
    ensures var (p, r) := Downloaded(Fresh(files), req, Refused416Then(Failing(503)), digest, renameError);
      && r == Result.Failed(DidNotComplete(2, HttpStatus(503)))
      && |p.asks| == 2 && Held(p.asks[0].files, req) != [] && Held(p.files, req) == []
  {
    TwoTries(files, req, digest, Failing(503), renameError);
  }

  /** There again although a 416 discarded it: the next answer brought the same bytes before it broke off. */
  lemma RefetchedAfter416(files: Files, req: Request, digest: Digest, renameError: Option<string>)
    requires Resumes(files, req, digest)
    ensures var second := Response(200, None, true, [Held(files, req)], Some("reset"));
      var (p, r) := Downloaded(Fresh(files), req, Refused416Then(second), digest, renameError);
      && r.Failed? && r.error.DidNotComplete?
      && |p.asks| == 2 && Held(p.files, req) == Held(p.asks[0].files, req) && !KeptThroughout(p, req)
  {
    var second := Response(200, None, true, [Held(files, req)], Some("reset"));
    assert Joined([Held(files, req)]) == Held(files, req);
    TwoTries(files, req, digest, second, renameError);
    ExhaustionKeepsPartialExactly(files, req, Refused416Then(second), digest, renameError);
    var p := Downloaded(Fresh(files), req, Refused416Then(second), digest, renameError).0;
    assert Discards(Held(files, req), ReplyTo(p, Refused416Then(second), 0));
  }

  /** Emptied by a 200 that breaks off before its first byte: opening the file truncates it. */
  function DropsAtOnce(): Server { (attempt, offset) => Response(200, None, true, [], Some("reset")) }

  lemma Dropped200EmptiesPartial(files: Files, req: Request, digest: Digest, renameError: Option<string>)
    requires !FileMatchesExpected(files, req, digest) && req.maxAttempts <= 1 && Held(files, req) != []
    requires req.expectedSize > 0 ==> |Held(files, req)| < req.expectedSize
    ensures var (p, r) := Downloaded(Fresh(files), req, DropsAtOnce(), digest, renameError);
      && r == Result.Failed(DidNotComplete(1, Dropped("reset")))
      && PartialPath(req) in p.files && p.files[PartialPath(req)] == []
  {
    var p, offset := Fresh(files), PartialSize(files, req);
    assert Attempts(req) == 1 && Prepared(p, req) == p;
    var reply := Response(200, None, true, [], Some("reset"));
    assert DropsAtOnce()(0, offset) == reply && OutcomeOf(reply) == Interrupted(Dropped("reset"));
    LastTry(p, req, DropsAtOnce(), 0, offset);
    assert Received(Asked(p, offset), PartialPath(req), reply).files == Opened(files, PartialPath(req), reply);
  }
}

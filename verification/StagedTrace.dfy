/** A staged download from outside: which requests one attempt makes, what is on disk afterwards, and which attempts are
    made at all, in terms of the statuses and bytes that arrive (bootstrapper/electron/downloader.js:38-114,
    bootstrapper/electron/updateManager.js:79-81 and 143-159). */
module StagedTrace {
  import opened Wrappers
  import opened Octets
  import opened UpdatePlan
  import opened StagedDownload

  // ---------- the requests of one attempt ----------

  /** The redirects still allowed and the offset asked for. */
  type Ask = (nat, nat)

  predicate PointsElsewhere(r: Reply, hops: nat) {
    r.Response? && r.location && hops > 0
      && (r.status == 301 || r.status == 302 || r.status == 307 || r.status == 308)
  }

  /** The range was not honoured. */
  predicate IgnoresRange(r: Reply, offset: nat) { r.Response? && offset > 0 && r.status != 206 }

  /** One request leads to another: to a new location with one redirect less, or to the same without a range. */
  predicate LeadsTo(r: Reply, a: Ask, b: Ask) {
    if PointsElsewhere(r, a.0) then b == (a.0 - 1, a.1) else IgnoresRange(r, a.1) && b == (a.0, 0)
  }

  ghost predicate Trail(replies: Replies, attempt: nat, path: seq<Ask>) {
    && path != []
    && (forall k :: 0 <= k < |path| - 1 ==> LeadsTo(replies(attempt, path[k].0, path[k].1), path[k], path[k + 1]))
    && var last := path[|path| - 1];
      var r := replies(attempt, last.0, last.1);
      !PointsElsewhere(r, last.0) && !IgnoresRange(r, last.1)
  }

  /** What the last answer makes of the file. */
  function Concluded(file: Option<Bytes>, r: Reply): (Option<Bytes>, Option<Error>) {
    if r.Refused? then (file, Some(Transport(r.error)))
    else if r.status == 200 || r.status == 206 then
      (Some((if r.status == 206 && file.Some? then file.value else []) + Joined(r.chunks)),
       if r.dropped.Some? then Some(Transport(r.dropped.value)) else None)
    else (file, Some(HttpStatus(r.status)))
  }

  /** An attempt follows its trail to the end, and a range once ignored costs the bytes it was meant to continue. */
  lemma {:induction false} RequestedExactly(file: Option<Bytes>, replies: Replies, attempt: nat, hops: nat, offset: nat)
    returns (path: seq<Ask>)
    ensures Trail(replies, attempt, path) && path[0] == (hops, offset) && |path| <= hops + 2
    ensures var last := path[|path| - 1];
      Requested(file, replies, attempt, hops, offset) ==
        Concluded(if last.1 == offset then file else None, replies(attempt, last.0, last.1))
    ensures offset == 0 ==> |path| <= hops + 1
    ensures path[|path| - 1].1 == offset || path[|path| - 1].1 == 0
    decreases hops, offset
  {
    var r := replies(attempt, hops, offset);
    if PointsElsewhere(r, hops) {
      var rest := RequestedExactly(file, replies, attempt, hops - 1, offset);
      path := Longer(replies, attempt, (hops, offset), rest);
    } else if IgnoresRange(r, offset) {
      var rest := RequestedExactly(None, replies, attempt, hops, 0);
      path := Longer(replies, attempt, (hops, offset), rest);
    } else {
      path := [(hops, offset)];
    }
  }

  lemma Longer(replies: Replies, attempt: nat, first: Ask, rest: seq<Ask>) returns (path: seq<Ask>)
    requires Trail(replies, attempt, rest) && LeadsTo(replies(attempt, first.0, first.1), first, rest[0])
    ensures Trail(replies, attempt, path) && path == [first] + rest && path[|path| - 1] == rest[|rest| - 1]
  {
    path := [first] + rest;
    forall k | 0 <= k < |path| - 1
      ensures LeadsTo(replies(attempt, path[k].0, path[k].1), path[k], path[k + 1])
    {
      if k > 0 { assert path[k] == rest[k - 1] && path[k + 1] == rest[k]; }
    }
  }

  // ---------- one attempt ----------

  /** What is there is continued unless it is as long as the whole file. */
  function Continued(file: Option<Bytes>, size: int): Option<Bytes> {
    match file case None => None case Some(bytes) => if |bytes| < size then Some(bytes) else None
  }

  /** What arrives in full is kept exactly when size and hash are right; anything else is removed as corrupted. */
  function Judged(got: Option<Bytes>, error: Option<Error>, expected: FileEntry,
          digest: Digest): (Option<Bytes>, Option<Error>) {
    if error.Some? || got.None? then (got, error)
    else if |got.value| == expected.size && digest(got.value) == expected.hash then (got, None)
    else (None, Some(Corrupted))
  }

  lemma AttemptedExactly(file: Option<Bytes>, expected: FileEntry, replies: Replies, digest: Digest, attempt: nat)
    returns (path: seq<Ask>)
    ensures var ready := Continued(file, expected.size);
      var offset := if ready.Some? then |ready.value| else 0;
      && Trail(replies, attempt, path) && path[0] == (3, offset) && |path| <= 5
      && var last := path[|path| - 1];
        var (got, error) :=
          Concluded(if last.1 == offset then ready else None, replies(attempt, last.0, last.1));
        Attempted(file, expected, replies, digest, attempt) == Judged(got, error, expected, digest)
  {
    var ready := Continued(file, expected.size);
    var offset := if ready.Some? then |ready.value| else 0;
    path := RequestedExactly(ready, replies, attempt, 3, offset);
  }

  // ---------- the attempts ----------

  /** Corruption and the transport errors that count as passing are worth another attempt; a status never is. */
  lemma RetryExactly(error: Error, transient: string -> bool)
    ensures IsRetryable(error, transient) <==>
      error == Corrupted || exists message :: error == Transport(message) && transient(message)
  {
    if error.Transport? && transient(error.message) { assert error == Transport(error.message); }
  }

  /** The bytes before each attempt and after the last one, and how each attempt failed, if it did. */
  ghost predicate Attempts(files: seq<Option<Bytes>>, errors: seq<Option<Error>>, expected: FileEntry,
          replies: Replies, digest: Digest, from: nat) {
    && |files| == |errors| + 1
    && forall k :: 0 <= k < |errors| ==>
      (files[k + 1], errors[k]) == Attempted(files[k], expected, replies, digest, from + k)
  }

  lemma OneMoreAttempt(file: Option<Bytes>, error: Option<Error>, later: seq<Option<Bytes>>, more: seq<Option<Error>>,
          expected: FileEntry, replies: Replies, digest: Digest, from: nat)
    requires Attempts(later, more, expected, replies, digest, from + 1)
    requires (later[0], error) == Attempted(file, expected, replies, digest, from)
    ensures Attempts([file] + later, [error] + more, expected, replies, digest, from)
  {
    hide Attempted;
    var files, errors := [file] + later, [error] + more;
    forall k | 0 <= k < |errors|
      ensures (files[k + 1], errors[k]) == Attempted(files[k], expected, replies, digest, from + k)
    {
      if k > 0 {
        assert (later[k - 1 + 1], more[k - 1]) ==
          Attempted(later[k - 1], expected, replies, digest, from + 1 + (k - 1));
      }
    }
  }

  predicate WorthRetrying(error: Option<Error>, transient: string -> bool) {
    error.Some? && (error.value.Corrupted? || (error.value.Transport? && transient(error.value.message)))
  }

  /** Attempts are made one after the other, each on what the one before left, as long as they fail in a way worth
      retrying and there are any left; the file is staged exactly when the last one succeeded. */
  lemma {:induction false} RetriedExactly(file: Option<Bytes>, expected: FileEntry, replies: Replies, digest: Digest,
          transient: string -> bool, from: nat, maxAttempts: nat, last: Option<Error>)
    returns (files: seq<Option<Bytes>>, errors: seq<Option<Error>>)
    ensures Attempts(files, errors, expected, replies, digest, from) && files[0] == file
    ensures from <= maxAttempts ==> from + |errors| <= maxAttempts
    ensures forall k :: 0 <= k < |errors| - 1 ==> WorthRetrying(errors[k], transient)
    ensures var (got, ok, error) := Retried(file, expected, replies, digest, transient, from, maxAttempts, last);
      && got == files[|errors|]
      && (ok <==> errors != [] && errors[|errors| - 1].None?)
      && (!ok && errors != [] ==> error == errors[|errors| - 1])
      && (!ok && from < maxAttempts ==> errors != [])
      && (!ok && from + |errors| < maxAttempts ==> !WorthRetrying(errors[|errors| - 1], transient))
    decreases maxAttempts - from
  {
    hide Attempted;
    if from >= maxAttempts {
      files, errors := [file], [];
    } else {
      var (got, error) := Attempted(file, expected, replies, digest, from);
      if WorthRetrying(error, transient) {
        var later, more := RetriedExactly(got, expected, replies, digest, transient, from + 1, maxAttempts, error);
        files, errors := [file] + later, [error] + more;
        OneMoreAttempt(file, error, later, more, expected, replies, digest, from);
        assert forall k :: 0 < k < |errors| ==> errors[k] == more[k - 1];
      } else {
        files, errors := [file, got], [error];
      }
    }
  }
}

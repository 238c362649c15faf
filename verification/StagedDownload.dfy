/** One file downloaded into the staging area: where to resume, what to do when the server ignores the range,
    and the check at the end (bootstrapper/electron/downloader.js). A file is its bytes, or absent. */
module StagedDownload {
  import opened Wrappers
  import opened Octets
  import opened UpdatePlan

  /** A connection that fails, or a status, whether it names another location, the chunks that arrive and the
      error that ends the transfer early, if one does. */
  datatype Reply =
    | Refused(error: string)
    | Response(status: nat, location: bool, chunks: seq<Bytes>, dropped: Option<string>)

  /** Any server: the reply may depend on the attempt, the redirects still allowed and the offset asked for. */
  type Replies = (nat, nat, nat) -> Reply

  datatype Error = Corrupted | HttpStatus(status: nat) | Transport(message: string) | UnsafePath

  const MAX_REDIRECTS: nat := 3

  predicate Redirects(r: Reply) { r.Response? && r.status in {301, 302, 307, 308} && r.location }

  /** A 206 is appended to what is there, anything else replaces it. */
  function Start(file: Option<Bytes>, r: Reply): Bytes
    requires r.Response?
  {
    if r.status == 206 && file.Some? then file.value else []
  }

  /** One request and those it leads to: redirects are followed, and a range that is not honoured is dropped
      together with the bytes it was meant to continue. */
  function Requested(file: Option<Bytes>, replies: Replies, attempt: nat, hops: nat,
          offset: nat): (r: (Option<Bytes>, Option<Error>))
    ensures r.1.None? ==> r.0.Some?
    decreases hops, offset
  {
    var reply := replies(attempt, hops, offset);
    if reply.Refused? then (file, Some(Transport(reply.error)))
    else if Redirects(reply) && hops > 0 then Requested(file, replies, attempt, hops - 1, offset)
    else if offset > 0 && reply.status != 206 then Requested(None, replies, attempt, hops, 0)
    else if reply.status != 200 && reply.status != 206 then (file, Some(HttpStatus(reply.status)))
    else
      (Some(Start(file, reply) + Joined(reply.chunks)),
       if reply.dropped.Some? then Some(Transport(reply.dropped.value)) else None)
  }

  predicate Verified(expected: FileEntry, digest: Digest, bytes: Bytes) {
    |bytes| == expected.size && digest(bytes) == expected.hash
  }

  /** What is there when the first request goes out: a file that is too long is thrown away. */
  function Resumable(file: Option<Bytes>, expected: FileEntry): Option<Bytes> {
    if file.Some? && |file.value| >= expected.size then None else file
  }

  function Offset(file: Option<Bytes>): nat { if file.Some? then |file.value| else 0 }

  function Attempted(file: Option<Bytes>, expected: FileEntry, replies: Replies, digest: Digest,
          attempt: nat): (Option<Bytes>, Option<Error>) {
    var ready := Resumable(file, expected);
    var (got, error) := Requested(ready, replies, attempt, MAX_REDIRECTS, Offset(ready));
    if error.Some? then (got, error)
    else if Verified(expected, digest, got.value) then (got, None)
    else (None, Some(Corrupted))
  }

  predicate IsRetryable(error: Error, transient: string -> bool) {
    error.Corrupted? || (error.Transport? && transient(error.message))
  }

  /** Attempts from number `attempt` on, as long as the error is one worth retrying. */
  function Retried(file: Option<Bytes>, expected: FileEntry, replies: Replies, digest: Digest,
          transient: string -> bool,
                   attempt: nat, maxAttempts: nat, last: Option<Error>): (r: (Option<Bytes>, bool, Option<Error>))
    decreases maxAttempts - attempt
  {
    if attempt >= maxAttempts then (file, false, last)
    else
      var (got, error) := Attempted(file, expected, replies, digest, attempt);
      if error.None? then (got, true, last)
      else if !IsRetryable(error.value, transient) then (got, false, error)
      else Retried(got, expected, replies, digest, transient, attempt + 1, maxAttempts, error)
  }

  // ---------- safety ----------

  /** Success means the staged bytes have the announced size and hash, whatever the server did. */
  lemma {:induction false} SuccessIsVerified(file: Option<Bytes>, expected: FileEntry, replies: Replies, digest: Digest,
                                             transient: string -> bool, attempt: nat, maxAttempts: nat,
                                               last: Option<Error>)
    ensures var (got, ok, error) := Retried(file, expected, replies, digest, transient, attempt, maxAttempts, last);
      && (ok ==> got.Some? && Verified(expected, digest, got.value))
      && (ok ==> |got.value| == expected.size && digest(got.value) == expected.hash)
    decreases maxAttempts - attempt
  {
    if attempt < maxAttempts {
      var (got, error) := Attempted(file, expected, replies, digest, attempt);
      if error.Some? && IsRetryable(error.value, transient) {
        SuccessIsVerified(got, expected, replies, digest, transient, attempt + 1, maxAttempts, error);
      }
    }
  }

  // ---------- two attempts suffice ----------

  /** The request and those it leads to end with everything from the offset on, or, where the range is not
      honoured, with everything; up to as many redirects as are allowed lie between. */
  predicate Answers(payload: Bytes, replies: Replies, attempt: nat, hops: nat, offset: nat)
    decreases hops, offset
  {
    var r := replies(attempt, hops, offset);
    r.Response? &&
    if Redirects(r) && hops > 0 then Answers(payload, replies, attempt, hops - 1, offset)
    else if offset > 0 && r.status != 206 then Answers(payload, replies, attempt, hops, 0)
    else r.status in {200, 206} && r.dropped.None? && offset <= |payload| && Joined(r.chunks) == payload[offset..]
  }

  /** The server has the payload and answers in full whatever lies inside it; ranges may be honoured, ignored or
      refused, and what is asked for beyond the last byte may be answered in any way. */
  ghost predicate AnswersInFull(payload: Bytes, replies: Replies) {
    forall attempt: nat, offset: nat ::
      offset == 0 || offset < |payload| ==> Answers(payload, replies, attempt, MAX_REDIRECTS, offset)
  }

  predicate Describes(expected: FileEntry, digest: Digest, payload: Bytes) { Verified(expected, digest, payload) }

  lemma {:induction false} RequestAnswered(file: Option<Bytes>, replies: Replies, attempt: nat, hops: nat, offset: nat,
          payload: Bytes)
    requires Answers(payload, replies, attempt, hops, offset) && Offset(file) == offset
    ensures var (got, error) := Requested(file, replies, attempt, hops, offset);
      && error.None? && got.Some?
      && (got.value == payload
        || (0 < offset <= |payload| && file.Some? && got.value == file.value + payload[offset..]))
    decreases hops, offset
  {
    var r := replies(attempt, hops, offset);
    if Redirects(r) && hops > 0 {
      RequestAnswered(file, replies, attempt, hops - 1, offset, payload);
    } else if offset > 0 && r.status != 206 {
      RequestAnswered(None, replies, attempt, hops, 0, payload);
    } else if offset == 0 {
      assert payload[0..] == payload && [] + payload == payload;
    }
  }

  /** With nothing to resume, one attempt is enough; otherwise it is, or it clears the way for the next. */
  lemma OneAttempt(file: Option<Bytes>, expected: FileEntry, replies: Replies, digest: Digest, attempt: nat,
          payload: Bytes)
    requires AnswersInFull(payload, replies) && Describes(expected, digest, payload)
    ensures var (got, error) := Attempted(file, expected, replies, digest, attempt);
      && (error.None? || (error.value == Corrupted && got.None?))
      && (file.None? ==> error.None?)
  {
    var ready := Resumable(file, expected);
    assert Answers(payload, replies, attempt, MAX_REDIRECTS, Offset(ready));
    RequestAnswered(ready, replies, attempt, MAX_REDIRECTS, Offset(ready), payload);
  }

  /** From any staged bytes, a foreign partial included, a server that answers in full needs at most the two
      attempts that are the default, and the file ends up staged and verified. */
  lemma TwoAttemptsSuffice(file: Option<Bytes>, expected: FileEntry, replies: Replies, digest: Digest,
          transient: string -> bool,
                           maxAttempts: nat, payload: Bytes)
    requires AnswersInFull(payload, replies) && Describes(expected, digest, payload) && maxAttempts >= 2
    ensures var (got, ok, error) := Retried(file, expected, replies, digest, transient, 0, maxAttempts, None);
      ok && got.Some? && Verified(expected, digest, got.value)
  {
    OneAttempt(file, expected, replies, digest, 0, payload);
    var (got, error) := Attempted(file, expected, replies, digest, 0);
    if error.Some? {
      OneAttempt(got, expected, replies, digest, 1, payload);
    }
    SuccessIsVerified(file, expected, replies, digest, transient, 0, maxAttempts, None);
  }

  predicate Honours(r: Reply) { r.Response? && r.status == 206 }

  /** One attempt does not: a foreign partial of the right length to be continued spoils it, when the digest
      tells the mixture from the payload. */
  lemma OneAttemptIsNotEnough(foreign: Bytes, expected: FileEntry, replies: Replies, digest: Digest,
          transient: string -> bool, payload: Bytes)
    requires AnswersInFull(payload, replies) && Describes(expected, digest, payload)
    requires 0 < |foreign| < |payload|
    requires Honours(replies(0, MAX_REDIRECTS, |foreign|))
    requires digest(foreign + payload[|foreign|..]) != digest(payload)
    ensures Retried(Some(foreign), expected, replies, digest, transient, 0, 1, None) == (None, false, Some(Corrupted))
  {
    assert Answers(payload, replies, 0, MAX_REDIRECTS, |foreign|);
    assert Requested(Some(foreign), replies, 0, MAX_REDIRECTS, |foreign|) ==
      (Some(foreign + payload[|foreign|..]), None);
  }
}

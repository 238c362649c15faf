# MzzPlork: a verified model

This project models the stateful core of MzzPlork and proves properties of it with Dafny 4.11. `dafny verify dfyconfig.toml` checks everything.

Each part has a specification on plain values, about which the theorems are proved, and, where the program changes things step by step, classes and loops that are proved to do exactly what the specification says.

**Presence and replication.** Every server handler is one atomic step over a session table with one FIFO queue per socket; every client applies messages to an entity map and an interpolator map (`Presence`, `ClientView`). The promise is a simulation: the undelivered messages of each live authenticated client lead it to exactly the current roster. It is preserved by a step *if and only if* the step is benign (`ViewTheorems.StepExact`), and benign is read off the guards: a player id nobody else has, no second `auth` that changes what others see, no position or new id from a session that has left. The handler at `server/src/tcpServer.js:46` has no liveness check, so a line buffered behind a fatal one is still handled; a run from the empty server on which this leaves a ghost player behind is given (`ViewTheorems.BufferedStateReached`). In this system a client subscribes as it is delivered its `auth_result`; in the program the main thread does so later, to one event type after the other (`runtime/src/Replication.cpp:18-20`), and events that arrive before their subscription are dropped (`runtime/src/Runtime.cpp:180-221`). `LateStart` gives, for any three such moments, the exact condition under which the view comes out right all the same, a run on which a newcomer never sees the player already there, and messages that leave a ghost. What the handlers do otherwise is said without them: every message anybody is sent and everything the server remembers (`Transcript`), and, over any run, exactly whom the watchdog throws out (`Heartbeats`). `Server` and `Replication` are the same in place.

**Resource loading.** A failure cascade, Kahn's algorithm with multiplicities, and cycle reporting over a guarded state machine (`ResourceRegistry`). What loading does to a table is said without the algorithm (`Loading.Judged`): doomed by a chain to something missing or failed, stuck on a cycle, or judged by its own file. The comment at `runtime/src/ResourceRegistry.h:58-64` promises that failure cascades to dependents; a failed file check in Kahn's loop does not cascade (`runtime/src/ResourceRegistry.cpp:132-141`), and a dependency left Pending blocks nothing. Both are shown on a concrete table, and both promises are given their exact conditions.

**JSON and framing.** Parser, printer and newline framer. The grammar of what the parser accepts is given independently (`JsonGrammar`) and the parser is proved to accept exactly it (`JsonExact.ParseExact`): it is the grammar of RFC 8259 (sections 2, 6 and 7) with the liberties the code takes: trailing text is ignored (`runtime/src/Json.cpp:213-221`), whitespace is that of `isspace`, control characters may stand in strings, a `\u` escape keeps one byte, and a number is whatever `strtod` accepts among the scanned characters. What a numeral is worth is given from its written form by multiplication (`JsonNumeral`), what escapes and blanks are by code point (`JsonCharacters`). Non-integers print with six digits (`runtime/src/Json.cpp:180`), so round trips are stated for values whose numbers take the exact-integer branch.

**Downloads.** A resumable verified download against an arbitrary server, given as a function of attempt and offset, with every intermediate state of the disk recorded (`Download`, `HttpDownloader`); `DownloadTrace` says from outside, by status, which requests a call makes, what each leaves and how the call ends. Range, 206 and 416 are those of RFC 9110 (sections 14.2, 15.3.7 and 15.5.17). The comment at `runtime/src/HttpDownloader.cpp:271-277` says that running out of attempts preserves the partial file. The bytes the first request found are there behind every request exactly when none is answered 416, first or last, and none by a 200 that replaces them with other bytes, an empty beginning included (`DownloadExhausted`); within a request whose 200 resends them the file is empty for a moment. What is there at the very end is characterised too, since later requests may bring the same bytes again. An honest server may also cut a body short without a sign; then what is installed is still a prefix of the payload, and the whole of it exactly when the last request was answered in full.

**Updates.** Planning against a ledger, two-phase installation, the ledger update and the next plan (`UpdatePlan`, `StagedDownload`, `Updater`, `UnrecordedUpdate`, `Bootstrap`). The comment at `bootstrapper/electron/updateManager.js:94-103` says that a failure never leaves the target half-updated. A rename that throws part-way does (a file in use, line 169): the state it leaves and the exact condition for all or nothing are proved. `UnrecordedUpdate` follows applies that never reached the ledger, each ended in any way or cut off by process death between any two renames or removals: the disk afterwards path by path, recovery by applying the same item again, and, for any later manifest, the exact condition under which one more apply puts everything in place. It does not when the manifest goes back to the recorded version after an update stopped half-way. The comment at lines 51-56 says that a missing file heals on the next run; it does exactly when its component is in the plan at all, and a file of the right size with other contents does not even then. An early return at `bootstrapper/electron/bootstrap.js:79-80` skips writing the ledger, and the next start plans everything again; and since the ledger is written before the final gate, a runtime that fails verification is not planned again for the same manifest.

**Interpolation.** Arithmetic over the reals: convexity, continuity at a retarget, the shortest arc, over runs of any length.

Assumptions: handlers and steps are atomic; `authenticate` supplies any id and always succeeds; relative paths are canonical; the digest is any function of the bytes; the file system does not change under a single `LoadAll`.

## Model

| member | source | states |
|---|---|---|
| PresenceInvariant.StepKeepsTable | server/src/tcpServer.js:15-178 | every step by anybody keeps the table consistent: CONNECTING iff no hello was received, AUTHENTICATED iff the flag, never disconnecting or disconnected inside the table, each session announced at most once, no rejected transition |
| PresenceInvariant.TableAlwaysConsistent | server/src/tcpServer.js:15-33 | the same in every state reachable by any interleaving, so the warning at line 18 is unreachable |
| PresenceInvariant.DisconnectKeeps | server/src/tcpServer.js:15-33 | a disconnect takes the session out of the table, announces it, and is a no-op the second time |
| PresenceInvariant.DisconnectDeparts | server/src/tcpServer.js:15-33 | what every other session has received and remembers after somebody left |
| ViewTheorems.StepExact | server/src/tcpServer.js:35-178 | from any state in which all views are right, a step keeps all views right if and only if it is benign |
| ViewTheorems.MessageExact | server/src/tcpServer.js:46-132 | the same for one handled message of any type |
| ViewTheorems.AuthExact | server/src/tcpServer.js:64-91 | exactly which `auth` messages keep every view right |
| ViewTheorems.ViewsAlwaysAgree | server/src/tcpServer.js:64-113 | in every state reached by benign steps, each live authenticated client's undelivered messages lead it to exactly the roster of the others plus itself, with an interpolator exactly for the remembered states |
| ViewTheorems.DeliveredViewIsRoster | runtime/src/Replication.cpp:55-101 | a client that has received everything shows that roster now |
| ViewTheorems.BenignRunAgrees | server/src/tcpServer.js:35-178 | view agreement is kept over whole runs from any agreeing state |
| ViewTheorems.OrderlyIsBenign | server/src/tcpServer.js:46-132 | fresh ids, one `auth` per session and nothing handled after removal are enough |
| ViewTheorems.BufferedStateBreaks | server/src/tcpServer.js:105-113 | whenever somebody watched leaves with a position buffered behind the `disconnect`, views are wrong afterwards |
| ViewTheorems.BufferedStateReached | server/src/tcpServer.js:105-128 | a concrete run from the empty server, orderly but for its last step, that ends with wrong views |
| ViewTheorems.BadIdBreaks | server/src/tcpServer.js:64-91 | a first `auth` with an empty or taken id breaks agreement |
| ViewTheorems.SecondAuthExact | server/src/tcpServer.js:64-91 | a second `auth` is harmless exactly when it changes nothing others see |
| ViewExact.FirstAuthViews | server/src/tcpServer.js:75-88 | a newcomer with a free id is told the whole roster and everybody else is told of the newcomer |
| ViewExact.LateAuthGhost | server/src/tcpServer.js:64-91 | an `auth` from a removed session leaves viewers with a player nobody plays as |
| ViewExact.LateAuthViews | server/src/tcpServer.js:64-91 | unless the id is empty, taken, or nobody watches |
| ViewExact.LateMoveExact | server/src/tcpServer.js:105-113 | a position from a removed session is harmless exactly when every viewer shows it already or is that player |
| ViewAgreement.DepartureViews | server/src/tcpServer.js:26-30 | whoever leaves disappears from every view |
| ViewAgreement.MoveViews | server/src/tcpServer.js:105-113 | a relayed position appears in every other view and nowhere else |
| ViewAgreement.WatchdogViews | server/src/tcpServer.js:148-156 | the watchdog's sweep keeps every view right, however many sessions it removes |
| ViewAgreement.ShutdownViews | server/src/tcpServer.js:167-175 | so does shutdown |
| Roster.BackfillShows | server/src/tcpServer.js:79-86 | the introductions sent in table order build exactly the roster on a fresh client |
| Roster.ViewJoins | runtime/src/Replication.cpp:55-64 | `player_joined` turns a right view into a right view of the larger roster |
| Roster.ViewLeaves | runtime/src/Replication.cpp:66-75 | `player_left` likewise for the smaller roster, removing entity and interpolator |
| Roster.ViewMoves | runtime/src/Replication.cpp:77-101 | `player_state` likewise for the moved player |
| ClientView.ApplyConcat | runtime/src/Replication.cpp:15-21 | delivery is incremental: a queue may be applied in any two parts |
| LateStart.LateStartExactly | runtime/src/Replication.cpp:15-21 | a client that drops what arrives before each of its three subscriptions ends up as one that dropped none iff every player known differently by the last of them leaves later, or is shown again, and introduced again under its name if only one of the two knows it |
| LateStart.CaughtUpForGood | runtime/src/EventSystem.cpp:10-19 | once that holds it holds for whatever is sent later |
| LateStart.LateViewExactly | runtime/src/Runtime.cpp:180-221 | in any agreeing state, whatever has been sent by then, such a client's view of the roster comes out right iff that holds |
| LateStart.BackfillLost | runtime/src/Runtime.cpp:180-221 | a run from the empty server after which the second player's late client shows nobody |
| LateStart.GhostKept | runtime/src/Replication.cpp:18-20 | a player introduced and gone between the first two subscriptions stays in the view |
| Server.SessionObject.TransitionTo | server/src/session.js:54-58 | applied and true when legal, ignored and false otherwise |
| PresenceInvariant.WatchdogExactly | server/src/tcpServer.js:148-156 | one tick removes exactly the sessions it walks over that have been silent for longer than the timeout, and touches no heartbeat |
| Heartbeats.SilentExactly | server/src/tcpServer.js:148-156 | after any run from the empty server a tick lets a connected session stay iff its last heartbeat, or its connection if there was none, is no longer ago than the timeout |
| Heartbeats.MessageBeats | server/src/tcpServer.js:92-96 | a heartbeat is recorded for its sender, and no other message changes anybody's |
| Heartbeats.HeartbeatSaves | server/src/session.js:45-52 | a session whose heartbeat has just been handled in time survives the next tick |
| Transcript.SaysExactly | server/src/tcpServer.js:46-132 | for every request, every session is sent exactly the listed messages: the answer, the reason for a kick, the broadcasts, nothing else |
| Transcript.RemembersExactly | server/src/tcpServer.js:46-132 | for every request, what the server then remembers of its sender, and that it remembers of everybody else what it did before |
| Transcript.CompatibleExactly | server/src/protocol.js:18-24 | compatible versions are "1" and those that begin with "1." |
| Transcript.DisconnectTold | server/src/tcpServer.js:15-33 | whoever leaves the table is told why, the others who it was, and the socket takes nothing more |
| Transcript.TimeoutTold | server/src/tcpServer.js:148-156 | the last thing an expired session hears is the heartbeat timeout |
| Transcript.ShutdownTold | server/src/tcpServer.js:167-175 | the last thing a session hears at shutdown is that |
| ConnectionState.EnteredExactly | server/src/connectionState.js:18-24 | from which states each state can be entered |
| Server.TcpServer.BroadcastExcept | server/src/eventBus.js:15-31 | the loop reaches exactly the other authenticated sessions in the table |
| Server.TcpServer.DisconnectSession | server/src/tcpServer.js:15-33 | in place, exactly the modelled step |
| Server.TcpServer.OnHello | server/src/tcpServer.js:48-63 | in place, exactly the modelled step |
| Server.TcpServer.OnAuth | server/src/tcpServer.js:64-91 | in place, with the loop over the table, exactly the modelled step |
| Server.TcpServer.OnPlayerState | server/src/tcpServer.js:105-113 | in place, exactly the modelled step |
| Server.TcpServer.OnResourcesReady | server/src/tcpServer.js:114-124 | in place, exactly the modelled step |
| Server.TcpServer.OnMessage | server/src/tcpServer.js:46-132 | in place, the whole switch is the modelled step |
| Server.TcpServer.OnConnection | server/src/tcpServer.js:35-40 | in place, a new session at the end of the table |
| Server.TcpServer.OnClose | server/src/tcpServer.js:134-142 | in place, exactly the modelled disconnect; for a session that has left already, nothing at all |
| Server.TcpServer.Watchdog | server/src/tcpServer.js:148-156 | in place, over a copy of the table, exactly the modelled sweep |
| Server.TcpServer.Shutdown | server/src/tcpServer.js:167-175 | in place, exactly the modelled sweep |
| Replication.EntityManager.DestroyEntity | runtime/src/EntityManager.cpp:19-30 | removed, and whether it was there |
| Replication.Replication.OnPlayerJoined | runtime/src/Replication.cpp:55-64 | the client's view becomes what the event makes of it |
| Replication.Replication.OnPlayerLeft | runtime/src/Replication.cpp:66-75 | the client's view becomes what the event makes of it |
| Replication.Replication.OnPlayerState | runtime/src/Replication.cpp:77-101 | the client's view becomes what the event makes of it, the interpolator aimed at the state |
| Replication.Replication.GetInterpolatedState | runtime/src/Replication.cpp:103-109 | there is a smoothed state exactly for players with a remembered one, and once time has passed it is that one |
| Graph.WaitingReachesCycle | runtime/src/ResourceRegistry.cpp:144-151 | in a finite set where every node waits for another, every node reaches a cycle |
| Graph.OrderedHasNoCycle | runtime/src/ResourceRegistry.cpp:126-142 | what comes after all its dependencies reaches no cycle |
| Kahn.Release | runtime/src/ResourceRegistry.cpp:139-141 | counters drop by multiplicity and exactly those that reach zero are queued, once each |
| Kahn.StepKeepsCounts | runtime/src/ResourceRegistry.cpp:127-142 | in-degrees keep counting, with multiplicity, the dependencies not processed yet |
| Kahn.StepKeepsQueue | runtime/src/ResourceRegistry.cpp:127-142 | the queue keeps holding, once each, the unprocessed nodes nothing holds back |
| Kahn.OrderGrows | runtime/src/ResourceRegistry.cpp:127-130 | what is dequeued comes after all its dependencies |
| Kahn.KahnExact | runtime/src/ResourceRegistry.cpp:121-151 | on an empty queue the processed nodes are exactly those with no path into a cycle, self-loops and repeated dependencies included |
| Cascade.CascadeComplete | runtime/src/ResourceRegistry.cpp:73-101 | when no pass changes anything, what is still Cached is exactly what has no chain to a missing or failed dependency |
| Cascade.StuckSurvives | runtime/src/ResourceRegistry.cpp:103-119 | taking the doomed records out changes nobody else's reachability of a cycle |
| Cascade.LoadConserves | runtime/src/ResourceRegistry.cpp:61-154 | loaded + failed is the number of records that were Cached, whenever errors are reported once each and nobody is left Cached |
| Cascade.AccountFailure | runtime/src/ResourceRegistry.cpp:86-97 | reporting a failure keeps the error list the exact account of what failed |
| Cascade.AccountLoad | runtime/src/ResourceRegistry.cpp:132-133 | counting a load keeps the counter the number of records newly loaded |
| Loading.DoomedIsLeast | runtime/src/ResourceRegistry.cpp:73-101 | the doomed records are the least fixpoint of the cascade rule |
| Loading.LoadedBySize | runtime/src/ResourceRegistry.cpp:37-51 | a loadable record ends Loaded iff the file at its path has the recorded size, or any size when none is recorded; otherwise it ends Failed with the matching text |
| Loading.NotLoadableFails | runtime/src/ResourceRegistry.cpp:73-151 | every other Cached record ends Failed and blames a dependency that is unknown or failed, or a cycle |
| Loading.OrderIrrelevant | runtime/src/ResourceRegistry.cpp:61-154 | final states do not depend on iteration order; only the dependency a doomed record names may |
| Loading.SecondLoadIsIdle | runtime/src/ResourceRegistry.cpp:61-154 | loading again changes nothing, whatever happened to the files |
| Loading.LoadedExactly | runtime/src/ResourceRegistry.cpp:54-59 | Loaded afterwards iff Loaded before, or Cached, not doomed, not stuck, and the file passes |
| Loading.DependenciesLoadedExactly | runtime/src/ResourceRegistry.h:58-64 | everything loaded stands on loaded dependencies iff no loadable record with a fresh file depends on an unready one |
| Loading.DependencyClosure | runtime/src/ResourceRegistry.cpp:68-151 | so it does when all is Cached or Failed and all files pass, and then the loaded records are the Cached ones with no path to anything missing, failed or cyclic |
| Loading.FailureCascadesExactly | runtime/src/ResourceRegistry.h:58-64 | the documented cascade happens iff no loadable record with a fresh file depends on a loadable one with a stale file |
| Loading.StaleFileDoesNotCascade | runtime/src/ResourceRegistry.cpp:132-141 | a concrete table on which the documented cascade does not happen |
| Loading.PendingDoesNotBlock | runtime/src/ResourceRegistry.cpp:112-117 | a concrete table on which a Pending dependency does not hold its dependent back |
| ResourceRegistry.ResourceRegistry.LoadManifest | runtime/src/ResourceRegistry.cpp:13-21 | a fresh Pending record for every id, the last entry winning |
| ResourceRegistry.ResourceRegistry.TransitionTo | runtime/src/ResourceRegistry.cpp:23-30 | applied exactly when the record exists and the move is legal, otherwise nothing changes |
| ResourceRegistry.ResourceRegistry.ValidateAndMarkLoaded | runtime/src/ResourceRegistry.cpp:37-51 | the record becomes what its file deserves, with the error text |
| ResourceRegistry.ResourceRegistry.LoadOne | runtime/src/ResourceRegistry.cpp:54-59 | attempts are logged; true iff the record may load and its file passes |
| ResourceRegistry.ResourceRegistry.FirstBroken | runtime/src/ResourceRegistry.cpp:83-99 | the reason comes from the first broken dependency, none means none is broken |
| ResourceRegistry.ResourceRegistry.CascadeFailures | runtime/src/ResourceRegistry.cpp:73-101 | fails exactly the doomed records, each with a true reason, and reports each once |
| ResourceRegistry.ResourceRegistry.BuildGraph | runtime/src/ResourceRegistry.cpp:106-119 | in-degrees and reversed edges of the Cached records, with multiplicity |
| ResourceRegistry.ResourceRegistry.TakeNext | runtime/src/ResourceRegistry.cpp:127-142 | one turn of the loop keeps counters, queue, order and account |
| ResourceRegistry.ResourceRegistry.RunKahn | runtime/src/ResourceRegistry.cpp:121-142 | attempts exactly the records with no path into a cycle, once each, every one after its dependencies |
| ResourceRegistry.ResourceRegistry.FailCycles | runtime/src/ResourceRegistry.cpp:144-151 | everything still Cached fails as a circular dependency, nothing else changes |
| ResourceRegistry.ResourceRegistry.LoadAll | runtime/src/ResourceRegistry.cpp:61-154 | the table becomes what the declarative verdict says, with exact accounts and a topological order of attempts |
| ResourceRegistry.ResourceRegistry.Start | runtime/src/ResourceRegistry.cpp:156-162 | succeeds exactly from Loaded or Stopped |
| ResourceRegistry.ResourceRegistry.Stop | runtime/src/ResourceRegistry.cpp:164-170 | succeeds exactly from Started |
| ResourceRegistry.ResourceRegistry.Reload | runtime/src/ResourceRegistry.cpp:172-196 | the file is looked at again; a running resource runs again exactly if it passes |
| ResourceRegistry.ReloadedBySize | runtime/src/ResourceRegistry.cpp:172-196 | a reload keeps a started resource started, or makes a stopped one Loaded, iff the file fits the recorded size; otherwise it fails with the matching text, and nothing else changes |
| ResourceState.EnteredExactly | runtime/src/ResourceState.cpp:20-42 | from which states each state can be entered |
| ResourceManager.FileResourceManager.ApplyEntry | runtime/src/ResourceManager.cpp:78-106 | in place: kept when the file matches, otherwise what the downloader makes of it; the record, the files and exactly one count follow, no other file is touched, and an entry that did not fail has its file intact |
| ResourceManager.FileResourceManager.ApplyManifest | runtime/src/ResourceManager.cpp:64-117 | in place: every entry in turn as specified, with the records and the counts that follow from how each ended; with separate paths each Cached record has its file intact at the end |
| ResourceManager.IntactSurvives | runtime/src/ResourceManager.cpp:78-106 | a separate entry's download leaves an intact file intact |
| ResourceManager.SettledExactly | runtime/src/ResourceManager.cpp:78-106 | a record ends Failed iff one of its entries failed, with the text of the first that did, and Cached otherwise |
| ResourceManager.NothingToDo | runtime/src/ResourceManager.cpp:27-37 | a manifest whose files are all there with size and hash changes no file and downloads nothing |
| ResourceManager.EverythingHad | runtime/src/ResourceManager.cpp:78-106 | with separate paths, standard servers and renames that work, exactly the entries whose files were not on disk at the start are downloaded, and none fails |
| ResourceManager.AvailableManifest | runtime/src/ResourceManager.cpp:64-117 | then every record ends Cached with its file intact |
| ResourceManager.TallyCounts | runtime/src/ResourceManager.cpp:76-117 | the three counts add up, and each is everything or nothing exactly when the entries say so |
| Lifecycle.NeverPastCachedUnverified | runtime/src/ResourceRegistry.h:31-34 | in any run a resource is past Cached only if it was there at the start or was Cached at an earlier moment |
| Lifecycle.VerifiedBeforeLoaded | runtime/src/ResourceManager.cpp:64-117 | after a manifest, through any loading, starting, stopping and reloading, only resources whose file passed every check get past Cached |
| Lifecycle.FailedIsFinal | runtime/src/ResourceState.cpp:38-39 | a failed record stays exactly as it is until the next manifest |
| JsonExact.ParseExact | runtime/src/Json.cpp:126-153 | a text is read as a value with a rest if and only if it is a document of the grammar with that meaning, followed by that rest |
| JsonExact.DocComplete | runtime/src/Json.cpp:32-153 | every document, with any blanks, escapes and key order, is read back as its meaning and the cursor stops right behind it |
| JsonExact.DocSound | runtime/src/Json.cpp:32-153 | whatever is accepted is such a document |
| JsonParser.ParseValue | runtime/src/Json.cpp:126-153 | reading terminates on every input and moves strictly forward on success |
| JsonNumeral.NumeralExactly | runtime/src/Json.cpp:141-152 | a text is read as the number v iff it is a sign, digits with or without a point, and an exponent or none, and v times the powers of ten they stand for is what the digits print |
| JsonNumeral.NumberIsRead | runtime/src/Json.cpp:141-152 | such a numeral in front of anything that does not continue it is parsed as that number, the rest left |
| JsonNumeral.PrintsExactly | runtime/src/Json.cpp:148 | digits have the value n iff they are zeros followed by n as it is printed |
| JsonNumeral.PowerOfTen | runtime/src/Json.cpp:148 | a power of ten is what a one and so many zeros print |
| JsonNumeral.NoLeadingZero | runtime/src/Json.cpp:180 | no integer is printed with a leading zero |
| JsonCharacters.BlankExactly | runtime/src/Json.cpp:20-22 | the characters that are skipped, by code point |
| JsonCharacters.EscapeExactly | runtime/src/Json.cpp:42-50 | the escape letters and the code points they stand for |
| JsonCharacters.PrintedExactly | runtime/src/Json.cpp:155-169 | exactly five characters are escaped when printed, each by the letter that is read back as it |
| JsonCharacters.HexByteExactly | runtime/src/Json.cpp:51-57 | the byte of a `\u` escape with blanks, sign and prefix in front and junk behind: the low byte of the number or of its negative |
| JsonCharacters.FourDigits | runtime/src/Json.cpp:51-57 | of four hex digits the last two are the byte |
| JsonCharacters.HexDigitExactly | runtime/src/Json.cpp:51-57 | the hex digits, in either case, and their values |
| JsonCharacters.NumberPrinted | runtime/src/Json.cpp:171-185 | integers that fit 64 bits are printed digit by digit, other numbers by the stream |
| JsonLexis.IntTextNumeral | runtime/src/Json.cpp:141-152 | reading a printed integer gives that integer |
| JsonValue.LessExactly | runtime/src/Json.cpp:114 | keys are ordered by their first difference, a proper beginning first |
| JsonValue.InsertIsUpdate | runtime/src/Json.cpp:114 | assigning a key keeps the object sorted and is a map update |
| JsonPrinter.EscapeJsonString | runtime/src/Json.cpp:155-169 | the loop produces the escaped text |
| JsonPrinter.StringifyInto | runtime/src/Json.cpp:171-209 | the stream grows by exactly the printed text of the value |
| JsonReader.ParseStringLiteral | runtime/src/Json.cpp:32-71 | the cursor loop reads exactly what the text says, errors included |
| JsonReader.ReadArray | runtime/src/Json.cpp:75-96 | the cursor loop reads exactly what the text says, errors included |
| JsonReader.ReadObject | runtime/src/Json.cpp:98-124 | the cursor loop reads exactly what the text says, errors included |
| JsonReader.ReadNumber | runtime/src/Json.cpp:141-152 | the scan and conversion read exactly what the text says, errors included |
| JsonReader.ReadValue | runtime/src/Json.cpp:126-153 | the cursor stays inside the text and ends where the specification ends |
| JsonReader.Parse | runtime/src/Json.cpp:213-221 | one value from the start, the rest ignored |
| JsonReader.ParseObject | runtime/src/Json.cpp:223-237 | additionally the root must be an object |
| JsonRoundTrip.CompactIsText | runtime/src/Json.cpp:171-209 | printing a value is rendering a document that means that value |
| JsonRoundTrip.PrintedIsRead | runtime/src/Json.cpp:126-209 | a printed value with exactly printed numbers, followed by anything that does not continue it, is read back and the cursor stops at the rest |
| JsonRoundTrip.PrintInjective | runtime/src/Json.cpp:171-209 | different values print differently |
| JsonRoundTrip.TextNoNewline | runtime/src/Json.cpp:155-209 | printing never emits a raw newline |
| NetworkState.FromToJson | runtime/src/NetworkState.cpp:36-60 | decoding undoes encoding for every snapshot |
| NetworkState.EncodedExactly | runtime/src/NetworkState.cpp:36-43 | the encoded object has exactly four fields, with each number under its name |
| NetworkState.DecodedExactly | runtime/src/NetworkState.cpp:45-60 | any object is decoded number by number; what is missing or of another type is zero, and the timestamp loses its fraction |
| NetworkState.FromJsonIgnoresPlayerId | server/src/tcpServer.js:111 | the id the relay adds does not disturb decoding |
| NetworkState.SnapshotCarried | runtime/src/NetworkState.cpp:36-60 | a snapshot with exactly printed numbers survives printing, parsing and decoding, with or without the relay's id |
| Framing.CutAnywhere | runtime/src/TcpServerConnection.cpp:143-147 | cutting a stream in two changes neither the complete lines nor the unfinished one |
| Framing.ChunkingIrrelevant | runtime/src/TcpServerConnection.cpp:125-166 | any chunks of a stream dispatch the same messages in the same order and leave the same unfinished line |
| Framing.LineReader.Receive | runtime/src/TcpServerConnection.cpp:129-166 | in place: the messages of the complete lines are appended and the buffer holds no newline |
| Framing.LineReader.DispatchLine | runtime/src/TcpServerConnection.cpp:146-164 | in place: at most one message, skipped lines included |
| Framing.DispatchExactly | runtime/src/TcpServerConnection.cpp:146-164 | a line that begins with a document is one message iff that is an object with a string type, its payload printed again or an empty object |
| Framing.DispatchNothing | runtime/src/TcpServerConnection.cpp:146-164 | a line that begins with no document is skipped |
| Framing.LineIsDoc | runtime/src/TcpServerConnection.cpp:100 | a sent line is a document with the type and the payload |
| Framing.LineDelivered | runtime/src/TcpServerConnection.cpp:98-164 | one sent line is one delivered message with the same type and payload text |
| Framing.WireDelivers | runtime/src/TcpServerConnection.cpp:98-166 | any list of messages, sent line after line and cut into any chunks, arrives as exactly that list with nothing left over |
| ServerFraming.MessageFramer.OnData | server/src/protocol.js:41-59 | in place: the events of the complete lines are emitted in order and the buffer holds no newline |
| ServerFraming.EmittedExactly | server/src/protocol.js:47-57 | a line that is not blank emits exactly one event: a message iff it parses with a string type, otherwise the matching protocol error |
| ServerFraming.ServerChunkingIrrelevant | server/src/protocol.js:41-59 | any chunks of a client's bytes emit the same events in the same order |
| ServerFraming.LinesStandAlone | server/src/protocol.js:47-57 | a line, malformed or not, does not change what the lines around it emit |
| Octets.JoinedConcat | runtime/src/HttpDownloader.cpp:155-175 | the chunks of a body are joined in the order they arrive |
| HttpDownloader.Downloader.Matches | runtime/src/HttpDownloader.cpp:53-67 | true iff the file is there and passes every supplied check |
| HttpDownloader.Downloader.PerformSingleAttempt | runtime/src/HttpDownloader.cpp:79-187 | in place, chunk by chunk: the modelled disk states and outcome of one request |
| HttpDownloader.Downloader.TryAll | runtime/src/HttpDownloader.cpp:227-283 | in place: the retry loop is the modelled sequence of attempts |
| HttpDownloader.Downloader.Finalize | runtime/src/HttpDownloader.cpp:285-334 | in place: size, digest and rename as modelled |
| HttpDownloader.Downloader.DownloadAndVerify | runtime/src/HttpDownloader.cpp:191-335 | in place: files, disk history, states, requests and result are the modelled ones |
| DownloadSafety.SafeAgainstAnyServer | runtime/src/HttpDownloader.cpp:191-335 | at every moment the destination is untouched or passes every check and no other file is touched; success means it passes, failure that it is untouched |
| DownloadSafety.DownloadAsks | runtime/src/HttpDownloader.cpp:211-268 | at most max(1, maxAttempts) requests, none iff the file already matches, each for exactly the bytes after those on disk |
| DownloadSafety.StatesFormARun | runtime/src/HttpDownloader.cpp:191-335 | the announced states are a run of one automaton ending in Completed on success and in Failed otherwise |
| DownloadTrace.CallExactly | runtime/src/HttpDownloader.cpp:79-335 | a call as a trace, by status: nothing is asked for a file that is there; otherwise every answer that is neither complete nor final is followed by a request that finds what it left, until the attempts run out; the last answer decides the error, or size, digest and rename do, in this order |
| DownloadTrace.AnnouncedExactly | runtime/src/HttpDownloader.cpp:191-335 | every announced state: each request as fresh or resumed, each interruption, the verification and the end |
| DownloadTrace.ServerErrorsAreRetried | runtime/src/HttpDownloader.cpp:119-121 | after any status of 500 or more with attempts left the same bytes are asked for again |
| DownloadTrace.StatusEndsCall | runtime/src/HttpDownloader.cpp:107-126 | a call ends with a bare status iff its last answer is a status below 500 other than 200, 206 and 416 |
| DownloadExhausted.ExhaustionKeepsPartialExactly | runtime/src/HttpDownloader.cpp:227-283 | when attempts run out, the bytes the first request found are at the start of the partial file behind every request iff there were none, or no request was answered 416 and none by a writable 200 with other bytes |
| DownloadExhausted.ExhaustionEndsWithExactly | runtime/src/HttpDownloader.cpp:270-283 | they are there at the end iff the file was never started over, or what came since starts with them |
| DownloadExhausted.Earlier416LosesPartial | runtime/src/HttpDownloader.cpp:253-259 | a first 416 and then a 503 lose the partial file although the last answer is not a 416 |
| DownloadExhausted.Dropped200EmptiesPartial | runtime/src/HttpDownloader.cpp:155 | a 200 that breaks off before its first byte empties the partial file |
| DownloadExhausted.RefetchedAfter416 | runtime/src/HttpDownloader.cpp:253-267 | after a 416 the same bytes may be there again at the end |
| DownloadResume.HonestDownload | runtime/src/HttpDownloader.cpp:131-187 | with an honest server, which may cut any body short unnoticed, the partial file is a prefix of the payload at every moment and so is what is installed; it is the whole payload iff the last request was answered in full, and always when the size is announced |
| DownloadResume.PrefixForLife | runtime/src/HttpDownloader.cpp:211-268 | the same across any number of calls, each of which may be cut off by process death after any write |
| DownloadResume.SucceedsExactly | runtime/src/HttpDownloader.cpp:191-335 | success iff nothing was to do, or the rename works and the last request was answered in full or was cut short in a way neither transfer nor checks can tell; the latter is impossible when truncation is noticed, the checks discern it, or a size is announced |
| DownloadResume.FullAnswerInstalls | runtime/src/HttpDownloader.cpp:285-334 | a request that is made and answered in full, at the offset it asks for, is the last one; it installs exactly the payload and leaves no partial file |
| DownloadResume.StandardServerInstalls | runtime/src/HttpDownloader.cpp:253-267 | from any prefix, a server that answers in full inside the payload and in full or 416 at its end needs at most the default two attempts |
| DownloadResume.TruncationInstalled | runtime/src/HttpDownloader.cpp:137-146 | without size and hash an unnoticed truncation is installed |
| DownloadResume.RangeRefusalWastesPartial | runtime/src/HttpDownloader.cpp:253-259 | a partial file an honest server lets go to waste |
| UpdatePlan.PlanComponent | bootstrapper/electron/updateManager.js:43-70 | in place: the item the plan is specified to hold |
| UpdatePlan.PlanUpdate | bootstrapper/electron/updateManager.js:40-77 | in place: the plan, component by component |
| UpdatePlan.PlanPartitions | bootstrapper/electron/updateManager.js:57-69 | kept and downloaded files partition the remote ones, kept iff the ledger knows the content, removed iff only the ledger knows the path |
| UpdatePlan.MatchingInOrder | bootstrapper/electron/updateManager.js:57-67 | kept and downloaded files stay in the order of the manifest |
| UpdatePlan.ObsoleteInOrder | bootstrapper/electron/updateManager.js:69 | removed paths stay in the order of the ledger |
| UpdatePlan.OmittedExactly | bootstrapper/electron/updateManager.js:71-74 | with unique remote paths, omitted iff versions and path to (hash, size) maps agree |
| UpdatePlan.UnknownExactly | bootstrapper/electron/updateManager.js:45 | a component the ledger does not know is left out iff it is version 0.0.0 without files |
| UpdatePlan.ReplanLeavesTheRest | bootstrapper/electron/bootstrap.js:66-84 | once some components are recorded, planning again asks for exactly the others |
| StagedTrace.RequestedExactly | bootstrapper/electron/downloader.js:62-99 | the requests of one attempt as a trail of redirects (301, 302, 307, 308, three at most) and dropped ranges, and what the last answer makes of the file |
| StagedTrace.AttemptedExactly | bootstrapper/electron/downloader.js:38-114 | one attempt: what is continued, its trail, and the check of size and hash |
| StagedTrace.RetriedExactly | bootstrapper/electron/updateManager.js:143-159 | attempts follow one another exactly as long as they fail by corruption or a passing transport error and there are any left |
| StagedDownload.SuccessIsVerified | bootstrapper/electron/downloader.js:102-113 | success means size and hash are right, whatever the server did |
| StagedDownload.TwoAttemptsSuffice | bootstrapper/electron/downloader.js:38-114 | from any staged bytes, with a server that answers in full what lies inside the payload, behind redirects or not, and may honour, ignore or refuse ranges, two attempts end with a verified file |
| StagedDownload.OneAttemptIsNotEnough | bootstrapper/electron/downloader.js:41-48 | one attempt may not: a foreign partial file spoils it |
| Updater.ComponentArea.Request | bootstrapper/electron/downloader.js:62-99 | in place: redirects, the dropped range and the body as modelled; no other staged file changes |
| Updater.ComponentArea.DownloadFile | bootstrapper/electron/downloader.js:38-114 | in place: one attempt as modelled; no other staged file changes |
| Updater.ComponentArea.FetchFile | bootstrapper/electron/updateManager.js:143-159 | in place: the retry loop as modelled; no other staged file changes |
| Updater.ComponentArea.StageFiles | bootstrapper/electron/updateManager.js:127-160 | in place: phase one as modelled; the installed files are not touched |
| Updater.ComponentArea.MoveFiles | bootstrapper/electron/updateManager.js:167-170 | in place: files are renamed in order up to the first that throws, as modelled |
| Updater.ComponentArea.RemoveObsolete | bootstrapper/electron/updateManager.js:172-182 | in place: what is obsolete and there is removed and listed |
| Updater.ComponentArea.ApplyItem | bootstrapper/electron/updateManager.js:104-195 | in place: one component from its own files to its result, be it applied, failed or interrupted by a rename |
| Updater.ComponentArea.VerifyComponentFiles | bootstrapper/electron/updateManager.js:201-217 | exactly the absent files are reported missing and exactly those with another size or hash corrupt; none of either iff every file is in place |
| Updater.StagedAllVerified | bootstrapper/electron/updateManager.js:127-160 | staging that succeeds leaves every file staged and verified, and never touches other staged files |
| Updater.MovedInto | bootstrapper/electron/updateManager.js:167-170 | exactly the files before the first that cannot be renamed land under their own paths; nothing else of the target changes and the others stay staged |
| UpdateTheorems.StagingExactly | bootstrapper/electron/updateManager.js:127-160 | staging fails at the first file whose path is unsafe or that is neither staged already with size and hash nor brought by its attempts, and says why; otherwise it succeeds |
| UpdateTheorems.AllOrNothingExactly | bootstrapper/electron/updateManager.js:94-103 | an apply is complete or leaves the installed files byte for byte as they were iff no rename throws after one that brought something new |
| UpdateTheorems.HalfUpdated | bootstrapper/electron/updateManager.js:167-170 | a concrete component left half-updated by a file in use |
| UpdateTheorems.InterruptedState | bootstrapper/electron/updateManager.js:167-170 | an interrupted component: the files before the failing one installed and verified, the others as before, that one and the later ones still staged and verified |
| UpdateTheorems.FailureLeavesTarget | bootstrapper/electron/updateManager.js:162-165 | a component that is not applied changes bytes of needed files only, and none of the installed ones when a file could not be had |
| UpdateTheorems.SuccessInstalls | bootstrapper/electron/updateManager.js:167-182 | an applied component: needed files verified, obsolete ones gone, all others as they were |
| UpdateTheorems.ReportsExactly | bootstrapper/electron/updateManager.js:184-192 | the reported downloads, removals and kept files are the true ones, the planned downloads first, under the manifest's version and files |
| UpdateTheorems.NeededUnique | bootstrapper/electron/updateManager.js:116-125 | a planned item with unique remote paths never names a path twice, so it can be applied |
| UpdateTheorems.VerifiesExactly | bootstrapper/electron/updateManager.js:201-217 | after success every manifest file verifies iff the ledger was right about the files it let stay |
| UpdateTheorems.AvailableApplies | bootstrapper/electron/updateManager.js:127-170 | with servers that answer in full and files that can be replaced the default two attempts apply the item from any staging area |
| UpdateTheorems.HealsExactly | bootstrapper/electron/updateManager.js:51-74 | everything is in place afterwards iff it was before, or, for a planned component, iff no known file of the right size has other contents |
| UnrecordedUpdate.EndIsReached | bootstrapper/electron/updateManager.js:162-182 | however an apply ends, its target is that of one moment between two renames or removals |
| UnrecordedUpdate.StandsAfterAll | bootstrapper/electron/updateManager.js:167-182 | after any number of unrecorded applies for any manifests, each ended or cut off anywhere, each path holds what last landed there, nothing if it was last removed, and otherwise what it held at the start |
| UnrecordedUpdate.UnrecordedHealsExactly | bootstrapper/electron/updateManager.js:40-77 | then one apply for any manifest, with available and replaceable files, puts everything in place iff no file the plan lets stay landed or stood there with its recorded size and other contents; for a component left out, iff everything happens to be in place |
| UnrecordedUpdate.FaithfulKept | bootstrapper/electron/updateManager.js:116-125 | however far an apply gets, the ledger is exactly as right about the disk as before |
| UnrecordedUpdate.InterruptedUpdateRecovers | bootstrapper/electron/updateManager.js:104-182 | after any number of applies of one item, each ended in any way or cut off anywhere, one more with available and replaceable files succeeds, and then all manifest files are in place iff the ledger was faithful at the start |
| UnrecordedUpdate.RolledBack | bootstrapper/electron/updateManager.js:71-74 | a concrete update that stops after its first file and is taken back by the next manifest: the component is not planned and keeps that file |
| Bootstrap.Bootstrapper.ApplyUpdate | bootstrapper/electron/updateManager.js:104-195 | each component's result and files depend on its own item and files only, untried ones stay as they are, and only a rename that throws ends the loop early |
| Bootstrap.Bootstrapper.RecordResults | bootstrapper/electron/bootstrap.js:66-84 | the ledger takes in exactly the successful components, unless a first install failed on the runtime: then nothing is written |
| Bootstrap.Bootstrapper.RunUpdate | bootstrapper/electron/bootstrap.js:58-99 | one start from plan to verification: files, ledger and what the outcome tells about both |
| Bootstrap.NextPlan | bootstrapper/electron/bootstrap.js:59-84 | the next plan is exactly what is left iff the ledger was written or no planned component succeeded, and empty iff there was nothing to do or everything succeeded and was recorded |
| Bootstrap.FirstInstallForgets | bootstrapper/electron/bootstrap.js:79-80 | a concrete first install whose resources are in place and are planned again |
| Bootstrap.RecordedIsOmitted | bootstrapper/electron/bootstrap.js:66-84 | a recorded component is not in the next plan, whatever its files look like |
| Bootstrap.StartTwice | bootstrapper/electron/bootstrap.js:84-95 | after a start that failed verification, the next one neither repairs the runtime nor reports it |
| Bootstrap.RejectedStart | bootstrapper/electron/bootstrap.js:84-95 | in place: a concrete first start that ends in a failed verification with its runtime recorded |
| Interpolation.InterpolatedEntity.SetTarget | runtime/src/Interpolation.cpp:24-36 | in place: the modelled retarget |
| Interpolation.InterpolatedEntity.Current | runtime/src/Interpolation.cpp:38-57 | the modelled state at an instant |
| Interpolation.ShortestArc | runtime/src/Interpolation.cpp:16-21 | the angle step lies in [-180, 180), is congruent to the difference and is the shortest such step |
| Interpolation.ShownExactly | runtime/src/Interpolation.cpp:38-57 | the way covered is to the whole way as the time passed is to the duration, along the straight line and along the shortest arc |
| Interpolation.FirstTarget | runtime/src/Interpolation.cpp:24-39 | before its first target an entity shows the blank state, at it just that |
| Interpolation.NeverRetreats | runtime/src/Interpolation.cpp:38-57 | as time advances no coordinate moves away from the target |
| Interpolation.NeverTurnsBack | runtime/src/Interpolation.cpp:38-57 | nor does an angle turn away from where its transition ends |
| Interpolation.RetargetContinuous | runtime/src/Interpolation.cpp:24-36 | a retarget shows no jump at its instant iff transitions take time or there is nothing to move |
| Interpolation.SmoothRun | runtime/src/Interpolation.cpp:24-57 | over any run of retargets each coordinate stays between the least and greatest value received |
| Interpolation.SettlesOnTarget | runtime/src/Interpolation.cpp:38-57 | after a transition the entity stands on its target, angles up to whole turns |
| Interpolation.SettlesAfterRun | runtime/src/Interpolation.cpp:24-57 | after any run of retargets it ends and stays on the last one |

## Left out

- `Replication::Tick`, the local setters and everything outgoing from the client: rate limiting with no rule about other parts; a set landing between its read and its clear is a thread interleaving.
- Subscribing on `auth_result`: in the transition system it is one step with the delivery; `LateStart` says what a later subscription changes.
- `authenticate`: its result is given with the message, with any id and name; it never refuses.
- Players and interpolators are values in maps rather than objects, so aliasing of `Player*` is not captured; creation and destruction callbacks are not modelled.
- The lossy branch for non-integer numbers (`runtime/src/Json.cpp:180`) is a parameter, and `strtod` works over the reals: rounding, overflow and hexadecimal, infinite and NaN literals are not modelled.
- 64-bit truncation and 32-bit wrap-around of byte counts and Content-Length: counts are unbounded.
- JavaScript's `JSON.parse`, `JSON.stringify` and `trim` are parameters of the server's framer; `encodeMessage` is not part of this model.
- File system errors other than a failed open or rename in the runtime's download, an unreadable size in the registry and a rename that throws in the bootstrapper: a removal always works, directories can always be created, staged files can always be written, and a digest can always be computed.
- The message texts of download errors: each is a constructor with the same data.
- Resource iteration: std::map's key order is left open, so the results hold for every order.
- `ParseResourceList` and the port check of `ApplyManifest`: parsing a manifest into entries.
- `resolveSafePath`: whether a relative path stays in its directory is a parameter; file paths of one manifest are distinct.
- Process death in the bootstrapper while it stages: the disk states between two chunks are not recorded one by one, as they are for the runtime's downloads; recovery is stated for any staged bytes at all. A rename, a removal and the ledger's write are each one step.
- Fetching and validating the manifest, and the install state, which are inputs of an update run.
- The admin console, the HTTP resource server, configuration, logging, the client launcher and the user interface.
- `ProtocolClient`'s blocking waits, `EventSystem`, the cache service and the client's own state stores: wrappers and setters.

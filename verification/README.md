# Verified model of the Blazingly core

This project models the parts of Blazingly whose correctness is hardest to see by reading, and
proves properties of the model with Dafny 4.11. `dafny verify dfyconfig.toml` checks all of it.

The model follows the source branch by branch, in the source's own shape: objects that mutate
fields are classes, loops are loops with invariants, and each is tied to a specification that is
defined independently of it; definitions that mirror code are pinned by lemmas in literal bytes,
record fields and constructors. Concurrent code is modelled as a machine of atomic steps that
interleave in any order.

**Multipart.** `MultipartGrammar` says what a `multipart/form-data` document is (section 5.1.1 of
RFC 2046 and section 4 of RFC 7578, as strict as the code: no preamble, no padding after a
boundary). `BufferedMultipart` is the whole-body reader, `MultipartStream` the pull-based reader
with its sliding buffer over an arbitrary sequence of chunks, `MultipartScan` its look-ahead,
`HeaderSyntax` and `Utf8` the header blocks, `MultipartText` the bytes of a document spelled out. `MultipartAgreement` proves exactly when the two
readers agree; `MultipartRendering` proves that rendered documents read back.

**Blocking pool and cancellation.** `BlockingPool` holds the idle list as a class and the
park/unpark protocol as a step machine; `Cancellation` the same for cancellation tokens and their
waiters.

**Plugins.** `PluginScopes` collects the plugin tree: lexical scopes, mounts, hooks and the order of
startup and shutdown. `Mounts` says what a mount does to an operation's route, id and tool name.

**Dependency injection.** `ProviderGraph` validates the
graph the tree spans, `SingletonBuild`, `InputPlan` and `SlotCompiler` compile it to numeric slots, and
`Injection` proves that running the slots computes what dependency injection means
(`DependencyMeaning`). `ProviderChain` resolves and finalizes one invocation's chain; `Pipeline`
is the plain and the controlled invocation around it (`Outcomes` maps errors to answers), and
`Application` puts them together: what a built operation answers, with no slot in sight.
`ApplicationBuilder` goes from a plugin tree to the answers of its operations; `Hooks` are the lists
of hooks all of them carry.

**Router.** `RouteShapes` defines what choosing a route means, `RouteTrie` the trie and its capture
stack, `Router` the compiled router. `UrlEncoding` covers request targets, `SecurityCoverage` the
startup check against the dispatch-time guard.

**Migrations.** `Migrations` covers the version ledger and resumable runs.

## Where the code differs from its documentation

- `crates/blazingly-core/src/lib.rs:1051-1055` says a body one multipart reader accepts is not
  rejected by the other. The streaming reader tests the header limit before the blank line is
  complete, so a header block of MAX - 2 to MAX bytes is refused under some chunkings. The exact
  condition is `MultipartAgreement.AgreementUnderEveryChunking`; a concrete document is
  `MultipartRendering.ReadersDisagree`.
- `CancellationToken::cancel` promises to wake every waiter. A call guarantees that all waiters are
  woken when it returns exactly when it finds the flag clear, or nobody is left to wake
  (`CancellationProtocol.GuaranteeExactly`); a concurrent second call returns at once
  (`CancellationProtocol.LateCancelReturnsEarly`).
- `App::build` compares canonical shapes of whole paths, the router shapes without the leading
  slash. Accepted routes never collide if and only if no pattern with parameters is registered both
  with and without its leading slash (`RouteShapes.AcceptedUnambiguousExactly`, and a pair in
  `RouteShapes.AcceptedYetClashing`); nothing checks for the slash.
- The startup security check looks at patterns, the guard at paths. For an operation with declared
  schemes that passes it, dispatch refuses no request the router gives to it if and only if some
  verifying layer that accepts the operation is unscoped, or has a prefix that reaches the pattern
  and has no placeholder segment if the pattern has parameters (`SecurityCoverage.GuardExactly`,
  which also covers an operation that is never routed to; a prefix with a placeholder in
  `SecurityCoverage.PassesYetRefuses`).
- `Plugin::with_id_namespace` and the change log promise distinct ids and tools for two mounts of a
  module. A tool's name follows its namespace, dots and dashes turned into underscores, and one more
  underscore; nothing compares tool names. All tools stay callable if and only if no tool under the
  one mount meets one under the other (`Mounts.ModuleTools`), which every module satisfies exactly
  when neither namespace's lead begins the other's (`Mounts.SafeForTools`). Namespaces `a-b` and
  `a_b` lose a tool (`Mounts.MountedToolShadowed`), and so do `a` and `a_b` with the tools `x` and
  `b_x` (`Mounts.ModuleToolShadowed`). Ids of a module stay distinct under the analogous condition
  (`Mounts.ModuleIds`), always for one-level namespaces (`Mounts.SafeForIds`) but not for nested ones
  (`Mounts.NestedIdsMeet`); the build refuses equal ids.
- Nothing checks that a mounted path is slash-led: `notes` under `/v1` serves `/v1notes`
  (`Mounts.StaysBelow`).

## Modelling decisions

- Bytes are integers below 256, texts of headers and queries are strings of Unicode scalar values,
  connected by `Utf8`. A path or target is its bytes; the source's `str` is bytes that decode.
- A transport is a finite sequence of chunks, possibly empty, ending in the end of the body or a
  failure. Awaiting is a sequential call. The header parser is a parameter of the framing, the
  same for both readers.
- Types are keys (`TypeId`), values are opaque numbers, downcasts are left out. User code
  (factories, finalizers, hooks, handlers, decoders) is a function parameter and may fail anywhere;
  a factory's outcome is a function of the slots it sees.
- Signals of a controlled invocation are a schedule that says at which poll which signal fires.
- Hash tables are maps and method bit masks are the key sets of maps; the rejection filter keeps
  its two 64-bit words.
- Adapters may fail at any statement of a migration run; `apply` runs the script and records it
  atomically, as the trait requires.

## Model

| member | source | states |
|---|---|---|
| `Bytes.FindBytes` | crates/blazingly-core/src/lib.rs:1205-1220 | The byte search that skips from one first-byte hit to the next returns the least occurrence at or after the start, or none; an empty needle is never found. |
| `Utf8.DecodeInvertsEncode` | crates/blazingly-core/src/lib.rs:1580-1583 | A header block decodes to a text if and only if it is that text's UTF-8 form (RFC 3629): no overlong forms, no surrogates. |
| `Utf8.StandardExamples` | crates/blazingly-core/src/lib.rs:1580-1583 | The examples of section 7 of RFC 3629 and the limits of each encoded length, byte by byte. |
| `HeaderSyntax.HeaderParameters` | crates/blazingly-core/src/lib.rs:1148-1170 | The flag-driven split at semicolons outside quoted strings gives exactly the parameters of the recursive definition. |
| `HeaderSyntax.ParametersJoin` | crates/blazingly-core/src/lib.rs:1148-1170 | Splitting a header value loses nothing: its pieces, joined with semicolons, are the value. |
| `HeaderSyntax.UnquoteHeaderValue` | crates/blazingly-core/src/lib.rs:1172-1196 | The unquoting loop computes the quoted-string definition: the value of a complete quoted string or plain token, or a refusal. |
| `HeaderSyntax.UnquoteQuoted` | crates/blazingly-core/src/lib.rs:1172-1196 | Unquoting what was escaped and quoted gives the original text, for every text. |
| `HeaderSyntax.UnquoteExactly` | crates/blazingly-core/src/lib.rs:1172-1196 | A value stands for a text exactly when it is that text and starts with no quote, or is a quoted string whose inside spells the text, a backslash standing for the character after it; anything else is refused. |
| `HeaderSyntax.MultipartPartHeaders` | crates/blazingly-core/src/lib.rs:1106-1144 | Reading a part's header lines computes the line-by-line definition. In terms of the text: it answers exactly when every line has a colon, every Content-Disposition line's first parameter is form-data and the last `name` they set is not empty, and then with the last name, file name and Content-Type set; otherwise with the right refusal. |
| `HeaderSyntax.HeadersByLines` | crates/blazingly-core/src/lib.rs:1106-1144 | The same of the definition both readers share: what each header line assigns, that the latest assignment of each field wins, and what is refused. |
| `HeaderSyntax.BlockExactly` | crates/blazingly-core/src/lib.rs:1580-1583 | A header block that is the UTF-8 form of a text is read as that text, and any other block is refused as not valid UTF-8. |
| `HeaderSyntax.OtherHeader` | crates/blazingly-core/src/lib.rs:1110-1135 | A line with a colon and any other header name, inserted anywhere between other lines, never changes the answer. |
| `HeaderSyntax.EqIgnoreCaseExactly` | crates/blazingly-core/src/lib.rs:1113-1131 | Names are compared letter by letter, the 26 ASCII letters in either case and every other character as it is. |
| `HeaderSyntax.TrimsEnds` | crates/blazingly-core/src/lib.rs:1112-1131 | Trimming takes off white space at both ends and all of it. |
| `HeaderSyntax.IsWhitespaceExactly` | crates/blazingly-core/src/lib.rs:1112-1131 | White space is the 25 characters Unicode lists. |
| `HeaderSyntax.MultipartBoundary` | crates/blazingly-core/src/lib.rs:1075-1098 | The boundary is taken from the content type exactly when the type is multipart form data and the boundary is well formed. |
| `HeaderSyntax.BoundaryExactly` | crates/blazingly-core/src/lib.rs:1075-1098 | The boundary is that of the first parameter whose key is `boundary`, after a first piece that is the media type; it has 1 to 70 characters from `!` to `~`. |
| `MultipartRendering.QuotedBoundary` | crates/blazingly-core/src/lib.rs:1075-1098 | A content type with any valid boundary, quoted, yields that boundary. |
| `MultipartRendering.PlainBoundary` | crates/blazingly-core/src/lib.rs:1075-1098 | Written plainly, a valid boundary is yielded if and only if it does not start with a quote and has no semicolon outside quotes. |
| `MultipartGrammar.ParseLocal` | crates/blazingly-core/src/lib.rs:1599-1627 | Only the bytes up to the end of the closing delimiter decide what a document is. |
| `MultipartGrammar.TruncationDetected` | crates/blazingly-core/src/lib.rs:1599-1627 | A document cut anywhere before the end of its closing delimiter is not a document. |
| `MultipartText.ParseExactly` | crates/blazingly-executor/src/lib.rs:3739-3794 | A body is a document with given parts exactly when it starts with the delimiter and then, for each of at most 256 parts, a line break, a header block of at most 16384 bytes without an empty line that reads as the part's headers, an empty line, the data, a line break and the delimiter, followed by two dashes, where no line within the data looks like a delimiter line. |
| `BufferedMultipart.FindMultipartBoundary` | crates/blazingly-executor/src/lib.rs:3796-3809 | The candidate search returns the first delimiter at line start that is followed by a line break or two dashes. |
| `BufferedMultipart.ReadPart` | crates/blazingly-executor/src/lib.rs:3759-3792 | One turn of the buffered reader's loop reads exactly one section: headers, data up to the first terminator, and what follows; otherwise it reports the first thing wrong with the part. |
| `BufferedMultipart.ParseMultipart` | crates/blazingly-executor/src/lib.rs:3739-3794 | The whole-body reader accepts exactly the documents of the grammar and returns their parts; otherwise it reports what is wrong with the opening or with the part after the complete ones, or that the 257th is one too many. |
| `MultipartScan.ScanMultipartTerminator` | crates/blazingly-core/src/lib.rs:1731-1757 | The scan returns the first terminator in the window; otherwise a count of bytes that no continuation can turn into the start of one, withholding fewer than delimiter + 4 bytes. |
| `MultipartScan.ScanOfWindow` | crates/blazingly-core/src/lib.rs:1731-1757 | What the scan says of the buffered window holds of the whole body, whatever arrives later. |
| `MultipartReader.MultipartStream.constructor` | crates/blazingly-core/src/lib.rs:1423-1440 | A reader opens before the first byte, in its opening state. |
| `MultipartReader.MultipartStream.Fill` | crates/blazingly-core/src/lib.rs:1494-1523 | Pulling skips empty chunks, drops the consumed prefix, appends one chunk, counts its bytes up to saturation; consumed, buffered and unread bytes still make up the body. It fails exactly when the transport fails next, and reports the end only of a body that does not. |
| `MultipartReader.MultipartStream.ReadOpening` | crates/blazingly-core/src/lib.rs:1526-1537 | The opening succeeds exactly when the body starts with the delimiter and a suffix that counts, under any chunking; otherwise the error says whether the opening or its suffix is wrong, or is the transport's when the bytes ran out. |
| `MultipartReader.MultipartStream.ReadBoundarySuffix` | crates/blazingly-core/src/lib.rs:1540-1559 | The two bytes after a delimiter decide between the end, another part and failure, wherever chunks cut them; the failure is the transport's exactly when the bytes ran out because of it. |
| `MultipartReader.MultipartStream.ReadHeaders` | crates/blazingly-core/src/lib.rs:1562-1587 | A header block is read exactly when it is a block of the grammar and no chunk boundary falls more than the limit past its start before its blank line is complete; otherwise the error is exactly one of: over the limit, incomplete, the transport's, or the header reader's own. |
| `MultipartReader.MultipartStream.AdvancePart` | crates/blazingly-core/src/lib.rs:1599-1627 | Each run handed out is the next stretch of the part's data; the part ends exactly at its first terminator; a refill happens only with fewer than delimiter + 4 bytes withheld, which bounds the buffer. |
| `MultipartReader.MultipartStream.SkipPart` | crates/blazingly-core/src/lib.rs:1590-1593 | Skipping leaves the reader where reading the rest of the part would. |
| `MultipartReader.MultipartStream.NextField` | crates/blazingly-core/src/lib.rs:1455-1480 | The next part's headers, or the end only after a closing delimiter, or a failure that sticks; the part after the limit fails. Which failure is stated for every state. |
| `MultipartReader.MultipartStream.NextChunk` | crates/blazingly-core/src/lib.rs:1669-1674 | A chunk of part data, or the end of the part. |
| `MultipartReader.MultipartStream.Collect` | crates/blazingly-core/src/lib.rs:1682-1691 | Collecting returns the whole rest of the part, refuses it as too large exactly when what was handed out exceeds the caller's limit (always, when the part is complete and longer), and otherwise reports the reader's failure. |
| `MultipartAgreement.ReadDocument` | crates/blazingly-core/src/lib.rs:1455-1627 | Driving the streaming reader to the end yields the parts of the grammar, restricted to chunkings under which every header block fits; it ends in the done state. An error is that of the opening or of the part after the complete ones, the transport's failure told apart from a malformed body. |
| `MultipartAgreement.StreamingExact` | crates/blazingly-core/src/lib.rs:1562-1587 | The streaming reader's result is the buffered reader's when every header block survives the chunking, and a failure otherwise: an equality, for every body and every chunking. |
| `MultipartAgreement.AgreementUnderEveryChunking` | crates/blazingly-core/src/lib.rs:1051-1055 | For a body the buffered reader accepts, the streaming reader returns the same under every chunking if and only if every header block is at most the limit minus three bytes. The documentation claims agreement without the condition. |
| `MultipartAgreement.LongBlockBreaks` | crates/blazingly-core/src/lib.rs:1568-1571 | For any accepted body with a longer header block there is a cut at which every chunking fails. |
| `MultipartAgreement.StreamingImpliesBuffered` | crates/blazingly-core/src/lib.rs:1051-1055 | Whatever the chunking and the header sizes, what the streaming reader accepts the buffered reader accepts, with the same parts. |
| `MultipartAgreement.TruncatedStreamFails` | crates/blazingly-core/src/lib.rs:1599-1627 | A body cut short by its end or by a transport failure is an error under every chunking, never an end of document. |
| `MultipartAgreement.OpenStream` | crates/blazingly-core/src/lib.rs:1423-1440 | A stream opens exactly when the content type carries a valid boundary, with the delimiter that boundary gives; otherwise the boundary is reported missing or invalid. |
| `MultipartAgreement.ParseMultipartRequest` | crates/blazingly-executor/src/lib.rs:3728-3737 | A buffered request parses exactly when its content type carries a valid boundary and its body is a document of that boundary; otherwise the missing header, the boundary or the body is reported. |
| `MultipartRendering.HeadersRoundTrip` | crates/blazingly-core/src/lib.rs:1106-1196 | Headers written with quoted and escaped names and file names read back unchanged when no value has a line break and the media type needs no trimming. |
| `MultipartRendering.RoundTripBuffered` | crates/blazingly-core/src/lib.rs:2357-2377 | A rendered document reads back as its parts if and only if no terminator starts inside any part's data followed by its closing delimiter line. |
| `MultipartRendering.RoundTripStreaming` | crates/blazingly-core/src/lib.rs:2357-2377 | The same round trip through the streaming reader, under every chunking, for header blocks of at most the limit minus three bytes. |
| `MultipartRendering.ReadersDisagree` | crates/blazingly-core/src/lib.rs:1568-1571 | A concrete document that the buffered reader accepts and the streaming reader refuses under one chunking. |
| `ParkedWorkers.LastPosition` | crates/blazingly-executor/src/lib.rs:218-224 | The last position of a worker in the idle list, or none exactly when it is not there. |
| `ParkedWorkers.RegisteredMembers` | crates/blazingly-executor/src/lib.rs:210-216 | Registering adds the worker once and nobody else. |
| `ParkedWorkers.UnregisteredMembers` | crates/blazingly-executor/src/lib.rs:218-224 | Swap-removal removes exactly the worker, although it reorders the list. |
| `ParkedWorkers.Parked.RecordThread` | crates/blazingly-executor/src/lib.rs:228 | A worker's thread handle is recorded at its index, and nothing else changes. |
| `ParkedWorkers.Parked.Register` | crates/blazingly-executor/src/lib.rs:210-216 | The list gains the worker at most once and the counter becomes its length. |
| `ParkedWorkers.Parked.Unregister` | crates/blazingly-executor/src/lib.rs:218-224 | The search from the back and the swap-removal; the counter is written only when something was removed. |
| `ParkedWorkers.Parked.PopIdle` | crates/blazingly-executor/src/lib.rs:187-191 | The last idle worker is taken off, the counter rewritten, and the worker is to be woken only if its thread is recorded. |
| `ParkedWorkers.Parked.ClearIdle` | crates/blazingly-executor/src/lib.rs:199-204 | The list and counter are cleared and every recorded thread is to be woken. |
| `PoolProtocol.StepKeeps` | crates/blazingly-executor/src/lib.rs:171-255 | Every atomic step of every worker, submitter and the dropped handle keeps the protocol's invariant. |
| `PoolProtocol.RunsKeep` | crates/blazingly-executor/src/lib.rs:171-324 | So does every finite interleaving. |
| `PoolProtocol.NoStrandedJob` | crates/blazingly-executor/src/lib.rs:178-195 | No reachable state has a queued job, nobody between an enqueue or disconnect and the unpark that follows, and every worker asleep or gone. |
| `PoolProtocol.IdleListSound` | crates/blazingly-executor/src/lib.rs:150-224 | In every reachable state the idle list has no duplicates, names only workers with a recorded thread, and equals the counter outside the lock. |
| `PoolProtocol.JobsConserved` | crates/blazingly-executor/src/lib.rs:171-176 | In every reachable state the accepted jobs are those taken, in order, followed by those queued, at most the capacity of them; which jobs are accepted is the next row. |
| `PoolProtocol.SubmitExactly` | crates/blazingly-executor/src/lib.rs:314-324 | From every reachable state a submitter's job is refused if and only if the handle is gone or the capacity is used up by queued jobs; otherwise it becomes the last job queued and accepted. |
| `PoolProtocol.CapacityFills` | crates/blazingly-executor/src/lib.rs:314-324 | For every capacity that many jobs are accepted one after the other with nothing taken in between. |
| `PoolProtocol.SubmitReturns` | crates/blazingly-executor/src/lib.rs:178-195 | Unless another holds the lock, at most four steps of its own bring a submitter back, with the queue and the workers as they were. |
| `PoolProtocol.ExitOnlyWhenDone` | crates/blazingly-executor/src/lib.rs:226-255 | A worker leaves only after the handle was dropped and with the queue empty: every accepted job has been taken; that workers do leave is stated by `PoolProtocol.DropDrains`. |
| `PoolProtocol.WorkDecreases` | crates/blazingly-executor/src/lib.rs:226-256 | After the drop has finished, every step of a worker uses up some of the work that is left, so no worker goes on forever. |
| `PoolProtocol.DropDrains` | crates/blazingly-executor/src/lib.rs:231-256 | Once the drop has finished and no submitter is inside the lock, the workers' own steps empty the queue and bring every worker to its exit, with every accepted job taken. |
| `PoolProtocol.DropDrainsAfterStore` | crates/blazingly-executor/src/lib.rs:199-204 | The same from every reachable state in which the drop has finished, a submitter inside the lock first leaving it. |
| `PoolProtocol.DropReturns` | crates/blazingly-executor/src/lib.rs:199-204 | Unless another holds the lock, dropping the handle finishes by its own steps. |
| `PoolProtocol.HolderReleases` | crates/blazingly-executor/src/lib.rs:187-224 | Whoever holds the lock releases it by its next step, so nobody waits for it in vain. |
| `PoolProtocol.NobodySleepsAfterDrop` | crates/blazingly-executor/src/lib.rs:263-270 | After the drop has finished, no worker is parked without a pending unpark. |
| `PoolProtocol.AwakeWorkerTakes` | crates/blazingly-executor/src/lib.rs:226-255 | An awake worker's own steps lead to the oldest queued job being taken. |
| `PoolProtocol.TakenJobRuns` | crates/blazingly-executor/src/lib.rs:226-256 | With the lock free, a worker's own steps lead from its attempt to running the oldest queued job, and nothing else. |
| `PoolProtocol.TakesOneAfterAnother` | crates/blazingly-executor/src/lib.rs:226-256 | A reachable run in which the only worker runs the first job while the second is queued, finishes it, and takes the second. |
| `PoolProtocol.QueuedJobCanBeTaken` | crates/blazingly-executor/src/lib.rs:226-255 | From every reachable state with a queued job and nobody in flight, one worker's own steps, without spurious wake-ups, take the oldest job. |
| `PoolProtocol.JobWaitsWhileWorkerSleeps` | crates/blazingly-executor/src/lib.rs:239-242 | The pool is not work conserving: a reachable state where a job waits behind a busy worker while another sleeps. |
| `PoolProtocol.PoppedHoldsJob` | crates/blazingly-executor/src/lib.rs:187-191 | From any reachable state, the worker a submitter pops holds a job exactly when it is between taking it and unregistering. |
| `PoolProtocol.TakesNextExactly` | crates/blazingly-executor/src/lib.rs:226-256 | An awake worker's own steps take the oldest queued job before it finishes another if and only if it holds none. |
| `PoolProtocol.WakeUpWastedExactly` | crates/blazingly-executor/src/lib.rs:180-197 | From any reachable state, popping, leaving the lock and unparking wakes a worker that cannot take the queued job next exactly when that worker is between its successful second attempt and its removal from the idle list. |
| `CancellationWakers.CancellationState.PollLocked` | crates/blazingly-executor/src/lib.rs:535-544 | Under the lock a poll answers ready if the flag is set, and otherwise registers its waker unless an equivalent one is there. |
| `CancellationWakers.CancellationState.Cancel` | crates/blazingly-executor/src/lib.rs:488-501 | Run alone, the first cancel wakes every waiter once, in order; a later one does nothing. |
| `CancellationProtocol.StepKeeps` | crates/blazingly-executor/src/lib.rs:488-546 | Every atomic step of every poll and cancel call keeps the invariant. |
| `CancellationProtocol.NoLostWaiter` | crates/blazingly-executor/src/lib.rs:488-546 | In every interleaving, once the cancel call that set the flag has returned, every poll that answered pending has had its waker woken. |
| `CancellationProtocol.WokenOnce` | crates/blazingly-executor/src/lib.rs:488-501 | Nobody is woken twice, and nobody before the flag is set. |
| `CancellationProtocol.UnwokenOnlyWhileDraining` | crates/blazingly-executor/src/lib.rs:488-501 | After the flag is set, a waiter is unwoken only while the call that set it is still on its way to the end of its drain. |
| `CancellationProtocol.LaterPollsReady` | crates/blazingly-executor/src/lib.rs:529-546 | A poll that begins after the flag is set never answers pending, whatever else happens. |
| `CancellationProtocol.ReadyOnlyWhenCancelled` | crates/blazingly-executor/src/lib.rs:529-546 | A poll answers ready only if a cancel call has set the flag. |
| `CancellationProtocol.EveryRunEnds` | crates/blazingly-executor/src/lib.rs:488-546 | No interleaving of the calls is longer than the steps that were left when it began. |
| `CancellationProtocol.SomeoneGoesOn` | crates/blazingly-executor/src/lib.rs:488-546 | In no reachable state before all calls have returned are they all waiting for the lock. |
| `CancellationProtocol.EveryCallReturns` | crates/blazingly-executor/src/lib.rs:488-546 | So from every reachable state on, every poll and every cancel call returns. |
| `CancellationProtocol.LateCancelReturnsEarly` | crates/blazingly-executor/src/lib.rs:489-491 | A cancel call that finds the flag set can return before any waiter is woken, so the guarantee is the first call's only. |
| `CancellationProtocol.GuaranteeExactly` | crates/blazingly-executor/src/lib.rs:487-501 | From any reachable state, a cancel call guarantees under every continuation that all who answered pending are woken when it returns if and only if it finds the flag clear, or nobody waits or is about to wait unwoken at that moment. |
| `PluginScopes.PluginCollector.Collect` | crates/blazingly-executor/src/lib.rs:3095-3172 | Collection reports the first thing wrong in the order collected: a bad name, a bad mount prefix or namespace, a type declared twice, a singleton that reads a request, an operation id its namespace spoils, plugin by plugin, and fails exactly when there is one; otherwise every registration resolves to nearest declarations, every operation is mounted, scoped and hooked as its place in the tree says, lifecycle hooks are gathered, and what is collected for a child leaves everything before it untouched. |
| `PluginScopes.DefectExactly` | crates/blazingly-executor/src/lib.rs:3095-3172 | Walking the tree in order finds something wrong exactly when some plugin in it cannot be collected inside the mounts around it. |
| `PluginScopes.FirstToBlame` | crates/blazingly-executor/src/lib.rs:3095-3172 | The error reported is what the first plugin to blame got wrong by itself: name, mount prefix, namespace, its first bad provider or its first spoiled id; the plugins it is inside of are fine by themselves and everything below their earlier children is fine. |
| `PluginScopes.OperationScope` | crates/blazingly-executor/src/lib.rs:3156-3172 | Wherever its plugin sits in the tree, an operation has the frames, the mount and the hooks of that place. |
| `PluginScopes.SameFrames` | crates/blazingly-executor/src/lib.rs:3153-3165 | A plugin's operations resolve types in the frames its providers do. |
| `PluginScopes.MountsJoin` | crates/blazingly-executor/src/lib.rs:3187-3217 | At any place in the tree prefixes are strung together, namespaces joined with dots and hooks appended, from the root inwards; the prefix stays slash-led, without a slash at its end and without placeholders. |
| `PluginScopes.OperationServes` | crates/blazingly-executor/src/lib.rs:3219-3247 | An operation's id is its declared one under all namespaces around it, and it serves exactly the requests that, with all prefixes around it taken off, its declared pattern matches. |
| `PluginScopes.HookAt` | crates/blazingly-executor/src/lib.rs:3127-3128 | Every lifecycle hook of every plugin is gathered, in its plugin's order, at the position its place in the tree determines. |
| `PluginScopes.ParentsFirst` | crates/blazingly-executor/src/lib.rs:3053-3063 | A plugin's lifecycle hooks come before those of every plugin below it. |
| `PluginScopes.SiblingsInOrder` | crates/blazingly-executor/src/lib.rs:3095-3172 | Of two children of a plugin, the lifecycle hooks of the earlier one and of everything below it come first. |
| `PluginScopes.Startup` | crates/blazingly-executor/src/lib.rs:3058-3063 | Startup runs hooks in order up to the first that fails, and reports it. |
| `PluginScopes.Shutdown` | crates/blazingly-executor/src/lib.rs:3073-3083 | Shutdown runs every hook, last gathered first, whatever fails, and reports the first failure in that order. |
| `PluginScopes.ChildrenShutFirst` | crates/blazingly-executor/src/lib.rs:3065-3083 | Shutdown runs the hooks of a plugin before those of every plugin around it. |
| `PluginScopes.ParentsStartFirst` | crates/blazingly-executor/src/lib.rs:3053-3063 | Startup runs the hooks of a plugin before those of every plugin below it. |
| `PluginScopes.InnerHooksFirst` | crates/blazingly-executor/src/lib.rs:2069-2096 | After an answer, error and response hooks of an inner plugin run before those of every plugin around it. |
| `PluginScopes.NearestEnclosing` | crates/blazingly-executor/src/lib.rs:3122-3172 | Wherever a plugin sits in the tree, its providers resolve a type to the declaration in the nearest enclosing plugin. |
| `PluginScopes.NearestExactly` | crates/blazingly-executor/src/lib.rs:3122-3172 | Of the scopes around a place the innermost that declares a type decides, and a type none declares is not visible. |
| `PluginScopes.FrameExactly` | crates/blazingly-executor/src/lib.rs:3103-3125 | A plugin's scope holds exactly the types it declares, each with the number of its declaration. |
| `PluginScopes.CollectApplication` | crates/blazingly-executor/src/lib.rs:2898-2938 | Collecting an application succeeds exactly when every plugin can be collected inside the mounts around it, and leaves registrations in the form the graph validation and the compilers rely on. |
| `Mounts.MountedServes` | crates/blazingly-executor/src/lib.rs:3224-3231 | Mounting moves a route without changing it: the requests served are the prefix followed by what the declared pattern matches, the root becoming the prefix itself. |
| `Mounts.MountedNames` | crates/blazingly-executor/src/lib.rs:3219-3247 | Byte by byte: an id is led by the namespace and a dot, a tool by the namespace with dots and dashes turned into underscores and one more underscore, a path by the prefix unless it is the root. |
| `Mounts.JoinedNames` | crates/blazingly-executor/src/lib.rs:3195-3217 | Nested mounts string prefixes together and join namespaces with a dot, byte by byte. |
| `Mounts.NameExactly` | crates/blazingly-executor/src/lib.rs:3257-3262 | Names are one or more ASCII letters, digits, dashes and underscores. |
| `Mounts.PrefixExactly` | crates/blazingly-executor/src/lib.rs:3250-3255 | Mount prefixes are exactly one or more nonempty segments without slashes or braces, each led by a slash. |
| `Mounts.StaysBelow` | crates/blazingly-executor/src/lib.rs:3224-3231 | A declared path stays below its mount if and only if it is empty or slash-led: `notes` under `/v1` serves `/v1notes`. |
| `Mounts.TwoMounts` | crates/blazingly-executor/src/lib.rs:3233-3245 | A single operation under two namespaces has two ids, and two tool names if and only if the namespaces differ in more than which of dot, dash and underscore they use; for whole modules see the rows below. |
| `Mounts.ToolsExactly` | crates/blazingly-executor/src/lib.rs:3012-3021 | However an application mounts its operations, every tool can be called by its name if and only if no two tools meet: one lead (a namespace with underscores, and an underscore) begins the other, and the one name is the rest of that lead followed by the other name. |
| `Mounts.IdsExactly` | crates/blazingly-executor/src/lib.rs:3233-3240 | The same for ids and their leads (a namespace and a dot), which the build compares. |
| `Mounts.ModuleTools` | crates/blazingly-executor/src/lib.rs:2393-2404 | A module under two mounts keeps all its tools callable if and only if its own tools are distinct and no tool under the one mount meets one under the other. The documentation promises it without a condition. |
| `Mounts.ModuleIds` | crates/blazingly-executor/src/lib.rs:2393-2404 | Its ids stay distinct, and so pass the build, under the analogous condition. |
| `Mounts.SafeForTools` | crates/blazingly-executor/src/lib.rs:2393-2404 | Two mounts keep the tools of every module callable if and only if neither tool lead begins the other. |
| `Mounts.SafeForIds` | crates/blazingly-executor/src/lib.rs:2393-2404 | Under two different one-level namespaces the ids of a module are distinct whenever its own are. |
| `Mounts.ModuleToolShadowed` | crates/blazingly-executor/src/lib.rs:3219-3247 | A module with the tools `x` and `b_x` under the namespaces `a` and `a_b`, which differ in more than separators, has distinct ids and tools and loses one tool. |
| `Mounts.NestedIdsMeet` | crates/blazingly-executor/src/lib.rs:3210-3215 | Inside the nested namespaces `a` and `a.b` the ids `b.x` and `x` become the same. |
| `Mounts.OperationForMcpTool` | crates/blazingly-executor/src/lib.rs:3012-3021 | The first operation with the tool name, or none exactly when nobody has it. |
| `Mounts.CallableExactly` | crates/blazingly-executor/src/lib.rs:3012-3021 | Every tool can be called by its name if and only if no two operations share one. |
| `Mounts.MountedToolShadowed` | crates/blazingly-executor/src/lib.rs:3219-3247 | One module under the valid namespaces `a-b` and `a_b` has distinct ids and routes, and its second tool is never found. |
| `ProviderGraph.Validate` | crates/blazingly-executor/src/lib.rs:3264-3273 | Validation succeeds if and only if every dependency is visible, no singleton depends on a shorter-lived provider and no closed walk exists; the finishing order ranks the graph. A failure is genuine and the first: everything registered earlier is clean, and from there on every dependency listed earlier is. |
| `ProviderGraph.OneFault` | crates/blazingly-executor/src/lib.rs:3264-3325 | There is only one such first fault, so which error is reported, and the cycle it names, is determined by the registrations. |
| `ProviderGraph.Validator.Visit` | crates/blazingly-executor/src/lib.rs:3275-3325 | The depth-first visit keeps its marks and stack consistent; an error it reports is a genuine missing provider, lifetime violation or closed walk along dependency edges, reached by taking the first bad dependency at every turn. |
| `ProviderGraph.RankedHasNoCycle` | crates/blazingly-executor/src/lib.rs:3275-3325 | A graph whose providers are ranked along every edge has no closed walk. |
| `ProviderGraph.CycleIsClosed` | crates/blazingly-executor/src/lib.rs:3284-3298 | The reported cycle, from the first stack entry of the provider back to it, is a closed walk. |
| `CompiledProviders.ReadAll` | crates/blazingly-di/src/lib.rs:1255-1268 | Reading a provider's slots gives all their values, in order, or nothing as soon as one is empty. |
| `CompiledProviders.ReadExactly` | crates/blazingly-di/src/lib.rs:1255-1268 | A slot is read where it points, among the singletons or the request's values, or not at all. |
| `CompiledProviders.RunExactly` | crates/blazingly-di/src/lib.rs:1255-1268 | A provider's factory runs on the values of its slots, in order, once all are filled; otherwise it fails with the code of an invalid slot. |
| `SingletonBuild.AssignSlots` | crates/blazingly-executor/src/lib.rs:3330-3337 | Every singleton, and nothing else, gets a slot of its own, in registration order. |
| `SingletonBuild.SingletonCompiler.Build` | crates/blazingly-executor/src/lib.rs:3348-3397 | A singleton is built after its dependencies, at most once; the only failure is a factory's own, and it is that of the first dependency without a value, all the way down. |
| `SingletonBuild.CompileSingletons` | crates/blazingly-executor/src/lib.rs:3327-3346 | Succeeds if and only if every singleton has a value, and then every singleton's slot holds it; otherwise it reports the provider whose own factory denies the first singleton, in registration order, its value. |
| `DependencyMeaning.SingletonIgnoresRequest` | crates/blazingly-executor/src/lib.rs:3141-3146 | A singleton's value does not depend on the request. |
| `InputPlan.PlanProvider` | crates/blazingly-executor/src/lib.rs:3437-3465 | A provider's inputs reuse the slot of an equal input, take a new slot, or clash with one of another type. |
| `InputPlan.PlanInputs` | crates/blazingly-executor/src/lib.rs:3415-3476 | Fails if and only if two providers the operation needs decode one wire input to two types, and names such an input; otherwise every input of every needed provider has a slot that decodes it, one per wire identity. |
| `SlotCompiler.OperationCompiler.Compile` | crates/blazingly-executor/src/lib.rs:3531-3589 | Compiling a provider succeeds; every slot it and its dependencies read is a built singleton, a decoded input or an earlier chain slot of the right provider; a request provider is compiled once, each edge to a transient gets a slot nobody else reads. |
| `SlotCompiler.OperationCompiler.CompileDependencies` | crates/blazingly-executor/src/lib.rs:3555-3566 | The recursion over dependencies, which terminates by rank. |
| `SlotCompiler.CompileOperation` | crates/blazingly-executor/src/lib.rs:3494-3529 | Fails exactly when a requested type is not in scope, naming the first; otherwise handler slots point at the requested providers. |
| `Injection.SlotsMeanInjection` | crates/blazingly-executor/src/lib.rs:3494-3589 | Running the compiled chain in order, under any signals, is stopped by the first signal that fires at a provider before any failure; otherwise it fails with the first error that evaluating the handler's dependencies recursively would, or the handler reads exactly their values. |
| `Injection.NoSlotReadEmpty` | crates/blazingly-executor/src/lib.rs:2199-2250 | No provider that is reached, on the plain or the controlled path, reads an empty slot, and its factory answers its provider's value. |
| `Injection.HaltsExactly` | crates/blazingly-executor/src/lib.rs:2219-2250 | A run is ended by a signal exactly when one fires at a provider before which none fails, and then by the first to fire; otherwise by the first failing provider, if any. |
| `Injection.EntryRuns` | crates/blazingly-di/src/lib.rs:1255-1268 | A chain entry whose predecessors are filled reads only filled slots, and its outcome is its provider's. |
| `Injection.ChainRuns` | crates/blazingly-executor/src/lib.rs:2199-2250 | After any number of entries, under any signals, the slots hold exactly the evaluated values, or the first signal or failing provider has stopped the chain. |
| `Injection.EmptyChainDecodesNothing` | crates/blazingly-executor/src/lib.rs:3433-3476 | An operation without request providers decodes no provider inputs. |
| `Injection.BuildProviders` | crates/blazingly-executor/src/lib.rs:2938-2940 | Validation and singletons succeed if and only if the graph is sound and every singleton has a value, and then every singleton's slot holds it; an error is the graph's first fault or the first singleton's culprit. |
| `Injection.BuildScoped` | crates/blazingly-executor/src/lib.rs:2942-2962 | Planning and compiling an operation succeeds if and only if no wire input is decoded to two types and every request is in scope; the result serves every later request. An error names a clashing input or the first request out of scope. |
| `Injection.BuildOperation` | crates/blazingly-executor/src/lib.rs:2938-2962 | Validation, singletons, input plan and slot compiler run one after the other: the build succeeds if and only if the graph is sound, every singleton has a value, no wire input is decoded to two types and every request is in scope; an error is the first of these that fails; and each step establishes what the next relies on, for every later request. |
| `Outcomes.TeardownToldTheAnswer` | crates/blazingly-executor/src/lib.rs:1390-1408 | Teardown that runs before the answer is built is told what the answer will say, for every error and every abort; what the answer is, in the constructors of the outcome, is `Pipeline.StageStops`. |
| `ProviderChain.Invocation.Set` | crates/blazingly-executor/src/lib.rs:2321-2338 | Writing a slot changes that slot only; an unknown slot is an error and changes nothing. |
| `ProviderChain.Invocation.RunSync` | crates/blazingly-di/src/lib.rs:256-269 | The probe never calls an asynchronous factory and answers the reserved code instead. |
| `ProviderChain.Invocation.FinalizePrefix` | crates/blazingly-executor/src/lib.rs:2261-2285 | Finalizers run over the stored values from the last slot to the first, until one fails. |
| `ProviderChain.Invocation.Resolve` | crates/blazingly-executor/src/lib.rs:2173-2197 | Whatever the cached chain kind, values, first error and teardown are those of plain in-order resolution; the factory calls are too, except that a synchronous factory answering the reserved code is called once more; the new kind is stated. |
| `ProviderChain.Invocation.ResolveFrom` | crates/blazingly-executor/src/lib.rs:2199-2217 | The awaiting path from any provider on continues the in-order resolution. |
| `ProviderChain.Invocation.ResolveControlled` | crates/blazingly-executor/src/lib.rs:2219-2250 | Resolution under signals: each factory is called, then the signals are polled, and a stop finalizes what was stored. |
| `ProviderChain.KindExactly` | crates/blazingly-executor/src/lib.rs:2173-2197 | The cached chain kind is never wrong, and a resolution that went through settles it: asynchronous exactly when some provider is, unless a factory answered the reserved code. |
| `ProviderChain.AfterStores` | crates/blazingly-executor/src/lib.rs:2173-2250 | What resolution stored is what the slots hold, in order; decoded inputs are left alone. |
| `Pipeline.DecodeInputs` | crates/blazingly-executor/src/lib.rs:2151-2166 | Inputs are decoded in order into the first slots; the first rejection ends it. |
| `Pipeline.RunResolved` | crates/blazingly-executor/src/lib.rs:1785-1846 | The plain path after resolution decides as the reference does and tears down with that decision. |
| `Pipeline.RunControlledHook` | crates/blazingly-executor/src/lib.rs:1946-1964 | A signal or a failing hook ends the invocation with the right answer, torn down. |
| `Pipeline.RunLateHooks` | crates/blazingly-executor/src/lib.rs:2069-2096 | Error hooks are skipped for the three kinds of success; each list runs from the last registered to the first, and is told the answer. |
| `Pipeline.LateHooksExactly` | crates/blazingly-executor/src/lib.rs:2069-2096 | By the record's own fields: after success, streaming success and upgrade only the response hooks run; otherwise the error hooks run first; each list from its last hook to its first. |
| `Pipeline.InvokePipeline` | crates/blazingly-executor/src/lib.rs:1748-1847 | The plain path, with its two hook-free shortcuts, answers what the general path does, and its log is a correct teardown of what was stored; if the first poll or an on-request hook ends it, nothing at all was called. |
| `Pipeline.InvokePipelineControlled` | crates/blazingly-executor/src/lib.rs:1849-1930 | The controlled path answers what the reference does for any signals at any polls, and its log is a correct teardown; if the first poll or an on-request hook ends it, nothing at all was called. |
| `Pipeline.AnswerAtEntrance` | crates/blazingly-executor/src/lib.rs:1748-1760 | By the record's own fields: the first poll and then the on-request hooks decide before anything else is looked at; an operation without a compiled plan is then an internal error. |
| `Pipeline.DecideByGates` | crates/blazingly-executor/src/lib.rs:1785-1846 | By the record's own fields, the decision after resolution is the first of these that stops it: signal, pre-parse hooks, signal, pre-validate hooks, `prepare`, signal, pre-handler hooks, signal, signal, pre-serialize hooks; the handler answers exactly when none does. |
| `Pipeline.StageStops` | crates/blazingly-executor/src/lib.rs:3620-3635 | One stage is a poll and then its own list of hooks: a signal answers a rejection with 499 or 504, the first failure of the list a domain error with its status and code when it is a rejection, an internal error with its code otherwise. |
| `Pipeline.InvokeInput` | crates/blazingly-executor/src/lib.rs:1722-1730 | Teardown is over before the first late hook runs; then error hooks, unless the answer is a success, and response hooks run, each list backwards. |
| `Pipeline.InvokeInputControlled` | crates/blazingly-executor/src/lib.rs:1732-1746 | The same on the controlled path. |
| `Pipeline.FinalizedExactlyOnce` | crates/blazingly-executor/src/lib.rs:1748-1964 | If finalizers succeed, every stored value is finalized exactly once, in reverse slot order, after everything else, told exactly what the caller is answered. |
| `Pipeline.FailingFinalizerAnswers` | crates/blazingly-executor/src/lib.rs:2261-2285 | A failing finalizer stops the teardown there and its error is reported. |
| `Pipeline.QuietSignalsChangeNothing` | crates/blazingly-executor/src/lib.rs:1849-1930 | A controlled invocation whose signals stay quiet answers what the plain one does. |
| `Pipeline.SignalDropsProducedValue` | crates/blazingly-di/src/lib.rs:246-249 | A factory is called before the signals are polled, so a signal can drop a value that was produced: it is never stored, hence never finalized. |
| `Pipeline.EachFactoryOnce` | crates/blazingly-executor/src/lib.rs:2199-2250 | In-order resolution calls each factory at most once, in chain order. |
| `Application.AnswerMeansInjection` | crates/blazingly-executor/src/lib.rs:1748-1930 | An operation built by the compilers and run by the pipeline, under any signals and hooks, answers what the first signal says, or the first error of evaluating the handler's dependencies, or what the handler and the hooks around it make of their values, unless a finalizer told of that decision fails. |
| `Application.AnswerBeforeInjection` | crates/blazingly-executor/src/lib.rs:1748-1776 | A request stopped by the first hook, or with an input that does not decode, is answered so before any provider runs. |
| `Application.PlainAnswer` | crates/blazingly-executor/src/lib.rs:1748-1847 | Without hooks, signals and failing finalizers, the answer is the first error of evaluating the handler's dependencies, or the handler applied to their values. |
| `ApplicationBuilder.BuildApplication` | crates/blazingly-executor/src/lib.rs:2913-2962 | Building an application from a plugin tree, up to the definition checks, succeeds if and only if every plugin can be collected, the provider graph is sound, every singleton has a value and every operation compiles; then every operation is built for all requests, on singletons built once. Otherwise the error is the first defect of the tree, or the graph's or a singleton's, or that of the first operation that does not compile. |
| `ApplicationBuilder.RootsAreNearest` | crates/blazingly-executor/src/lib.rs:3503-3512 | What an operation asks for is resolved to the provider of the nearest plugin around it. |
| `ApplicationBuilder.TreeAnswer` | crates/blazingly-executor/src/lib.rs:1748-1847 | An operation anywhere in the tree, without hooks, signals and failing finalizers, answers the first error of evaluating what it asks for, resolved to the nearest plugins around it, or its handler applied to the values. |
| `ApplicationBuilder.TreeDecides` | crates/blazingly-executor/src/lib.rs:1748-1930 | The same under any hooks and signals, up to the decision that teardown may replace. |
| `RouteShapes.JoinSplit` | crates/blazingly-http/src/lib.rs:2266-2282 | Segments joined with slashes are the path. |
| `RouteShapes.SplitExactly` | crates/blazingly-http/src/lib.rs:2266-2268 | Splitting a path finds the one way to write it as segments without a slash, joined by slashes. |
| `RouteShapes.ParameterExactly` | crates/blazingly-http/src/lib.rs:2563-2568 | A segment is a parameter exactly when it is a nonempty name in braces. |
| `RouteShapes.FilledCaptured` | crates/blazingly-http/src/lib.rs:2205-2235 | A path's captures put back into a pattern that fits it give the path's segments. |
| `RouteShapes.StaticMatchesBySegments` | crates/blazingly-http/src/lib.rs:2109-2119 | With leading slashes, comparing a parameterless pattern as a whole is comparing it segment by segment. |
| `RouteShapes.CheckBindings` | crates/blazingly-core/src/lib.rs:2081-2101 | The build accepts exactly the route lists whose canonical shapes are distinct per verb. |
| `RouteShapes.CanonicalExactly` | crates/blazingly-core/src/lib.rs:2210-2222 | Two segments count as the same exactly when they are equal or both are in braces. |
| `RouteShapes.AcceptedUnambiguousExactly` | crates/blazingly-core/src/lib.rs:2081-2101 | The routes the build accepts never collide in the router if and only if no pattern with parameters is registered under one verb both with and without its leading slash. |
| `RouteShapes.AcceptedUnambiguous` | crates/blazingly-core/src/lib.rs:2210-2221 | In particular, accepted routes with leading slashes never collide in the router. |
| `RouteShapes.AcceptedYetClashing` | crates/blazingly-core/src/lib.rs:2210-2221 | Such a pair does pass the build's checks, and the router cannot tell it apart. |
| `CaptureStack.CapturedSegments.Push` | crates/blazingly-http/src/lib.rs:2362-2383 | The three-way capture storage grows as a stack does. |
| `CaptureStack.CapturedSegments.Pop` | crates/blazingly-http/src/lib.rs:2387-2395 | And shrinks as a stack does. |
| `CaptureStack.CapturedSegments.Get` | crates/blazingly-http/src/lib.rs:2397-2403 | Reading a capture is indexing the stack. |
| `RouteTrie.ChildIsLinked` | crates/blazingly-http/src/lib.rs:2038-2046 | A node whose shape extends another's by one segment is found through that node's links. |
| `RouteTrie.FittingSplits` | crates/blazingly-http/src/lib.rs:2220-2233 | Whatever fits the rest of a path goes through the static child or the parameter child. |
| `RouteTrie.AddChild` | crates/blazingly-http/src/lib.rs:2121-2143 | Adding a missing child keeps the trie valid. |
| `CompiledRouter.FilterNeverMisses` | crates/blazingly-http/src/lib.rs:2291-2300 | Setting a path's bit in the two-word filter is never missed by a later probe of that path, nor disturbs another. |
| `CompiledRouter.SplitSegment` | crates/blazingly-http/src/lib.rs:2276-2281 | The first segment and the rest are the segments of the path. |
| `CompiledRouter.Router.Insert` | crates/blazingly-http/src/lib.rs:2097-2149 | A route goes to the table or to the trie node of its shape, and the router represents one route more. |
| `CompiledRouter.NamesExactly` | crates/blazingly-http/src/lib.rs:2563-2568 | A parameter name is collected exactly when some segment of the pattern is that name in braces. |
| `CompiledRouter.Router.Compile` | crates/blazingly-http/src/lib.rs:2081-2095 | The router built from a route list represents that list. |
| `CompiledRouter.Router.Walk` | crates/blazingly-http/src/lib.rs:2205-2235 | Backtracking finds the endpoint that is static where candidates first differ, with its captures on the stack; failing, it restores the stack and notes whether the path exists at all. |
| `CompiledRouter.Router.CollectMethods` | crates/blazingly-http/src/lib.rs:2250-2263 | Collects exactly the verbs under which the path exists in the trie. |
| `CompiledRouter.Router.AllowedMethods` | crates/blazingly-http/src/lib.rs:2239-2248 | The allow list has exactly the path's verbs, in declaration order. |
| `CompiledRouter.DeclarationOrder` | crates/blazingly-core/src/lib.rs:1816-1826 | The order of the verbs is that of their declaration. |
| `CompiledRouter.Router.Recognize` | crates/blazingly-http/src/lib.rs:2156-2197 | Filter, table and trie answer what a scan of the route list that prefers static segments would; the captures give back the path; not found exactly when no verb matches; otherwise exactly the matching verbs, in order, without the requested one. |
| `CompiledRouter.TableHit` | crates/blazingly-http/src/lib.rs:2163-2177 | A static hit is the preferred route of all that match. |
| `CompiledRouter.TrieHit` | crates/blazingly-http/src/lib.rs:2179-2189 | When no static route answers, the walk's result is the preferred route of all that match. |
| `UrlEncoding.DecodeUrlComponent` | crates/blazingly-http/src/lib.rs:2613-2647 | The index-driven decoder, with its borrowed shortcut, computes the component's meaning or refuses it; the next row says what that meaning is, in literal bytes. |
| `UrlEncoding.DecodesSpelling` | crates/blazingly-http/src/lib.rs:2613-2647 | A component stands for a text exactly when it can be cut into pieces that each spell one byte of it: a percent sign and two hexadecimal digits of either case, a plus sign for a space, or the byte itself. |
| `UrlEncoding.DecodeInvertsPercentEncode` | crates/blazingly-http/src/lib.rs:2649-2656 | Decoding inverts percent-encoding, for any bytes. |
| `UrlEncoding.EscapesApart` | crates/blazingly-http/src/lib.rs:2613-2647 | A separator splits no escape: decoding a joined text is joining the decoded parts, and fails exactly when a part does. |
| `UrlEncoding.CharactersApart` | crates/blazingly-http/src/lib.rs:2613-2647 | An ASCII byte splits no character: the whole is valid UTF-8 exactly when both sides are. |
| `UrlEncoding.SegmentsDecode` | crates/blazingly-http/src/lib.rs:2600-2611 | A path decodes exactly when each of its segments does. |
| `UrlEncoding.ValidateUrlEncoding` | crates/blazingly-http/src/lib.rs:2600-2611 | Validation accepts exactly the targets whose path and every query name and value decode. |
| `UrlEncoding.TargetExactly` | crates/blazingly-http/src/lib.rs:2600-2611 | In literal bytes: a target is sound exactly when what comes before its first `?` decodes and so does every piece between ampersands after it. |
| `UrlEncoding.PairExactly` | crates/blazingly-http/src/lib.rs:2604-2608 | A piece decodes exactly when both sides of its first `=` do, or, without one, the piece. |
| `UrlEncoding.CapturesDecode` | crates/blazingly-http/src/lib.rs:2332-2339 | Validating the path once means every captured parameter decodes. |
| `PathParameters.PathParameter` | crates/blazingly-http/src/lib.rs:2332-2339 | The capture of the first parameter of that name, decoded; nothing for an unknown name. |
| `PathParameters.RecognizedParameter` | crates/blazingly-http/src/lib.rs:2332-2339 | On a path that validated, every named parameter of the recognized route has a capture and it decodes: the value is present exactly when the pattern has the name, and it is the decoded segment of the path that stands where the pattern first has the name in braces. |
| `UrlEncoding.QueryValue` | crates/blazingly-http/src/lib.rs:2570-2588 | The value of pair number index of that name, unless it or an earlier name is malformed, and nothing if there is no such pair; on a target that validates, exactly the index-th decoded value of that name. |
| `UrlEncoding.QueryRoundTrip` | crates/blazingly-http/src/lib.rs:2570-2588 | A query written from names and values, spaces as plus signs, other bytes escaped, joined with `=` and `&` after a `?`, decodes, and gives back the values of every name in order. |
| `SecurityCoverage.UnverifiedSecurity` | crates/blazingly-http/src/lib.rs:1209-1238 | The startup check lists, in order and each once, exactly the operations that declare a scheme no verifying layer reaches on their pattern. |
| `SecurityCoverage.AcceptsExactly` | crates/blazingly-http/src/lib.rs:258-266 | An exact rule accepts the one id, a prefix rule exactly the ids that continue it. |
| `SecurityCoverage.MatchesExactly` | crates/blazingly-http/src/lib.rs:361-377 | A scope without path prefixes reaches every path and one without operation rules every operation; otherwise some prefix and some rule must. |
| `SecurityCoverage.NormalizePrefix` | crates/blazingly-http/src/lib.rs:389-398 | A registered prefix is stored empty, or with a leading slash and no trailing one; the next rows say which. |
| `SecurityCoverage.NormalStays` | crates/blazingly-http/src/lib.rs:389-398 | A prefix in that form is stored as it is. |
| `SecurityCoverage.SlashesIgnored` | crates/blazingly-http/src/lib.rs:389-398 | A slash added at the end of a prefix makes no difference, nor does a missing leading one. |
| `SecurityCoverage.EmptyExactly` | crates/blazingly-http/src/lib.rs:389-398 | The stored prefix is empty exactly for prefixes made of slashes only. |
| `SecurityCoverage.RegisteredReaches` | crates/blazingly-http/src/lib.rs:389-405 | A scope registered with a raw prefix reaches exactly the slash-led paths whose segments begin with the prefix's, slashes at its end dropped; with nothing left, every path. |
| `SecurityCoverage.PrefixBySegments` | crates/blazingly-http/src/lib.rs:400-405 | A byte prefix ending at a segment boundary is a prefix of segments. |
| `SecurityCoverage.PrefixCarriesOver` | crates/blazingly-http/src/lib.rs:400-405 | A scope prefix without placeholders that reaches a pattern reaches every path the pattern matches. |
| `SecurityCoverage.VerifiedEverywhere` | crates/blazingly-http/src/lib.rs:400-405 | Every path a pattern matches is verified if and only if some verifying layer accepts the operation and is unscoped or has a prefix that reaches the pattern and, if the pattern has parameters, has no placeholder segment. |
| `SecurityCoverage.FilledRouted` | crates/blazingly-http/src/lib.rs:2156-2197 | A pattern filled with a segment no route has is a path the router gives to that pattern, unless another route is indistinguishable. |
| `SecurityCoverage.ClashNeverPreferred` | crates/blazingly-http/src/lib.rs:2156-2197 | Of two indistinguishable routes neither is ever preferred. |
| `SecurityCoverage.GuardExactly` | crates/blazingly-http/src/lib.rs:1706-1720 | Dispatch refuses no request that the router gives to an operation if and only if the operation is exempt or covered in that sense, or another route is indistinguishable from its own, so that none is ever given to it. |
| `SecurityCoverage.CheckCoverage` | crates/blazingly-http/src/lib.rs:1249-1256 | The startup check passes exactly when dispatch would refuse no pattern taken as a path; whether dispatch refuses a request routed to an operation is decided exactly by the condition above, which holds for all operations that pass when no verifying layer has a placeholder in its scope. |
| `SecurityCoverage.PassesYetRefuses` | crates/blazingly-http/src/lib.rs:1209-1256 | A single verifying layer scoped by a prefix with a placeholder lets the startup check pass, and dispatch refuses some request that the router gives to the operation, whatever the other routes. |
| `Migrations.New` | crates/blazingly-database/src/lib.rs:605-615 | A set is accepted exactly when versions strictly increase; otherwise the first offending version is named. |
| `Migrations.Verify` | crates/blazingly-database/src/lib.rs:649-674 | Succeeds if and only if the ledger is an unmodified prefix of the set; otherwise the first disagreeing record is classified. |
| `Migrations.OneProblem` | crates/blazingly-database/src/lib.rs:649-674 | There is only one first problem, so what is reported is determined. |
| `Migrations.ReportMeaning` | crates/blazingly-database/src/lib.rs:640-648 | For a ledger in ascending order each report means what its documentation says: unknown, changed, or skipped below a recorded version. |
| `Migrations.UnorderedLedgerMisreported` | crates/blazingly-database/src/lib.rs:654-667 | Out of that order a report can mislead. |
| `Migrations.PartitionPoint` | crates/blazingly-database/src/lib.rs:635-637 | Halving finds the first version above the given one. |
| `Migrations.PendingAfter` | crates/blazingly-database/src/lib.rs:631-639 | What is pending after a verified ledger is exactly the rest of the set. |
| `Migrations.Database.Migrate` | crates/blazingly-database/src/lib.rs:333-357 | A ledger that does not verify is left alone and its first disagreement reported; otherwise migrations are applied in order up to the first refusal, the ledger stays a prefix, and success means it is complete and reports exactly what was applied. The failure is the driver's exactly when the adapter failed or refused. |
| `Migrations.Database.VerifyMigrations` | crates/blazingly-database/src/lib.rs:365-386 | Passes exactly when the ledger records the whole set, unmodified; otherwise reports the adapter's failure, the ledger's first disagreement, or the first migration the ledger lacks. |
| `Migrations.RunsResume` | crates/blazingly-database/src/lib.rs:333-357 | However runs are interrupted, one that meets no failure completes the set, and then nothing is left to do. |
| `Migrations.MigrateRepeatedly` | crates/blazingly-database/src/lib.rs:333-357 | Any sequence of runs leaves a prefix that never shrinks. |
| `Hooks.FirstErrorExactly` | crates/blazingly-executor/src/lib.rs:2041-2067 | A list of hooks fails with the failure of the first hook, in order, that fails. |
| `Hooks.EmptyExactly` | crates/blazingly-executor/src/lib.rs:1978-1987 | A scope counts as free of hooks exactly when each of its seven lists is empty. |

## Left out

- PoolProtocol.StepKeeps: atomics are sequentially consistent and critical sections are atomic up to the counter's own store, so weak memory, lock poisoning and real thread scheduling are not modelled; a worker that fails to spawn is one that never starts.
- PoolProtocol.QueuedJobCanBeTaken: states that a worker's own steps take the job, not that a fair scheduler must run them.
- CancellationProtocol.NoLostWaiter: wakers that `will_wake` each other are one waker.
- MultipartAgreement.StreamingExact: compares acceptance and parts; each reader's errors are stated by `BufferedMultipart.ParseMultipart` and `MultipartAgreement.ReadDocument`, which check limits in a different order, and are not compared with each other.
- MultipartReader.MultipartStream.ReadHeaders: does not bound reading time or allocation, and returning chunk buffers to the producer is not modelled.
- MultipartRendering.RoundTripBuffered: the document printer is the shape used by the repository's own multipart tests; the repository has no public printer.
- ProviderGraph.Validate: errors carry registration indices instead of type and plugin names.
- PluginScopes.PluginCollector.Collect: security schemes, which are gathered into one list as lifecycle hooks are, are not modelled, and errors carry what is wrong without the plugin's path.
- ApplicationBuilder.BuildApplication: the definition checks that follow are `RouteShapes.CheckBindings` and the comparison of ids; those of declared inputs and security requirements are not modelled.
- PluginScopes.CollectApplication: test overrides are not modelled; an application built without them applies none.
- Mounts.Apply: which operation ids are well-formed is a parameter, because the contract crate that decides it is not part of this model; the descriptor is mounted as a value, not in place.
- InputPlan.PlanInputs: the descriptors folded into the operation contract for documentation are not modelled.
- Injection.SlotsMeanInjection: factories are functions of what they read; a factory with hidden state is covered by the pipeline's teardown theorems only through the slots.
- ProviderChain.Invocation.ResolveControlled: a factory called before a signal fires may have side effects; only values stored in slots are tracked.
- Pipeline.InvokePipeline: assumes, as the operation builder promises, that a synchronous handler's direct form computes what its awaited form does; response bodies, headers and background tasks are opaque.
- Pipeline.FinalizedExactlyOnce: a finalizer that fails ends the teardown in the source too, so values below it are not finalized; `Pipeline.FailingFinalizerAnswers` states that case.
- CompiledRouter.Router.Recognize: hash quality is not modelled; the operation an endpoint belongs to is its position in the route list.
- SecurityCoverage.CheckCoverage: authentication itself, and layers other than by scope and by whether they verify, are not modelled.
- Migrations.Database.Migrate: SQL, connection pools and the checksum function are opaque.
- The JSON engine, serialization, OpenAPI and MCP projections, sockets, TLS, metrics, sessions, settings, macros and generated documentation are not modelled.
- Background tasks and body streaming for responses are not modelled: they would add easy members only.

# Verification of codex-lb's core logic

codex-lb is a load-balancing proxy in front of an AI backend. This project models the parts of it
whose correctness is not visible from any single function (stream translation, replicated caches,
incremental decoding, canonical forms, concurrency protocols, routing) and proves what they
promise, for all inputs, runs and interleavings.

Code that only computes is modelled by functions. Objects that are updated in place are classes
whose methods are proved against those functions, and loops stay loops. Floats are `real`, clocks
are explicit parameters, and each lock-protected block or SQL statement is one atomic step of a
state machine. Theorems about protocols quantify over every sequence of such steps. Every lemma
carries `{:induction false}`: no proof depends on induction hypotheses that Dafny would add by itself.

Where several theorems share a definition (how arguments are merged, what a lookup returns, which
frame is blank, how an item is rewritten, what a strategy minimises), `ChatMessage`, `CacheReads`,
`SseContent`, `InputMeaning` and `AccountPolicy` state its meaning once more without it, on the
events, operations, bytes, items and fields themselves.

| files | component |
|---|---|
| `ChatSpec`, `ChatAgreement`, `ChatTrailing`, `ChatMessage`, `ChatOrder`, `ChatObjects` | translation of Responses events to Chat chunks, streamed and collected |
| `VersionedCache`, `CacheInvalidation`, `CacheReads` | version-guarded caches and their invalidation across replicas |
| `SseFraming`, `SseContent`, `SseSize`, `Utf8`, `SseData` | server-sent events: bytes to frames, frames to data |
| `MigrationChain` | the validator of the migration history |
| `Json`, `ToolCanonical`, `InputSanitize`, `InputMeaning` | request canonicalisation |
| `CircuitBreaker`, `LeaderElection`, `RefreshSingleflight`, `RetryBudget` | concurrency protocols |
| `AccountRecovery`, `AccountChoice`, `AccountSelection`, `AccountPolicy`, `AccountSelector` | account selection |
| `ModelRegistry` | the two indexes of the model registry |
| `Options`, `Ordering`, `Sequences` | shared definitions |

## What the proofs found

- The loop that flushes pending tool calls at a closing event never has anything to send
  (`ChatAgreement.ClosingFlushIsSilent`).
- For a stream with one closing event, the streamed and the collected result agree exactly when
  every call is identified, its last argument text extends what was already streamed, and the
  events after the closing one, which only the collector reads, add nothing
  (`ChatTrailing.StreamAgreesWithCollector`). Replacing streamed text by other text, or sending text
  after the closing event, always breaks the agreement (`ChatOrder.RewrittenArgumentsDisagree`,
  `ChatTrailing.TrailingTextDisagrees`).
- A failure event without an error object ends the collector but not the stream
  (`ChatOrder.FailureOutcome`).
- The size named in the too-large error depends on the chunking, unless a single chunk already
  reports one byte past the limit (`SseSize.SizeIsFixedExactly`); whether and after which events the
  error is raised does not (`SseFraming.ChunkingDoesNotMatter`).
- `format_sse_event` does not escape the event type, so an event type holding a line break can
  change the extracted data; the exact condition is `SseData.EventRoundTripExactly`.
- The "Unreachable revisions" check of the migration validator is redundant: it fires only when a
  down revision is unknown, and then names no revision (`MigrationChain.ValidateChain`).
- Different tools that share a sort key keep the order in which they came
  (`ToolCanonical.EqualKeysKeepInputOrder`); two lists become identical exactly when, for every sort
  key, their tools with that key mean the same in the same order (`ToolCanonical.CanonicalExactly`).
- `try_acquire` reads its clock before its statement runs. A run can be continued to one with
  overlapping leases by an instance new to it exactly when some instance's effective statements were
  executed out of the order in which their times were captured
  (`LeaderElection.OverlapExactlyWhenOutOfOrder`).
- A refresh call for another token of the same account, or a completion without a refresh error,
  forgets a recorded failure before it expires; these are the only ways
  (`RefreshSingleflight.RefusedExactlyWhileCoolingDown`).
- A limited account without a reset time never becomes eligible again by itself
  (`AccountRecovery.LimitedForever`). The input order matters exactly when the backoff fallback has
  to break a tie (`AccountSelection.OrderDoesNotMatter`).
- The documentation of `select_account` says that the system time is used when `now` is `None`; the
  code also uses it for a `now` of 0.0, and the model follows the code
  (`AccountSelection.Current`).

## Model

| member | source | states |
|---|---|---|
| ChatTrailing.StreamAgreesWithCollector | app/core/openai/chat_responses.py:232-483 | For a stream whose only terminal or failure event is its closing one, whatever else follows it, replaying the chunks gives the collector's content, refusal, tool calls and finish reason if and only if, read off the lines, the later events add no text, no refusal and no reported call, and every call ends identified, unchanged in id, name and type, with everything streamed of it as its final arguments; the usage agrees when requested |
| ChatTrailing.CallsFromLines | app/core/openai/chat_responses.py:430-432 | Each of the collector's calls is the result of the updates that the lines file under it, and there is a call exactly where something is filed |
| ChatTrailing.TrailingTextDisagrees | app/core/openai/chat_responses.py:417-429 | Any text after the closing event reaches the collector and not the stream |
| ChatTrailing.OpenLinesAdd | app/core/openai/chat_responses.py:417-432 | Events that do not end the stream only append text, only add calls, never take an id or a name from one, and leave all but the first call with an id or a name |
| ChatTrailing.FinalCallsAgree | app/core/openai/chat_responses.py:739-745 | The client's calls are the collector's final ones if and only if each is kept as it was at the closing event and no other is reported |
| ChatTrailing.AgreesWhenNothingTrails | app/core/openai/chat_responses.py:232-483 | When no event follows the closing one, the two agree if and only if every call is identified and its last arguments extend what was already streamed |
| ChatMessage.CallOnLines | app/core/openai/chat_responses.py:175-186 | For every list of lines, a call's arguments are the text of the last replacing update filed under it, if any, followed by the texts of the appending updates after it in order; its id, name and type are the last non-empty ones carried |
| ChatMessage.SameIndexExactly | app/core/openai/chat_responses.py:126-133 | Two events with a key share an index if and only if they carry the same non-empty id, or no id and the same non-empty name; an event without a key goes to index 0 |
| ChatMessage.IndexCountsCalls | app/core/openai/chat_responses.py:126-133 | The index of a call is the number of calls opened before it |
| ChatMessage.KeysTellCalls | app/core/openai/chat_responses.py:699-705 | The keys of two events are equal if and only if they are of the same call |
| ChatMessage.CollectedOnLines | app/core/openai/chat_responses.py:407-483 | Without a failure event the collected message shows the texts in order, withholds the content only when it is empty beside a refusal or a call, ends with `tool_calls` or else as the last incomplete response says, and shows exactly the calls that the lines leave |
| ChatMessage.LastMarkCounts | app/core/openai/chat_responses.py:448-456 | Usage, response id and incomplete reason are those of the last closing event that carries them |
| ChatMessage.ClientOnLines | app/core/openai/chat_responses.py:240-379 | At the closing event a client has the texts in order, the finish reason `tool_calls` if and only if some event was of a tool call and else the closing event's, and the token counts when requested and reported |
| ChatAgreement.StreamedPiecesAreEmittedArguments | app/core/openai/chat_responses.py:188-209 | For every event sequence, the argument pieces streamed for an index concatenate to that call's emitted arguments, and an index without a call gets none |
| ChatAgreement.ClosingFlushIsSilent | app/core/openai/chat_responses.py:322-347 | In every reachable state the closing loop over all calls emits nothing and changes nothing |
| ChatAgreement.RunKeeps | app/core/openai/chat_responses.py:240-379 | Every run keeps the stream invariant, and the client's reassembled calls are what the calls are marked as having emitted |
| ChatAgreement.PiecesReplay | app/core/openai/chat_responses.py:153-161 | Reassembling chunks appends exactly the streamed pieces to each call's arguments |
| ChatAgreement.EmittedRun | app/core/openai/chat_responses.py:756-766 | Along any run, what is emitted and what the remaining argument history can still show determine the same final text |
| ChatAgreement.EmittedAtClosing | app/core/openai/chat_responses.py:756-766 | The emitted arguments at the close are the last value of the argument history reachable by extensions only |
| ChatOrder.RoleIsSentOnceAndFirst | app/core/openai/chat_responses.py:249-302 | A delta carries the role if and only if no other delta precedes it |
| ChatOrder.DoneIsLast | app/core/openai/chat_responses.py:304-379 | Nothing follows `[DONE]`, and it is sent if and only if some line ends the stream |
| ChatOrder.LineByLineEqualsWhole | app/core/openai/chat_responses.py:388-404 | Feeding lines one at a time with shared state gives the chunks and the state of one call on the whole list |
| ChatOrder.FailureOutcome | app/core/openai/chat_responses.py:304-320 | At the first failure event the collector gives up with its error; the stream ends with it if the event carries one, and carries on without `[DONE]` if not |
| ChatOrder.RewrittenArgumentsDisagree | app/core/openai/chat_responses.py:756-766 | Replacing streamed argument text by text that does not extend it makes the two consumers differ, whatever the texts |
| ChatObjects.ToolCallIndex.IndexFor | app/core/openai/chat_responses.py:126-133 | The index object follows the index function |
| ChatObjects.ToolCallState.ApplyDelta | app/core/openai/chat_responses.py:175-186 | A delta changes the call as specified, mode by mode |
| ChatObjects.ToolCallState.BuildStreamDelta | app/core/openai/chat_responses.py:188-209 | Returns what is pending and marks exactly that as emitted |
| ChatObjects.MergeToolCallDelta | app/core/openai/chat_responses.py:732-736 | Grows the list of calls and changes the one call the delta is for |
| ChatObjects.ChatChunkState.FlushCalls | app/core/openai/chat_responses.py:322-347 | The closing loop refines the flush function that is proved silent |
| ChatObjects.ChatChunkState.Process | app/core/openai/chat_responses.py:240-379 | One event changes the shared state and emits chunks as the step function says |
| ChatObjects.IterChatChunks | app/core/openai/chat_responses.py:232-379 | The loop over lines refines the run function from any valid state |
| ChatObjects.StreamChatChunks | app/core/openai/chat_responses.py:382-404 | The line-at-a-time loop emits what one run over the whole list emits |
| ChatObjects.CompactToolCalls | app/core/openai/chat_responses.py:739-745 | Keeps the calls that have a message form, in order |
| ChatObjects.CollectChatCompletion | app/core/openai/chat_responses.py:407-483 | The collecting loop refines the collector compared with the stream |
| CacheInvalidation.PolledReplicaHoldsNothingOlder | app/core/cache/invalidation.py:60-143 | In every interleaving, once a replica whose poller was initialised before a bump applies a poll that read it, everything it holds or an in-flight read can still store was read after the bump, hence after the write before it |
| CacheInvalidation.PolledKeyIsNeverStale | app/core/cache/invalidation.py:113-142 | If the key does not change after that write, such a value equals the current row |
| CacheInvalidation.InvalidatedKeyIsNeverStale | app/core/auth/dependencies.py:72-92 | On one replica, when every change of a key was followed by an invalidation that reaches it, a cached or still storable value equals the row |
| CacheInvalidation.StepKeepsInv | app/core/cache/invalidation.py:60-143 | Each step of readers, writers, bumps and polls keeps the protocol invariant |
| CacheInvalidation.RunKeepsInv | app/core/cache/invalidation.py:60-143 | The invariant holds in every state of every run |
| CacheInvalidation.FillKeepsOk | app/core/auth/dependencies.py:84-89 | A fill guarded by the captured version stores only what was read after the last invalidation |
| CacheInvalidation.CachesStayWithinLimit | app/core/auth/api_key_cache.py:36-43 | No cache exceeds its limit in any run |
| CacheInvalidation.InvalidationTable.Bump | app/core/cache/invalidation.py:60-100 | Inserts version 1 or increments, and touches no other namespace |
| CacheInvalidation.CacheInvalidationPoller.ApplyRows | app/core/cache/invalidation.py:123-142 | The loop over rows records every version and runs the callbacks of exactly the namespaces whose version moved |
| CacheReads.ReadExactly | app/core/auth/api_key_cache.py:30-52 | After any history of fills, drops and clears a read returns a value if and only if the last store of the key was of it, less than the time to live ago, and no drop, clear or eviction of the key came since |
| CacheReads.StoredExactly | app/core/auth/api_key_cache.py:36-43 | A fill is stored if and only if its version equals the number of invalidations so far and the limit is positive |
| CacheReads.EvictionOnOperations | app/core/auth/api_key_cache.py:40-42 | Only a full cache evicts, and what it evicts was stored no later than anything else it holds |
| CacheReads.ServedExactly | app/core/cache/invalidation.py:60-143 | In every run, whether or not a bump arrives, what a replica serves was read from the database, stored by one of its fills less than the time to live ago and not dropped, cleared or evicted since; and whatever is so is served |
| VersionedCache.PutKeepsLimit | app/core/auth/api_key_cache.py:36-43 | For a positive limit a fill never raises, stores only under the captured version, keeps the limit and adds nothing but its entry |
| VersionedCache.EvictionTakesTheOldest | app/core/auth/api_key_cache.py:40-42 | What a fill evicts expires no later than any other entry, and only a full cache loses one |
| VersionedCache.ApiKeyCache.OldestKey | app/core/auth/api_key_cache.py:41 | The loop finds the first key with the earliest expiry |
| VersionedCache.ApiKeyCache.Set | app/core/auth/api_key_cache.py:36-43 | The guarded fill with eviction; keeps the cache within its limit |
| VersionedCache.ApiKeyCache.Invalidate | app/core/auth/api_key_cache.py:45-48 | Drops the key and moves the version, present or not |
| VersionedCache.FirewallIpCache.Set | app/core/middleware/firewall_cache.py:36-43 | The same guarded fill, without a limit |
| SseFraming.FindSeparator | app/core/clients/proxy.py:685-691 | Finds a separator if there is one, and none starts earlier |
| SseFraming.SeparatorIsStable | app/core/clients/proxy.py:685-691 | A found separator stays the first whatever arrives later, although the two separators overlap |
| SseFraming.FramingConservesBytes | app/core/clients/proxy.py:694-702 | Popped frames and the remaining buffer concatenate to the input |
| SseFraming.DrainAppend | app/core/clients/proxy.py:743-755 | Draining a prefix and then the rest with what follows equals draining everything |
| SseFraming.IterIsWhole | app/core/clients/proxy.py:722-760 | Decoding chunk by chunk equals decoding all bytes at once |
| SseFraming.ChunkingDoesNotMatter | app/core/clients/proxy.py:722-760 | Any two splits of the same bytes yield the same events, and both or neither raise after them |
| SseSize.ReportedSize | app/core/clients/proxy.py:743-760 | For every split, the error is raised if and only if the bytes overflow, and it names the smaller of the oversized frame and of what had arrived of it at the first chunk boundary past the limit |
| SseSize.SameSizeExactly | app/core/clients/proxy.py:743-752 | Two splits of the same bytes name the same size if and only if they arrive alike at that boundary or both complete the oversized frame |
| SseSize.SizeIsFixedExactly | app/core/clients/proxy.py:743-752 | No split can change the size if and only if one single chunk already reports one byte past the limit |
| SseSize.SizeBounds | app/core/clients/proxy.py:743-752 | Every split names at least one byte past the limit and at most what a single chunk names |
| SseContent.EventsKeepVisibleBytes | app/core/clients/proxy.py:722-760 | For every split without an error the bytes of the events other than white space are those of the stream, in order, and with an error a prefix of them; each event holds such a byte and ends at its first separator, except an unterminated last one |
| SseFraming.SseBuffer.Pop | app/core/clients/proxy.py:694-702 | Removes the first frame; frame and buffer put together are the old buffer |
| SseFraming.SseBuffer.DrainFrames | app/core/clients/proxy.py:744-755 | The popping loop refines the drain function |
| SseFraming.IterSseEvents | app/core/clients/proxy.py:722-760 | The loop over chunks refines the decoder proved independent of chunking |
| SseData.ExtractSseDataLines | app/core/utils/sse.py:51-65 | The loop collects exactly the data lines, and reports none as absent |
| SseData.ExtractedExactly | app/core/utils/sse.py:39-48 | The data lines joined by newlines are returned, unless there is none, they are white space only, or they are the end marker within white space |
| SseData.DataLinesAppend | app/core/utils/sse.py:51-65 | The data lines of two texts joined by a newline are those of each, in order |
| SseData.EventRoundTripExactly | app/core/utils/sse.py:13-18 | Extracting from a formatted event gives its data back if and only if the event type contributes no data line |
| SseData.EmbeddedDataLineIsExtracted | app/core/utils/sse.py:13-18 | An event type with an embedded data line always changes what is extracted |
| SseData.FrameRoundTrip | app/core/utils/sse.py:39-48 | One formatted event, encoded and decoded as UTF-8, gives its data back |
| SseData.FrameIsPopped | app/core/clients/proxy.py:694-702 | In front of any bytes a formatted event is popped as one complete frame that is not blank |
| SseData.StreamRoundTrip | app/core/utils/sse.py:13-74 | Formatting a list of payloads without line breaks in type or data, in any script, splitting the bytes anywhere, framing, decoding and extracting returns the list |
| Utf8.DecodeEncode | app/core/clients/proxy.py:755 | Decoding the encoding of any text returns the text |
| MigrationChain.ValidateChain | scripts/rewrite_alembic_revisions.py:52-121 | No errors if and only if the files are clean and all revisions form one chain from a single root to a single head; the unreachable check never names a revision |
| MigrationChain.ChainExactlyWhenChecksPass | scripts/rewrite_alembic_revisions.py:90-115 | The local checks hold if and only if one linear order of all revisions exists |
| MigrationChain.ChainIsUnique | scripts/rewrite_alembic_revisions.py:90-115 | There is at most one such order |
| MigrationChain.NothingBesideTheChain | scripts/rewrite_alembic_revisions.py:98-115 | Every revision lies on the chain below the single head |
| MigrationChain.DepthIsBounded | scripts/rewrite_alembic_revisions.py:104-114 | A revision has fewer revisions below it than there are revisions |
| MigrationChain.RepeatNeverEnds | scripts/rewrite_alembic_revisions.py:106-108 | A walk that returns to a visited revision has no end |
| MigrationChain.LoadRevisions | scripts/rewrite_alembic_revisions.py:58-88 | Builds the table; no errors if and only if every file parses, is named after its revision and repeats none |
| MigrationChain.CheckTargets | scripts/rewrite_alembic_revisions.py:90-92 | Reports exactly the unknown down revisions |
| MigrationChain.CollectRoots | scripts/rewrite_alembic_revisions.py:94-96 | Lists exactly the roots |
| MigrationChain.CollectHeads | scripts/rewrite_alembic_revisions.py:98-100 | Lists exactly the heads |
| MigrationChain.Walk | scripts/rewrite_alembic_revisions.py:104-114 | Terminates on every table, cyclic ones included, and reports a cycle if and only if the walk has no end |
| MigrationChain.CheckWalks | scripts/rewrite_alembic_revisions.py:102-115 | No cycle error if and only if every walk ends; every revision is visited |
| ToolCanonical.SortKeysIsCanonical | app/core/openai/requests.py:510-516 | Two values are sorted into the same ordered value if and only if they have the same JSON meaning |
| ToolCanonical.SortKeepsMeaning | app/core/openai/requests.py:510-516 | Sorting keeps well-formedness and meaning at every depth |
| ToolCanonical.CanonicalExactly | app/core/openai/requests.py:484-516 | Two tool lists become identical if and only if for every sort key their tools with it mean the same in the same order |
| ToolCanonical.NamesAscend | app/core/openai/requests.py:484-507 | Named tools come out in ascending order of their own or their function's names, after tools without a name |
| ToolCanonical.OrderOfToolsIsIrrelevant | app/core/openai/requests.py:484-516 | With distinct sort keys, lists become identical if and only if they hold the same tools |
| ToolCanonical.EqualKeysKeepInputOrder | app/core/openai/requests.py:484-507 | Two different tools with one sort key keep their input order |
| ToolCanonical.CanonicalizeIsIdempotent | app/core/openai/requests.py:484-516 | Canonicalising twice changes nothing |
| ToolCanonical.CanonicalizeKeepsTools | app/core/openai/requests.py:484-516 | The multiset of tool meanings is kept |
| ToolCanonical.SortKeyOfMeaning | app/core/openai/requests.py:495-507 | The sort key depends on the JSON meaning only |
| ToolCanonical.SortToolsFacts | app/core/openai/requests.py:484-492 | Sorting the tools is ordered and stable |
| InputSanitize.SanitizeIsIdempotent | app/core/openai/requests.py:129-290 | Where sanitising succeeds, the result carries no interleaved reasoning and no `tool` role, and sanitising again returns it unchanged |
| InputMeaning.SanitizeKeepsItems | app/core/openai/requests.py:129-290 | Where sanitising succeeds the result holds exactly one item for each non-null input item, in order: other values as they are; in a mapping that is not a tool item every key but the content and the interleaved ones with its value, and the content without its reasoning, an assistant's as text parts with the same texts; a tool item as the output of the call it names, with its text |
| InputMeaning.CleanItemIsUnchanged | app/core/openai/requests.py:139-197 | An item without reasoning whose role is neither `assistant` nor `tool` comes back unchanged |
| InputMeaning.AssistantItemIsKept | app/core/openai/requests.py:245-274 | An assistant item keeps its other keys; string content becomes one text part, and each list part its text or itself |
| InputMeaning.ToolItemIsMade | app/core/openai/requests.py:200-242 | A tool item becomes a `function_call_output` with the first usable id and the text of its output, or else of its content |
| InputSanitize.SanitizeFailsExactly | app/core/openai/requests.py:200-217 | It fails if and only if some tool item names no call |
| InputSanitize.OneIsStable | app/core/openai/requests.py:139-197 | A kept item is clean and stable under another pass |
| InputSanitize.SanitizeItemFields | app/core/openai/requests.py:144-155 | The loop over an item's fields |
| InputSanitize.SanitizeContentParts | app/core/openai/requests.py:159-166 | The loop over content parts |
| InputSanitize.SanitizeInputItems | app/core/openai/requests.py:129-136 | The loop over items; its successful result is clean and stable |
| CircuitBreaker.OpensExactlyAtThreshold | app/core/resilience/circuit_breaker.py:98-106 | In every run a closed circuit opens if and only if a server failure is recorded and some stretch of the closed period without a success, ending with it, holds `failure_threshold` of them |
| CircuitBreaker.ClosesExactlyAtThreshold | app/core/resilience/circuit_breaker.py:86-96 | An open circuit closes if and only if a success is recorded at least the recovery timeout after every earlier failure, and some stretch of the open period without a failure, ending with it, holds `success_threshold` such successes |
| CircuitBreaker.ClientErrorsNeverCount | app/core/resilience/circuit_breaker.py:98-118 | In a run whose failures all have a status below 500 the breaker never changes and admits every call |
| CircuitBreaker.ClosedWindowIsCounted | app/core/resilience/circuit_breaker.py:98-106 | No stretch without a success holds more failures than are counted |
| CircuitBreaker.OpenWindowIsCounted | app/core/resilience/circuit_breaker.py:86-96 | No stretch without a failure holds more late successes than are counted |
| CircuitBreaker.RecoveredExactly | app/core/resilience/circuit_breaker.py:42-50 | While open, the recorded failure time tells whether the timeout of every earlier failure has passed |
| CircuitBreaker.OpenCircuitAdmitsOnlyProbes | app/core/resilience/circuit_breaker.py:52-62 | An open circuit admits nothing within the recovery timeout of any failure, and only a probe afterwards |
| CircuitBreaker.AtMostOneProbe | app/core/resilience/circuit_breaker.py:52-84 | At most one half-open probe is outstanding in any run, and the flag is then set |
| CircuitBreaker.LastFailureIsLatest | app/core/resilience/circuit_breaker.py:98-106 | The recorded failure time is that of the latest server failure |
| CircuitBreaker.Circuit.CheckIn | app/core/resilience/circuit_breaker.py:52-62 | Admission, rejection and the probe flag |
| CircuitBreaker.Circuit.Succeeded | app/core/resilience/circuit_breaker.py:86-96 | The state after a recorded success |
| CircuitBreaker.Circuit.FailedWith | app/core/resilience/circuit_breaker.py:98-106 | The state after a recorded failure; other than server failures change nothing |
| LeaderElection.LeasesNeverOverlap | app/core/scheduling/leader_election.py:31-58 | With each instance's statements executed in capture order, an acquisition by another instance carries a time strictly after the lease's end |
| LeaderElection.AtomicClockIsInOrder | app/core/scheduling/leader_election.py:31-58 | A nondecreasing clock read and used in one step satisfies that condition |
| LeaderElection.OverlapExactlyWhenOutOfOrder | app/core/scheduling/leader_election.py:31-89 | In every run, each instance's effective statements are in capture order if and only if at no point an instance new to the run can acquire a lease that overlaps one given before |
| LeaderElection.OutOfOrderIsOverlapped | app/core/scheduling/leader_election.py:31-58 | Two effective statements of one instance executed out of capture order let the run continue with an acquisition inside the earlier lease |
| LeaderElection.ReadBackIsSound | app/core/scheduling/leader_election.py:56-58 | An instance that reads itself back holds a lease of one of its own statements, and in capture order nobody acquires before that lease is over, whatever ran between the statement and the read |
| LeaderElection.LeaseIsRespected | app/core/scheduling/leader_election.py:35-54 | In capture order, the row always records the lease's holder up to its end, or a later lease of another instance |
| LeaderElection.SchedulerLeaderTable.Upsert | app/core/scheduling/leader_election.py:37-54 | Takes the row when it is absent, expired or already held by the instance |
| LeaderElection.SchedulerLeaderTable.Extend | app/core/scheduling/leader_election.py:79-87 | Moves the expiry of the instance's own row only |
| LeaderElection.Elector.TryAcquire | app/core/scheduling/leader_election.py:31-58 | Answers whether the row is the instance's own afterwards, and says exactly when |
| LeaderElection.Elector.Renew | app/core/scheduling/leader_election.py:65-89 | Only an instance that believes it leads extends a row |
| RefreshSingleflight.AtMostOneRefresh | app/modules/accounts/auth_manager.py:62-85 | In every interleaving at most one unfinished refresh exists per account and token |
| RefreshSingleflight.CallersJoinOrWait | app/modules/accounts/auth_manager.py:68-85 | A caller that finds an unfinished refresh joins it, unless its key is cooling down, and then gets the recorded failure |
| RefreshSingleflight.RefusedExactlyWhileCoolingDown | app/modules/accounts/auth_manager.py:68-123 | In every run a call is refused if and only if an earlier completion recorded a failure of its key, nothing recorded or forgot one since, and the cool-down from it has not passed; it gets that failure and starts nothing |
| RefreshSingleflight.CoolDownPersists | app/modules/accounts/auth_manager.py:90-123 | A recorded failure stays until it is recorded again, forgotten or found expired |
| RefreshSingleflight.EntryWasRecorded | app/modules/accounts/auth_manager.py:99-111 | Every remembered failure is the one last recorded for its key |
| RefreshSingleflight.OtherTokenLiftsCoolDown | app/modules/accounts/auth_manager.py:115-123 | A call for another token of the account forgets the failure |
| RefreshSingleflight.Singleflight.Run | app/modules/accounts/auth_manager.py:62-85 | The block under the lock: purge, refusal, joining, starting |
| RefreshSingleflight.Singleflight.Complete | app/modules/accounts/auth_manager.py:90-111 | Completion removes only its own task and records or clears the failure |
| RetryBudget.WindowNeverExceedsLimit | app/core/resilience/retry_budget.py:15-26 | With a nondecreasing clock every closed interval of one window holds at most `max_retries` successful acquisitions |
| RetryBudget.AcquiresExactly | app/core/resilience/retry_budget.py:15-26 | With a nondecreasing clock an acquisition succeeds if and only if fewer than `max_retries` succeeded in the window that ends now |
| RetryBudget.RemainingPredictsAcquire | app/core/resilience/retry_budget.py:28-32 | After any run, the remaining budget is positive if and only if an acquisition would succeed |
| RetryBudget.SpacedBoundsWindow | app/core/resilience/retry_budget.py:18-23 | Grants spaced by the deque rule leave at most the limit to any window |
| RetryBudget.Budget.TryAcquire | app/core/resilience/retry_budget.py:15-26 | Drops timestamps before the cutoff, then grants and records if room is left |
| RetryBudget.Budget.Remaining | app/core/resilience/retry_budget.py:28-32 | The counting loop; positive if and only if an acquisition would succeed |
| AccountRecovery.EligibleExactly | app/core/balancer/logic.py:141-179 | An account is eligible if and only if it is ACTIVE or its limit's reset time is reached, no cooldown is pending and its errors no longer count |
| AccountRecovery.RecoverComposes | app/core/balancer/logic.py:141-179 | A pass at one instant never changes what a later pass does; at equal instants the pass is idempotent |
| AccountRecovery.EligibilityPersists | app/core/balancer/logic.py:141-179 | An eligible account stays eligible at every later time |
| AccountRecovery.EligibleEventually | app/core/balancer/logic.py:141-179 | An account that is not paused or deactivated and is ACTIVE or has a reset time is eligible once reset, cooldown and 300 seconds after the last error have passed |
| AccountRecovery.LimitedForever | app/core/balancer/logic.py:146-159 | A limited account without a reset time is never eligible |
| AccountRecovery.RecoveredIsActive | app/core/balancer/logic.py:141-179 | An account the pass does not skip is ACTIVE and out of cooldown, with its id and tier unchanged |
| AccountRecovery.BackoffSeconds | app/core/balancer/logic.py:167 | The backoff lies between 30 and 300 seconds |
| AccountRecovery.AccountState.RecoverAt | app/core/balancer/logic.py:141-179 | The loop body on one account object refines the pass |
| AccountChoice.FirstLeastIsLeast | app/core/balancer/logic.py:236-247 | `min` by any of the keys returns a pool member with no smaller key |
| AccountChoice.EarliestBucketLeast | app/core/balancer/logic.py:86-88 | The earliest reset bucket is attained and a lower bound |
| AccountChoice.Remaining | app/core/balancer/logic.py:251-264 | Remaining credits are never negative, and zero for a non-positive capacity |
| AccountSelection.SelectedCanServe | app/core/balancer/logic.py:181-248 | A selected account is a given account after recovery, ACTIVE, out of cooldown and in the best health tier offered |
| AccountSelection.EffectivePoolMembers | app/core/balancer/logic.py:231-234 | The effective pool is exactly the available accounts of best tier |
| AccountSelection.SelectedIsUniqueMinimum | app/core/balancer/logic.py:222-248 | With an account available and distinct ids, a deterministic strategy returns the candidate strictly below all others |
| AccountPolicy.ChosenOnFields | app/core/balancer/logic.py:222-248 | Among the available accounts of the best tier, each strategy that does not draw takes one that no other precedes: round robin by last selection and id; by usage with secondary usage (else primary, else 0), primary usage, last selection and id; reset-first with the day of the reset before these; the probe with the most remaining credits before these, within the earliest reset day if preferred; the weighted one by usage when all are out of credits |
| AccountPolicy.KeysMean | app/core/balancer/logic.py:73-83 | Each sort key orders two accounts as its fields say |
| AccountPolicy.CreditsAreRemaining | app/core/balancer/logic.py:251-264 | Remaining credits are the capacity times the unused share, and none without capacity or beyond full use |
| AccountPolicy.DayOfReset | app/core/balancer/logic.py:80-83 | The reset bucket is the number of whole days until the reset, 0 when due and 10000 when unknown |
| AccountPolicy.DrawnByShare | app/core/balancer/logic.py:278-285 | The weighted choice takes a candidate for every draw in its own share of the unit interval, which is proportional to its remaining credits and follows the shares of those before it |
| AccountPolicy.EligibleOnFields | app/core/balancer/logic.py:141-179 | Which accounts may serve, on the fields before the pass, with zero times counting as absent |
| AccountPolicy.AvailableFields | app/core/balancer/logic.py:141-179 | Every field of an account that the pass makes available |
| AccountPolicy.BackoffTable | app/core/balancer/logic.py:167 | The backoff is 30 seconds at the third error, doubled with each further one, and at most 300 |
| AccountPolicy.FallbackOnFields | app/core/balancer/logic.py:192-198 | The fallback is a held-back account whose last error plus backoff is no later than any other's |
| AccountPolicy.RefusesExactly | app/core/balancer/logic.py:181-198 | Selection is refused if and only if no account may serve and the fallback is off, nobody is held back, or one is and no account is blocked |
| AccountPolicy.ReasonsExactly | app/core/balancer/logic.py:200-220 | Each reason is reported if and only if the statuses call for it, with the soonest quota reset or else cooldown as the wait |
| AccountSelection.OrderDoesNotMatter | app/core/balancer/logic.py:141-248 | Where no random draw decides, every arrangement of the accounts has the same outcome, selection or refusal, if and only if the fallback has no tie to break |
| AccountSelection.AvailableOrderDoesNotMatter | app/core/balancer/logic.py:231-248 | With an account available and distinct ids, every arrangement selects the same account, also for weighted routing when all credits are used up |
| AccountSelection.TieFollowsOrder | app/core/balancer/logic.py:192-198 | Whenever the earliest backoff end is shared by different accounts, some arrangement selects another of them |
| AccountSelection.UniqueEarliestIsSelected | app/core/balancer/logic.py:192-198 | A unique earliest backoff end makes every arrangement select its account |
| AccountSelection.RefusalReordered | app/core/balancer/logic.py:199-220 | A refusal and its reason do not depend on the arrangement |
| AccountSelection.SelectionAfterPass | app/core/balancer/logic.py:141-248 | A selection does not change the outcome of a later one; repeated at the same instant it repeats its outcome |
| AccountSelection.FallbackEndsFirst | app/core/balancer/logic.py:192-198 | The fallback returns the held-back account whose backoff ends first |
| AccountSelection.FailsExactly | app/core/balancer/logic.py:181-220 | Selection fails if and only if no account is eligible and the fallback does not apply |
| AccountSelection.QuotaWaitSuffices | app/core/balancer/logic.py:211-215 | After the reported wait the soonest quota reset is reached; counted from the whole second of the clock, no reset comes earlier |
| AccountSelection.SoonestIsLeast | app/core/balancer/logic.py:211-219 | The reported waiting time is that of the earliest reset or cooldown |
| AccountSelection.DrawHasCredits | app/core/balancer/logic.py:278-285 | A random draw lands only on an account with credits left, if there is one |
| AccountSelection.ExhaustedExactly | app/core/balancer/logic.py:280-284 | The weights sum to nothing if and only if no candidate has credits |
| AccountSelector.SelectAccount | app/core/balancer/logic.py:136-248 | Recovers every object in place and returns the outcome on the accounts as passed, also when an object is passed twice |
| AccountSelector.RecoverAll | app/core/balancer/logic.py:141-179 | The loop recovers each account and fills the two lists in input order |
| AccountSelector.EarlierResetObjects | app/core/balancer/logic.py:86-88 | Keeps exactly the accounts in the earliest reset bucket |
| AccountSelector.LeastObject | app/core/balancer/logic.py:236-247 | Finds the first account with a least key |
| AccountSelector.CapacityWeightedObject | app/core/balancer/logic.py:278-285 | The weighted choice for a given draw |
| AccountSelector.ExplainRefusal | app/core/balancer/logic.py:200-220 | The reason given when no account is selected |
| ModelRegistry.Registry.Update | app/core/openai/model_registry.py:96-145 | The new relation is the old one without the refreshed plans, united with the fetched one; both indexes are inverse, the models are those indexed, and each is the last fetched or the previous one; no results change nothing |
| ModelRegistry.RunOffersLatest | app/core/openai/model_registry.py:96-145 | After any run of updates a plan offers a model if and only if the latest refresh of that plan listed it |
| ModelRegistry.UpdateIsDetermined | app/core/openai/model_registry.py:96-145 | What an update promises determines both indexes and every model of the new snapshot |
| ModelRegistry.RunIsDetermined | app/core/openai/model_registry.py:96-145 | The batches alone determine every snapshot of a run, and in each the indexes are inverse and hold no empty entry |
| ModelRegistry.CarryOver | app/core/openai/model_registry.py:107-118 | Exactly the relation of the plans not refreshed is carried over |
| ModelRegistry.MergeAll | app/core/openai/model_registry.py:120-124 | The fetched relation is added, and the last fetched model of a slug wins |
| ModelRegistry.Reverse | app/core/openai/model_registry.py:130-138 | Builds the exact inverse of the model index |

## Left out

- JSON text: payloads are the fields extracted from them, and the encoded text of an event is a
  parameter. How tool-call fields, usage and errors are picked out of a payload is not modelled.
- The client that reassembles streamed chunks is a definition of this model: arguments are appended,
  an id, name or type that arrives later replaces the earlier one.
- SseFraming.IterSseEvents: does not model the idle timeout and cancellation, which end the loop
  without touching a frame, and yields the bytes of an event; what decoding puts in place of bytes
  that encode no text is not modelled.
- LeaderElection.Elector.TryAcquire: is the upsert and the read without interruption; what the read
  means when other statements ran in between is `ReadBackIsSound`.
- LeaderElection.Elector.Renew: does not model the return value, which is true even when no row
  matched, nor the paths without a database. Lease times are whole ticks and the duration is not
  negative.
- CacheInvalidation.PolledReplicaHoldsNothingOlder: assumes that the poller was initialised before
  the bump, since the first successful poll only records versions. Failing callbacks are not modelled.
- CacheInvalidation.InvalidationTable.Bump: models the single statement used on PostgreSQL and SQLite;
  the select followed by a write that is used on any other database is not modelled.
- CircuitBreaker.AtMostOneProbe: covers calls made through `call` and the request context, which
  always release their probe; the websocket path that holds a probe is not modelled.
- RefreshSingleflight.AtMostOneRefresh: does not cover refreshes started outside the single-flight
  object or after it was cleared.
- AccountSelector.SelectAccount: models `random.choices` for a given draw, without probabilities; the
  capacity of a plan is a field of the account in place of the plan table, and the formatting of
  the waiting time is left out.
- The handlers that put accounts into limits, the evaluation of health tiers and the failover
  decision: one-branch updates and tables.
- ModelRegistry.Registry.Update: leaves out the time of the fetch and the restoring of the previous
  snapshot on an exception, which none of the modelled steps raises.
- The branch for an invalid down-revision literal in the migration validator, which its own pattern
  cannot reach, and the rewriting of migration files.
- The alias normalisers, the stripping of unsupported fields and the validators of requests.
- HTTP, websockets, database sessions, logging, metrics, settings, pricing and plan tables, the SQL
  rate limiter, one-time passwords, encryption and the dashboard.

# anycode: a verified model

anycode wraps a coding assistant in a terminal and routes its API traffic between backends. This
project models the five stateful parts of it that carry the hard logic, and proves what they promise:

* **Terminal input** (`crates/term_input`): the byte-driven parser for keys, mouse reports, bracketed
  paste and UTF-8. `ParserSpec` gives one byte its meaning as a transition function; `TermInput` is the
  object that updates `state`, `buf` and `out`. UTF-8 follows sections 3 and 4 of RFC 3629.
* **Thinking blocks** (`src/proxy/thinking`, `src/proxy/pipeline/transform.rs`): the cache that decides
  which signed blocks may be replayed to which backend, the request transformation around it, and the
  protocol of overlapping requests and backend switches.
* **PTY lifecycle** (`src/ui/pty`, `src/ui/app.rs`, `src/ui/runtime.rs`, `src/pty/handle.rs`): input
  buffering while the child starts, and the restart protocol with generations and one retry.
* **Arguments** (`src/args`): classification, session resolution and assembly of the child's command line.
* **Shutdown** (`src/shutdown.rs`): subscribe-then-check waiting against concurrent signals.

Code that works in place is a class or a method with loops, proved against a specification function on
values; the promises are then lemmas about those functions, over every input, every run or every
interleaving. A run is any sequence of actions; an action that is not enabled does nothing.

| file | contents |
|---|---|
| `Common`, `InputEvents`, `Utf8` | bytes, sequences, events, scalar encoding and decoding |
| `ParserSpec`, `InputParser` | the parser's transition function and the parser object |
| `ParserSegmentation`, `ParserReplay` | lossless cutting, chunking, and the state rebuilt from pending bytes |
| `NumericFields`, `NamedKeys`, `TypedText`, `PastedText`, `MouseReports` | round trips with independent printers |
| `UnknownKeys` | the converse: which bytes name no key |
| `Json`, `Fingerprint`, `RegistrySpec`, `ThinkingRegistry`, `SseSpec` | JSON values, block hashes, the registry and its two registration paths |
| `SseWire`, `Conversations` | streams and conversations printed as JSON, and what becomes of them |
| `FilterProperties`, `ThinkingProtocol`, `ThinkingSessions` | what filtering means, all interleavings, and the objects whose methods are the actions |
| `RequestTransform` | the request body, member by member and as a conversation |
| `PtySpec`, `PtyObjects`, `InputConservation`, `RestartProtocol`, `Forwarding` | lifecycle, objects, whole runs, and what the child reads |
| `ArgSpec`, `SessionSpec`, `RawTokens`, `ArgObjects` | the command line, and the same read off its raw tokens |
| `Shutdown` | waiters and signallers |

Bytes are integers below 256 and bit masks are written as quotients and remainders. Times are natural
numbers. The standard hasher is a function parameter applied to the fingerprint (prefix, suffix, length).
Serialisation of a JSON value is taken to succeed.

## Where the code and its documentation part

The model follows the code. Each point is a lemma.

* `on_pty_output` is documented to return true when the lifecycle just became Ready
  (`src/ui/app.rs:237`). With a child that shows a hidden cursor below the first row it also returns true
  in Pending and in Restarting, where nothing changes: `ReadyReportIsRightIffAttached`, with the run
  `WrongReadyReport`; `NothingDeliveredUntilRestarted` says how long that lasts.
* A failed `--resume` after a restart is meant to be retried with `--session-id`
  (`src/ui/runtime.rs:390-392`, `src/ui/runtime.rs:691-694`). Every handled exit clears the retry flag,
  also a stale one, and respawning makes the old instance exit: `RetriedIffUndisturbed` says exactly when
  the retry happens, `StaleExitDefeatsRetry` that the usual course only reports the failure, and
  `BothCoursesHappen` runs both courses from the start.
* An early exit that is not retried dispatches `SpawnFailed`, the intent for a failed spawn after a detach
  (`src/ui/pty/intent.rs:23-24`). The lifecycle is never Restarting there, so the dispatch has no effect and an
  attached lifecycle stays attached to the dead child: `ExitOutcome`.
* A streamed thinking block that is started again before it stops, or whose text stays empty, is not
  registered, while the same block in a non-streamed response is. `StreamingEqualsAssembled` and
  `StreamingEqualsResponse` say exactly when the two ways agree; `EmptyBlockDiffers` is a stream on
  which they do not.
* Thinking blocks of another backend are to be removed on a switch (the repository's `README.md:224`), and
  a session is bound to the backend its request goes to (`src/proxy/pipeline/thinking.rs:17-20`). Filtering
  does not look at that session: `OwnBlocksRemainIffStillCurrent` says that what is left belongs to the
  request's own backend exactly while that backend is still the current one, and `ForeignBlockRemains` is a
  run of two overlapping requests in which it does not.
* The byte filter in front of the child also drops the four hotkey bytes inside pastes and mouse reports.
  `ForwardedPaste`, `ForwardedPasteVerbatim` and `ForwardedMouse` say exactly what then arrives.
* A printed paste reads back as that paste exactly when the text has no end marker (`PasteRoundTrip`),
  and an X10 report exactly when both coordinates are below 256 (`X10RoundTrip`).
* The fingerprint is described as prefix and length (`src/proxy/thinking/registry.rs:41`); the code also
  hashes a suffix. It identifies every text of up to 509 bytes and no more in general
  (`ShortTextsAreIdentified`, `LongerTextsCanCollide`), and a given text exactly when its two windows leave
  no gap (`SharedIffGap`).

## Model

| member | source | states |
|---|---|---|
| `Utf8.DecodeInvertsEncode` | crates/term_input/src/parser.rs:149-157 | a complete lead-and-continuations sequence decodes to a scalar exactly when it is that scalar's encoding; overlong forms and surrogates decode to nothing |
| `TermInput.InputParser.constructor` | crates/term_input/src/parser.rs:32-38 | a new parser is at rest with nothing pending |
| `TermInput.InputParser.Feed` | crates/term_input/src/parser.rs:41-46 | feeding bytes returns exactly the events of the specified run and leaves its state, with the queue drained |
| `TermInput.InputParser.Flush` | crates/term_input/src/parser.rs:49-73 | the timeout turns what is pending into one key, except inside a paste |
| `TermInput.InputParser.NeedsTimeout` | crates/term_input/src/parser.rs:75-79 | pending is reported exactly in the states where the timeout would emit an event, and then exactly one |
| `TermInput.InputParser.StepByte` | crates/term_input/src/parser.rs:86-98 | one byte moves state, buffer and queue as specified and keeps the buffer in the shape of the state |
| `TermInput.InputParser.OnGround` | crates/term_input/src/parser.rs:100-132 | a byte at rest: control keys, printable characters, UTF-8 leads, escape |
| `TermInput.InputParser.OnUtf8` | crates/term_input/src/parser.rs:134-160 | continuation bytes, the decoded character, and reprocessing of a byte that is no continuation |
| `TermInput.InputParser.OnEsc` | crates/term_input/src/parser.rs:162-209 | the byte after escape: introducers, double escape, Alt keys |
| `TermInput.InputParser.OnCsiEntry` | crates/term_input/src/parser.rs:211-247 | the byte after ESC [ |
| `TermInput.InputParser.OnCsiParam` | crates/term_input/src/parser.rs:249-284 | parameter and final bytes, and the switch to paste mode |
| `TermInput.InputParser.OnMouseX10` | crates/term_input/src/parser.rs:306-324 | the three payload bytes of an X10 report |
| `TermInput.InputParser.OnSgrMouse` | crates/term_input/src/parser.rs:326-350 | collecting and completing an SGR report |
| `TermInput.InputParser.OnPaste` | crates/term_input/src/parser.rs:352-365 | paste bytes up to the end marker |
| `TermInput.InputParser.IsInPaste` | crates/term_input/src/parser.rs:81-84 | inside a paste the timeout changes nothing, and a parser neither pending nor in a paste is fresh |
| `ParserSpec.StepKeepsWellFormed` | crates/term_input/src/parser.rs:86-365 | every byte keeps the per-state shape of the pending buffer, such as the X10 count, the continuations still missing, and no end marker inside a paste |
| `ParserSegmentation.LosslessSegmentation` | crates/term_input/src/parser.rs:41-73 | for any history of feeds and timeouts the bytes fed are one non-empty segment per event, in order, then the pending bytes; each segment replays its event, each key's raw bytes are its segment, each paste's segment is introducer, body and end marker |
| `ParserSegmentation.NoMoreEventsThanBytes` | crates/term_input/src/parser.rs:41-73 | never more events than bytes |
| `ParserSegmentation.KeysReplay` | crates/term_input/src/parser.rs:367-369 | every key of every history is reproduced, alone, by feeding its raw bytes to a fresh parser and timing it out |
| `ParserSegmentation.InterruptIsTimeoutThenByte` | crates/term_input/src/parser.rs:135-142 | an aborted UTF-8 sequence and a double escape behave as a timeout followed by the byte |
| `ParserSegmentation.ChunkingIsInvisible` | crates/term_input/src/parser.rs:40-46 | how bytes are cut into feeds changes neither events nor final state |
| `ParserReplay.PendingDeterminesState` | crates/term_input/src/parser.rs:41-365 | a fresh parser fed the pending bytes, behind a start marker when inside a paste, reaches the same state and buffer with no event |
| `ParserReplay.ReachableIffWellFormed` | crates/term_input/src/parser.rs:41-365 | the reachable parser states are exactly those whose buffer has the shape of their state |
| `ParserReplay.ReplayIsInjective` | crates/term_input/src/parser.rs:41-365 | the pending bytes tell reachable parsers apart |
| `UnknownKeys.UnknownAtRest` | crates/term_input/src/parser.rs:100-132 | a byte at rest is Unknown exactly for 0x00, 0x1c to 0x1f, 0x80 to 0xbf and 0xf8 to 0xff, and silent exactly for escape and the UTF-8 leads |
| `UnknownKeys.UnknownAfterEscape` | crates/term_input/src/parser.rs:162-209 | behind an escape byte it is Unknown exactly for those control codes and from 0x80 on |
| `UnknownKeys.AfterIntroducer` | crates/term_input/src/parser.rs:211-247 | ESC [ and one byte that does not go on is the key printed with that final byte, and Unknown exactly when no key is |
| `UnknownKeys.AfterFieldsFinal` | crates/term_input/src/parser.rs:268-276 | with fields and a final letter likewise, under Alt exactly when bit 1 of the second field minus one says so, for fields of any length |
| `UnknownKeys.AfterFieldsTilde` | crates/term_input/src/parser.rs:254-267 | with fields and a tilde: a paste exactly at 200, else the key printed with that number, and Unknown exactly when no key is |
| `UnknownKeys.AfterFieldsOther` | crates/term_input/src/parser.rs:277-282 | any other byte behind fields ends the sequence as Unknown |
| `UnknownKeys.AfterSs3` | crates/term_input/src/parser.rs:286-304 | ESC O and one byte: the printed keys and F1 to F4, and Unknown for every other byte |
| `UnknownKeys.AbortedSgrReport` | crates/term_input/src/parser.rs:344-348 | a byte that is neither parameter nor final ends an SGR report as Unknown |
| `UnknownKeys.TimeoutKey` | crates/term_input/src/parser.rs:49-73 | in every reachable state the timeout emits Escape for a lone escape byte, Unknown with the pending bytes for anything else, and nothing at rest or inside a paste |
| `NumericFields.SaturatingFoldIsMin` | crates/term_input/src/parser.rs:391-399 | the saturating digit fold is the decimal value capped at 65535, for any number of digits |
| `NumericFields.SplitUndoesJoin` | crates/term_input/src/parser.rs:388-400 | cutting parameters at semicolons undoes joining them |
| `NumericFields.TildeSequence` | crates/term_input/src/parser.rs:254-267 | a tilde sequence opens a paste exactly when its first field is worth 200, for fields of any length |
| `NumericFields.FinalByteSequence` | crates/term_input/src/parser.rs:268-276 | any other final byte names one key from the capped decimal fields |
| `NamedKeys.CursorKeyRoundTrip` | crates/term_input/src/parser.rs:403-422 | arrows, Home and End with any xterm modifier read back, under Alt exactly for the modifiers with Alt |
| `NamedKeys.PlainCursorKeyRoundTrip` | crates/term_input/src/parser.rs:286-304 | the same keys after ESC [ and after ESC O |
| `NamedKeys.NumberedKeyRoundTrip` | crates/term_input/src/parser.rs:425-465 | Insert, Delete, page keys and F5 to F12, with and without modifier |
| `NamedKeys.FunctionKeyRoundTrip` | crates/term_input/src/parser.rs:296-299 | F1 to F4 |
| `NamedKeys.ControlKeyRoundTrip` | crates/term_input/src/parser.rs:107-114 | control letters, Tab and Enter, and their Alt forms |
| `NamedKeys.EditingKeys` | crates/term_input/src/parser.rs:179-185 | Backspace, Alt+Backspace, and Escape by timeout |
| `NamedKeys.AltCharacterRoundTrip` | crates/term_input/src/parser.rs:194-200 | Alt with a printable character reads back exactly when the character opens no longer sequence |
| `TypedText.SequenceIsItsCharacter` | crates/term_input/src/parser.rs:134-160 | a complete sequence is one key: the character it encodes, or Unknown when it encodes none |
| `TypedText.CharacterRoundTrip` | crates/term_input/src/parser.rs:115-160 | an encoded scalar reads back as itself exactly for 0x20 to 0x7e and from 0x80 on |
| `TypedText.TextRoundTrip` | crates/term_input/src/parser.rs:115-160 | encoded text yields one character event per scalar, in order, with its own encoding as raw bytes, and leaves nothing pending |
| `PastedText.NoEarlyMarker` | crates/term_input/src/parser.rs:352-365 | the end marker cannot match early across the seam of text and marker |
| `PastedText.PasteRoundTrip` | src/ui/app.rs:216-219 | what on_paste prints reads back as the one paste of that text exactly when the text has no end marker |
| `PastedText.TruncatedPaste` | crates/term_input/src/parser.rs:355-361 | with an end marker inside, the first event is the text up to its first marker |
| `PastedText.PasteUnderAnyChunking` | crates/term_input/src/parser.rs:67-70 | the round trip holds for any cutting into feeds and any timeouts inside the paste |
| `MouseReports.X10RoundTripModulo` | crates/term_input/src/event.rs:90-121 | parsing to_x10_bytes gives the event with both coordinates modulo 256 |
| `MouseReports.X10RoundTrip` | crates/term_input/src/parser.rs:467-502 | the round trip is exact precisely below 256 |
| `MouseReports.X10ModifiersAreIgnored` | crates/term_input/src/parser.rs:467-502 | adding any of the modifier bits 4, 8, 16 or the highest bit to a printed code leaves the event unchanged |
| `MouseReports.X10Wheel` | crates/term_input/src/parser.rs:472-477 | with the wheel bit the two lowest bits alone decide between up and down |
| `MouseReports.SgrReport` | crates/term_input/src/parser.rs:505-570 | any complete SGR report: Unknown below three fields, else the event of the first three capped decimal fields, one-based and floored at zero |
| `MouseReports.SgrRoundTrip` | crates/term_input/src/parser.rs:505-570 | every event printed in SGR form reads back exactly below the largest u16 |
| `MouseReports.SgrModifiersAreIgnored` | crates/term_input/src/parser.rs:531-570 | the same for SGR codes, with any bits above 64 |
| `MouseReports.SgrOtherCodes` | crates/term_input/src/parser.rs:535-570 | the codes a printer does not use: wheel codes pressed or released, any released code, and code 3 pressed |
| `Fingerprints.SafeTruncate` | src/proxy/thinking/registry.rs:584-593 | the longest boundary-aligned prefix within the limit |
| `Fingerprints.SafeSuffix` | src/proxy/thinking/registry.rs:596-607 | the longest boundary-aligned suffix within the limit |
| `Fingerprints.CutsAreNearlyFull` | src/proxy/thinking/registry.rs:566-607 | on longer text each cut keeps at least 253 bytes |
| `Fingerprints.ShortTextsAreIdentified` | src/proxy/thinking/registry.rs:557-581 | texts of up to 509 bytes with equal fingerprints are equal |
| `Fingerprints.ShortTextsHaveTheirOwnHash` | src/proxy/thinking/registry.rs:557-581 | with a hasher free of collisions the hash of such a text is that of no other text |
| `Fingerprints.SharedIffGap` | src/proxy/thinking/registry.rs:565-607 | a text shares its fingerprint with another one exactly when it is longer than a window and its prefix cut lies before its suffix cut |
| `Fingerprints.AsciiIsIdentified` | src/proxy/thinking/registry.rs:565-607 | an ASCII text is identified exactly up to 512 bytes |
| `Fingerprints.LongerTextsCanCollide` | src/proxy/thinking/registry.rs:565-581 | at 510 bytes different texts can share a fingerprint |
| `ThinkingRegistryObject.ThinkingRegistry.OnBackendSwitch` | src/proxy/thinking/registry.rs:89-101 | the session number moves exactly when the backend name changes |
| `ThinkingRegistryObject.ThinkingRegistry.RegisterBlock` | src/proxy/thinking/registry.rs:207-234 | an entry of the same session stays, any other is replaced by an unconfirmed one |
| `ThinkingRegistryObject.ThinkingRegistry.RegisterFromResponse` | src/proxy/thinking/registry.rs:108-120 | registers exactly the hashes of the extractable blocks; no JSON or no content array registers nothing |
| `ThinkingRegistryObject.ThinkingRegistry.RegisterFromSseStream` | src/proxy/thinking/registry.rs:136-204 | registers exactly the redacted blocks and the undiscarded non-empty thinking texts of any stream, whatever the order leftovers are visited in; for a stream printed from blocks, exactly the texts of its blocks |
| `SseWire.CarriedBlocksAreStreamed` | src/proxy/thinking/registry.rs:122-204 | on every stream whose events are, index by index, those of blocks printed as JSON, in any interleaving, cut and truncation and with other events anywhere between, the streamed hashes are those of the non-empty texts and the redacted data |
| `SseWire.HashesByIndex` | src/proxy/thinking/registry.rs:136-193 | a hash is streamed exactly when the events of one index alone stream it |
| `SseWire.ClosedBlockIsComplete` | src/proxy/thinking/registry.rs:178-190 | whatever follows a closed block, also under its index, its text is registered as it was at the stop |
| `SseWire.RestartDiscards` | src/proxy/thinking/registry.rs:147-154 | a block that is started again before it stops registers nothing |
| `SseWire.PrintedCarries` | src/proxy/thinking/registry.rs:127-135 | a response printed block after block is such a stream |
| `SseWire.OtherDeltasAreQuiet` | src/proxy/thinking/registry.rs:163-176 | text, tool-input and signature deltas are among the events that may stand between |
| `SseSpec.AssembledIsStreamedAndMissed` | src/proxy/thinking/registry.rs:122-204 | on every stream, in any interleaving and truncated anywhere, the hashes of the content array a client assembles are the streamed ones together with those of the texts discarded by a restart or left empty |
| `SseSpec.StreamingEqualsAssembled` | src/proxy/thinking/registry.rs:122-204 | the two sets are equal exactly when every missed hash is streamed too; without a restart, exactly when no text is empty or the empty text is streamed too |
| `ThinkingRegistryObject.StreamingEqualsResponse` | src/proxy/thinking/registry.rs:108-234 | streaming registration equals registration of the assembled response exactly when every missed hash is streamed too or already cached under the session; without a restart only the empty text can be missed |
| `SseSpec.EmptyBlockDiffers` | src/proxy/thinking/registry.rs:181-188 | an empty streamed block is not registered although the assembled array holds it |
| `SseSpec.EmptyBlockBesideEmptyRedacted` | src/proxy/thinking/registry.rs:155-188 | with a redacted block without data beside it the two agree |
| `ThinkingRegistryObject.ThinkingRegistry.ExtractRequestHashes` | src/proxy/thinking/registry.rs:292-312 | exactly the hashes of the extractable blocks of the body |
| `ThinkingRegistryObject.ThinkingRegistry.ConfirmBlocks` | src/proxy/thinking/registry.rs:316-333 | in any visiting order, confirms exactly the current-session entries among the hashes, and returns how many were not confirmed before |
| `ThinkingRegistryObject.ThinkingRegistry.CleanupOldSessions` | src/proxy/thinking/registry.rs:337-351 | in any visiting order, leaves exactly the current-session entries, unchanged |
| `ThinkingRegistryObject.ThinkingRegistry.CleanupCache` | src/proxy/thinking/registry.rs:354-408 | in any visiting order, what is left is unchanged and of the current session; of the current entries a request without blocks evicts none, any other leaves exactly those it carries and the unconfirmed ones within the grace period |
| `ThinkingRegistryObject.RetainBlocks` | src/proxy/thinking/registry.rs:411-459 | keeps order and all other content, and the count is the number of items removed |
| `ThinkingRegistryObject.ThinkingRegistry.FilterRequest` | src/proxy/thinking/registry.rs:236-289 | the three phases mean one pass over the state before the call: an item survives iff it is no thinking block or its text was cached under the current session |
| `ThinkingRegistryObject.RefinesOnePass` | src/proxy/thinking/registry.rs:244-289 | no cleanup rule evicts a current block the request carries |
| `Conversations.FilteredConversation` | src/proxy/thinking/registry.rs:411-459 | filtering a conversation printed as a body is printing the conversation without the blocks whose text is not cached under the current session |
| `Conversations.CacheAfterConversation` | src/proxy/thinking/registry.rs:244-408 | which entries a filtered conversation leaves: those of the current session, unless it has an assistant message and blocks, none with the hash of the entry, and the entry is confirmed or older than the threshold |
| `Conversations.ResponseItemHashes` | src/proxy/thinking/registry.rs:108-120 | a printed response carries exactly the hashes of its blocks |
| `FilterProperties.OnlyCurrentBlocksRemain` | src/proxy/thinking/registry.rs:425-453 | every thinking block left was cached under the current session |
| `FilterProperties.HashesOfKeptBody` | src/proxy/thinking/registry.rs:411-459 | a filtered body carries exactly the hashes that may stay |
| `FilterProperties.FilteringIsIdempotent` | src/proxy/thinking/registry.rs:244-289 | filtering a filtered body again removes nothing, and at the same clock value leaves the cache as it is |
| `ThinkingProtocol.RunsKeepInv` | src/proxy/thinking/mod.rs:50-72 | in every interleaving sessions are numbered without gaps and owned by one backend, handles carry their backend's session, and every cached block was registered through a handle of its session |
| `ThinkingProtocol.RunsGrow` | src/proxy/thinking/mod.rs:65-72 | from any reachable point on handles, registrations and the owners of sessions are never lost or changed |
| `ThinkingProtocol.SessionsNeverDecrease` | src/proxy/thinking/registry.rs:89-94 | between two points of a run the session number never decreases, and a different backend means a larger one |
| `ThinkingProtocol.OneBackendPerSession` | src/proxy/thinking/mod.rs:40-63 | requests with one session number agree on the backend |
| `ThinkingProtocol.OnlyCurrentBackendBlocksRemain` | src/proxy/thinking/mod.rs:118-139 | after any run a filtered body holds only blocks registered since the last switch by responses of requests begun on the registry's current backend, and the cache holds only current entries |
| `ThinkingProtocol.OwnBlocksRemainIffStillCurrent` | src/proxy/pipeline/thinking.rs:11-43 | a block left in the body of a request comes from that request's backend exactly when the backend is still the registry's current one, as it is while the request's session is current |
| `ThinkingProtocol.ForeignBlockRemains` | src/proxy/thinking/mod.rs:118-139 | a run of two overlapping requests after which the one to A keeps a block only B has produced |
| `ThinkingProtocol.SwitchingBackRevivesNothing` | src/proxy/thinking/registry.rs:86-101 | switching from a backend to another and back never revives blocks of requests begun before |
| `ThinkingProtocol.RegistrationEffect` | src/proxy/thinking/registry.rs:211-228 | a registration through a current handle adds its hashes to the usable ones, one through a stale handle takes them away |
| `ThinkingSessions.TransformerRegistry.BeginRequest` | src/proxy/thinking/mod.rs:40-63 | beginning a request is the protocol's action of that name, and the session returned is its handle |
| `ThinkingSessions.TransformerRegistry.NotifyBackendSwitch` | src/proxy/thinking/mod.rs:65-72 | a notified switch is the protocol's action |
| `ThinkingSessions.ThinkingSession.Filter` | src/proxy/thinking/mod.rs:118-139 | filtering through a session is the protocol's action on its handle |
| `ThinkingSessions.ThinkingSession.RegisterFromSse` | src/proxy/thinking/mod.rs:141-172 | so is registering a stream |
| `ThinkingSessions.ThinkingSession.RegisterFromResponse` | src/proxy/thinking/mod.rs:174-194 | and registering a response; no body or no JSON registers nothing |
| `RequestTransform.HasRemainingThinkingBlocks` | src/proxy/pipeline/transform.rs:238-254 | true exactly when some content item is a thinking block |
| `RequestTransform.StripAllThinkingBlocks` | src/proxy/pipeline/transform.rs:213-232 | removes every thinking block and nothing else, and counts them |
| `RequestTransform.ConvertAdaptiveThinking` | src/proxy/pipeline/transform.rs:277-303 | no adaptive field is left, and the result tells converted, other and absent apart |
| `RequestTransform.FilterAndRepair` | src/proxy/pipeline/transform.rs:98-143 | the body after filtering and repair, characterised by which blocks were replayable |
| `RequestTransform.CapEffort` | src/proxy/pipeline/transform.rs:149-168 | only the effort changes, and only when the backend caps it |
| `RequestTransform.TransformBody` | src/proxy/pipeline/transform.rs:21-203 | whichever bytes are sent stand for the transformed body, stated member by member: the resolved model, the thinking field enabled with its budget or removed, the effort capped for the received model, every other member as received; the mapping names both models and the activity flag is the presence of the thinking field |
| `RequestTransform.AllOrNothing` | src/proxy/pipeline/transform.rs:102-147 | with history, the messages go out untouched exactly when there are thinking blocks and all are replayable; otherwise no thinking block and no thinking field goes out |
| `RequestTransform.SentConversation` | src/proxy/pipeline/transform.rs:98-143 | the messages a filtered conversation sends: what may stay without history; with history everything when there are blocks and all may stay, and else everything but the blocks |
| `RequestTransform.FirstTurnKeepsThinkingField` | src/proxy/pipeline/transform.rs:114-119 | a request without history keeps its thinking field |
| `RequestTransform.FilteringRemovedNothing` | src/proxy/thinking/registry.rs:411-459 | the removed count is zero exactly when the body is unchanged, that is, when every block was replayable |
| `PtyObjects.PtyStore.HandleIntent` | src/ui/pty/actor.rs:23-82 | the lifecycle transition and its flush effect |
| `PtyObjects.PtyStore.Dispatch` | crates/mvi/src/lib.rs:138-143 | the intent is handled and the effects go to the callback, which ignores them |
| `PtyObjects.PtyStore.DispatchCollect` | crates/mvi/src/lib.rs:149-152 | the intent is handled and its effects are returned |
| `PtyObjects.PtyHandle.SendInput` | src/pty/handle.rs:32-50 | an open writer receives exactly the bytes that are no hotkeys, a closed one nothing |
| `PtyObjects.App.SendInput` | src/ui/app.rs:204-214 | direct delivery when ready, buffering otherwise |
| `PtyObjects.App.AttachPty` | src/ui/app.rs:230-233 | the handle is stored and the lifecycle moves on |
| `PtyObjects.App.DetachPty` | src/ui/app.rs:598-601 | the handle is dropped and the lifecycle restarts |
| `PtyObjects.App.OnPtyOutput` | src/ui/app.rs:246-279 | the buffer is delivered in order when an attached child shows its first frame |
| `PtyObjects.App.RequestRestart` | src/ui/app.rs:420-425 | detach at once, undone to Pending when the command cannot be sent |
| `PtyObjects.EventLoop.RespawnPty` | src/ui/runtime.rs:858-902 | a new generation, a closed old writer, and a fresh attached child or a Pending lifecycle |
| `PtyObjects.EventLoop.OnPtyOutputEvent` | src/ui/runtime.rs:552-557 | a readiness report clears the retry flag |
| `PtyObjects.EventLoop.OnProcessExit` | src/ui/runtime.rs:587-642 | the reaction to an exit by tag, lifecycle, generation and retry flag; it quits exactly on the exit of the newest instance, not restarting, that is ready or the first |
| `PtyObjects.EventLoop.OnRestart` | src/ui/runtime.rs:643-721 | a restart leaves a retry possible exactly when the new child is attached |
| `PtyObjects.EventLoop.OnShutdown` | src/ui/runtime.rs:583-586 | a shutdown event requests the quit |
| `PtySpec.DeliveredInOrder` | src/ui/app.rs:267-277 | flushing chunk by chunk delivers the filtered concatenation |
| `PtySpec.HotkeysAreDropped` | src/pty/hotkey.rs:1-3 | the byte filter drops exactly 0x02, 0x05, 0x11 and 0x13 |
| `InputConservation.InputIsConserved` | src/ui/app.rs:204-279 | in every run, what was written since the last Detach followed by the filtered buffer is the filtered input accepted since then; Attached and Ready have a child with an open writer |
| `InputConservation.ReadyHasEverything` | src/ui/app.rs:265-277 | at Ready the child has received all accepted input |
| `InputConservation.WrittenIsWhatTheChildHolds` | src/ui/runtime.rs:865-890 | after a restart what was written is what the new child holds |
| `InputConservation.ReadyReportIsRightIffAttached` | src/ui/app.rs:235-279 | the readiness report is right exactly when the lifecycle was Attached |
| `InputConservation.WrongReadyReport` | src/ui/app.rs:237-247 | a run in which the report is wrong |
| `InputConservation.NothingDeliveredUntilRestarted` | src/ui/app.rs:420-425 | from a restart request on, until an instance is attached, any run stays out of Attached and Ready, delivers nothing to the old child and makes every readiness report wrong; if the request was not sent, the input typed meanwhile is all buffered |
| `InputConservation.LifecycleByHistory` | src/ui/pty/actor.rs:23-82 | in every run the lifecycle is Ready exactly when the child attached last has shown a hidden cursor below the first row, Attached exactly when it has not, Restarting exactly while a sent restart request waits |
| `Forwarding.ForwardedPaste` | src/pty/handle.rs:32-50 | a forwarded paste arrives as one paste of the filtered text exactly when filtering leaves no end marker in it |
| `Forwarding.ForwardedPasteVerbatim` | src/ui/app.rs:216-219 | it arrives verbatim exactly when the text has neither end marker nor hotkey byte |
| `Forwarding.ForwardedMouse` | src/ui/runtime.rs:462-464 | a forwarded mouse report arrives as the same event exactly when both coordinates are below 256 and no coordinate byte is a hotkey |
| `RestartProtocol.RunsKeepInv` | src/ui/runtime.rs:587-721 | over every run of users, bridge, readers and loop: generation, retry budget and instance ends stay consistent |
| `RestartProtocol.RestartsAreBounded` | src/ui/app.rs:553-557 | retries never exceed handled restarts, these never exceed requested ones, the generation is at most twice the handled restarts, queued exit tags are at most the generation |
| `RestartProtocol.ExitsActOnce` | src/ui/runtime.rs:592-641 | each instance's exit is handled at most once, and only the newest instance's exit can quit, retry or report |
| `RestartProtocol.CanRetryIffFreshlyRestarted` | src/ui/runtime.rs:552-721 | in every run the retry flag is set exactly when some handled restart spawned and no action after it handled an exit, another restart or a readiness report |
| `RestartProtocol.RetriedIffUndisturbed` | src/ui/runtime.rs:588-627 | in every run an exit is retried exactly when it is the newest instance's, no restart is pending, and that history holds; an early exit without it is only reported |
| `RestartProtocol.ExitOutcome` | src/ui/runtime.rs:587-642 | what a handled exit does in every run, by its history: nothing, a quit, a respawn with the next generation, or a report that leaves the application as it is |
| `RestartProtocol.QuitIffHandled` | src/ui/runtime.rs:583-641 | the application quits in a run exactly when it handled a shutdown, or the exit of the newest instance while that was ready or the first and no restart was pending |
| `RestartProtocol.StaleExitDefeatsRetry` | src/ui/runtime.rs:588-593 | after any run that leaves a restart to be handled, the old instance's exit handled after it turns the retry into a report |
| `RestartProtocol.PromptExitIsRetried` | src/ui/runtime.rs:598-619 | after any such run, without a stale exit in between the early exit is retried |
| `RestartProtocol.BothCoursesHappen` | src/ui/runtime.rs:587-721 | both courses as runs from the start |
| `ArgObjects.Classify` | src/args/classifier.rs:39-117 | the look-ahead loop yields the specified classification and warnings |
| `ArgSpec.EveryTokenIsAccountedFor` | src/args/classifier.rs:39-117 | flattening the classified list gives the raw list with short flags in long form |
| `ArgSpec.ReclassificationIsStable` | src/args/classifier.rs:44-114 | classifying the flattened list gives the same arguments and warnings |
| `ArgSpec.StandardRegistryIsUnambiguous` | src/args/registry.rs:42-139 | no token is a long or short spelling of two definitions of the registry |
| `ArgSpec.SpellingResolves` | src/args/registry.rs:135-138 | in such a registry every spelling finds its definition, whatever the order of the entries |
| `RawTokens.FoundDefinition` | src/args/registry.rs:42-139 | each of the twenty spellings finds a definition of its long form, arity and behaviour, and no other token finds any |
| `RawTokens.PassedIsForwarded` | src/args/classifier.rs:39-117 | what is passed through is every token but the flags of the wrapper and the values behind them, in order, short flags in long form |
| `RawTokens.WarningsAreNotes` | src/args/classifier.rs:39-117 | the warnings, token by token: unknown flags, and flags that lack their required value |
| `RawTokens.ResolvedAsAsked` | src/args/session.rs:30-96 | identifier, mode and warnings of the session, from the raw tokens |
| `ArgObjects.ResolveSession` | src/args/session.rs:30-96 | the fold yields the last valued session flag, else the last session on disk, else a new one, with its warnings |
| `SessionSpec.ChoiceIsLastOnCommandLine` | src/args/session.rs:36-68 | the choice is the token after the last session flag of the raw command line that has a value |
| `ArgObjects.ArgAssembler.FromPassthrough` | src/args/assembler.rs:20-39 | the tokens of exactly the passed-through arguments, in order |
| `ArgObjects.ArgAssembler.StripClaudeOnlyFlags` | src/args/assembler.rs:57-68 | the drain loop removes each session-id flag with the token after it |
| `SessionSpec.StrippedHasNone` | src/args/assembler.rs:57-68 | nothing of that flag is left |
| `SessionSpec.StrippedPair` | src/args/assembler.rs:57-68 | stripping drops a flag with the one token after it and nothing before it |
| `ArgObjects.StrippingIsRedundant` | src/args/assembler.rs:48-55 | a pass-through list never holds the flag, so stripping changes nothing |
| `ArgObjects.ArgAssembler.WithSession` | src/args/assembler.rs:71-93 | the session tokens of the mode, for Claude and for Copilot |
| `ArgObjects.BuildSpawnParams` | src/args/pipeline.rs:44-115 | the whole argument list from the raw tokens: what is forwarded, the session flag with the identifier given last, or the one on disk when continuing, or a new one, then the settings; for Claude and for Copilot; and all warnings |
| `ArgObjects.ClaudeCommandLine` | src/args/pipeline.rs:93-102 | exactly one session flag stands in the Claude list, followed by the resolved identifier |
| `ArgObjects.LastGivenSessionWins` | src/args/pipeline.rs:61-68 | the identifier is the last one given on the command line, when there is one, and the mode follows its flag |
| `ArgObjects.CopilotCommandLine` | src/args/assembler.rs:71-81 | no token of the Copilot list is `--session-id`; the list is what was passed through, the resume form exactly when resuming, and the settings flags |
| `ArgObjects.JoinedSessionFlagIsPassedThrough` | src/args/classifier.rs:84-114 | `--session-id=x` matches no definition: it is passed through unchanged and chooses no session |
| `Shutdown.NoLostWakeup` | src/shutdown.rs:93-110 | in every interleaving, once the winner has run notify_waiters no waiter is parked without its wake-up |
| `Shutdown.ScheduledWaitersReturn` | src/shutdown.rs:99-110 | from the announcement on a waiter that is scheduled twice has returned, whatever the others do |
| `Shutdown.NoSpuriousReturn` | src/shutdown.rs:106-109 | a waiter returns only after the flag was raised |
| `Shutdown.OneAnnouncer` | src/shutdown.rs:35-40 | between raising the flag and the announcement exactly one signaller is about to announce |
| `Shutdown.ScheduledSignallersAnnounce` | src/shutdown.rs:93-98 | a signaller that is scheduled twice is done and has raised the flag, and once no signaller is about to announce, the shutdown is announced |

## Left out

- Reading the terminal, spawning and signalling the child, the screen emulator, the clipboard and rendering: input and output; the cursor position seen at an output event is a parameter.
- `TermInput.InputParser.OnPaste`: a paste carries its bytes; the string the source makes of them, with invalid UTF-8 replaced, is not modelled.
- `MouseReports.X10RoundTripModulo`: the sum of coordinate and offset wraps in 16 bits; a build with overflow checks stops for coordinates above 65502 instead.
- Parsing and printing of JSON and of event-stream lines: values and events start after parsing.
- `ThinkingRegistryObject.ThinkingRegistry.RegisterFromResponse`: one clock reading serves a whole registration call, where the source reads the clock for each block; only later ages can differ.
- `ThinkingRegistryObject.ThinkingRegistry.RegisterFromSseStream`: one clock reading serves a whole registration call, where the source reads the clock for each block; only later ages can differ.
- Session, generation and removal counters are unbounded; a wrap after 2^32 or 2^64 steps is not modelled.
- `PtyObjects.PtyStore.Dispatch`: the generic store of `crates/mvi` is modelled for the PTY actor, the one with logic in its effects.
- Cleanup statistics, cache statistics and log messages.
- `RequestTransform.TransformBody`: the model table and the effort cap of a backend are function parameters.
- `PtyObjects.PtyHandle.SendInput`: a failing write to an open writer, which the source returns and the application ignores.
- `InputConservation.InputIsConserved`: a write to an open writer is taken to succeed.
- `RestartProtocol.RestartsAreBounded`: the capacity of the command channel shows only as a send that may fail.
- Loop arms without lifecycle effect: mouse selection, status refresh, dialogs, backend overrides.
- `ArgObjects.BuildSpawnParams`: the environment and the command name; hook JSON, settings flags, the last session on disk and a new identifier are parameters, and the restart variant only appends extra arguments.
- `Shutdown.NoLostWakeup`: the shutdown phases, which nothing waits for; the waiter is registered from `enable` on, which asks no more of the notification than its documentation.
- `ShutdownManager::wait_for_shutdown` in `src/proxy/shutdown.rs`, HTTP forwarding and retries, the WebUI, IPC and metrics.

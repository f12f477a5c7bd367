# Verified models of the hard parts of web3 for QRL

A Dafny 4.11 project that models five parts of the repository and proves what they promise. `dafny verify dfyconfig.toml` checks all of it.

**Socket requests.** `RequestModel` is the request bookkeeping of the socket provider as a machine over whole requests: two queues, an admission cap, deadlines and caller aborts, replies, reconnection, teardown. A run is any sequence of its steps; whether a write or a dial throws, what a reply says and how large the jitter is are inputs of a step. `RequestRuns`, `RequestTraces`, `RequestLoad`, `RequestLaws`, `RequestReplies`, `RequestConnects` and `RequestSteps` prove what every run keeps, which reply settles which request, what one connect does, and what each single step does in the members of its input and of the history alone. `SocketProvider` is the class with the two id maps (JavaScript maps with insertion order, `InsertionMap`), the lifecycle records and the abort compositions; each of its methods is proved to perform exactly one step of the machine (`ensures view == …`), where `Valid()` says that the two maps are the queues flattened, that the records in the lifecycle map belong exactly to the requests in flight and all others are marked settled, that each of those has a live deadline, and that every other composition holds no timer and no listener. `QueueMaps`, `SnapshotLoops` and `ProviderRecords` carry the proofs about maps, snapshot loops and records. `AbortHelpers` is the composed abort signal. All of that runs to completion; `Reentry` takes the maps and records alone and asks what is left when diagnostics and message listeners call back into the provider.

**ABI type text.** `ParamTypes` has the parameter types and both printers, `ParamParser` the character parser. `ParamReading` computes what the parser makes of printed text, `ParamWords` what it makes of types and words written by hand; `ParamRoundTrip`, `CanonicalSignatures` and `ParamLists` draw the consequences.

**Incremental framing.** `Framing` is the splitter, `FrameCuts` says in literal text where it cuts, `ChunkStreams` the receiver and the streams, `ChunkDelivery` and `ChunkRuns` the proof of what comes out however the stream is cut, `ChunkExamples` streams that lose messages, `ChunkMarkers` the same for data that contains the splitter's own marker, `ChunkResponseParser` the class. A stream is any list of JSON objects and arrays, each after nothing or one line break. The JSON parser is a parameter that must satisfy four lexical facts (`ChunkStreams.JsonLike`), and for markers a fifth one about strings (`ChunkMarkers.AnyString`).

**Schemas and typed data.** `SchemaCompiler` compiles ABI types to schemas and compares the schema's meaning with the type's shape; `SchemaReadings` says what each way to write a type accepts. `TypedData` is the dependency closure and the type text of EIP-712, section "Definition of encodeType"; recursion carries fuel, and running out of it stands for not coming back. `EncodedTypes` reads the text back.

**Arithmetic and an index.** `Positional` and `PackedEncoding` are fixed-width packing, `Units` the decimal scaling on strings, `Wallet` the account array with its address index.

Where the code does less than one might expect, the project says so with a lemma at a concrete input, and the exact condition is proved for all inputs beside it: reserved names and empty tuples that do not come back (`ParamRoundTrip`), a batch cut between its last two brackets and an empty one (`ChunkExamples`), a marker inside a string (`ChunkMarkers`), a fraction longer than the unit's exponent, a zero with decimals and a zero printed with a bare point (`Units`), type words whose width is not written as one or that contain two spaces (`SchemaCompiler`), struct types with a cycle (`TypedData`), a callback that reuses the id of a request while the parked requests go out (`Reentry`). Two comments of the source promise more than its code does: the one above the space removal at packages/web3-validator/src/utils.ts:52 speaks of all spaces, but only the first is removed; the one at packages/web3-qrl-abi/src/qrl_typed_data.ts:26-29 does not mention that the search does not come back from a cycle. The comment at packages/web3-utils/src/socket_provider.ts:511-512 calls the cleanup safe against re-entry, which it is on its own; promoting from a snapshot is not. The models follow the code.

## Model

| member | source | states |
|---|---|---|
| RequestTraces.SettledExactlyOnce | packages/web3-utils/src/socket_provider.ts:518-561 | after every interleaving of calls, opens, replies, deadlines, aborts, reconnects and teardowns, each admitted request has been settled exactly once if it left the queues and not at all otherwise, written at most once, once while it waits for a reply and never while parked |
| RequestRuns.RunKeepsInvariant | packages/web3-utils/src/socket_provider.ts:684-828 | every reachable state: pending and sent ids are disjoint, no two requests share an id or an identity, each request occupies exactly the ids of its payload, the cap holds |
| RequestLoad.PeakIsTrueMaximum | packages/web3-utils/src/socket_provider.ts:490-502 | over every run the peak kept by the provider is the largest number of ids in flight at any point of the history, measured on the effects alone |
| RequestLoad.PeakOverPrefixes | packages/web3-utils/src/socket_provider.ts:494-498 | the measured peak is an upper bound over all prefixes of the history and is reached |
| RequestReplies.ResolvedByItsOwnReply | packages/web3-utils/src/socket_provider.ts:835-881 | over every run, told by the members of the responses: whatever resolves a request is a proper result or error with one of its ids, or a batch of such whose first id is one of its, what rejects it as malformed is an improper reply with one of its ids, and a request is resolved only after it was written |
| RequestLaws.FirstTerminalEventWins | packages/web3-utils/src/socket_provider.ts:746-773 | a reply and the request's own abort race: whichever comes first decides and the other changes nothing |
| RequestLaws.BatchSettlesOnce | packages/web3-utils/src/socket_provider.ts:846-881 | a reply to any id of a batch releases all its ids; replies to the others are dropped |
| RequestLaws.RepliesLeaveParkedAlone | packages/web3-utils/src/socket_provider.ts:856-861 | no reply, whatever id it names, touches a request that is not sent yet |
| RequestLaws.AdmissionIsAtomic | packages/web3-utils/src/socket_provider.ts:694-790 | a call changes neither map, the history nor the peak, or all its ids enter one map together within the cap, unless its write fails and it is settled on the spot |
| RequestLaws.AdmittedIff | packages/web3-utils/src/socket_provider.ts:694-729 | a call is admitted exactly when there is a socket, dialling works if it has to dial first, the payload has ids of its own, none is taken, all fit under the cap, the signal has not aborted and the timeout is valid; a batch is admitted whole or not at all |
| RequestLaws.TeardownRejectsEachOnce | packages/web3-utils/src/socket_provider.ts:568-574 | rejecting everything empties both maps and settles each outstanding request once, with the given reason, and does nothing else |
| RequestLaws.ReconnectSparesParked | packages/web3-utils/src/socket_provider.ts:609-636 | a reconnect with attempts left rejects exactly the sent requests, each once, and leaves every parked one |
| RequestLaws.DrainWritesTheQueue | packages/web3-utils/src/socket_provider.ts:800-828 | promoting the parked requests attempts exactly one write for each, batches included, in queue order |
| RequestLaws.RunKeepsOrder | packages/web3-utils/src/socket_provider.ts:746-773 | over every run the parked requests stand in the order of their admission |
| RequestConnects.ConnectWritesParkedInOrder | packages/web3-utils/src/socket_provider.ts:792-828 | after any run, one connect writes the requests of the base class and every parked payload once and in arrival order; all that happens to a parked request is its promotion, then its write, or its failed write and one settlement with the send error; sent requests are left alone and nothing stays parked |
| RequestLaws.WaitIsBounded | packages/web3-utils/src/socket_provider.ts:625-630 | every wait lies between 0 and 72000 ms, and within a fifth of the capped delay |
| RequestLaws.ReconnectionIsBounded | packages/web3-utils/src/socket_provider.ts:609-642 | over every run at most one reconnect timer is outstanding, exactly while reconnecting; attempts stay within the limit; every wait ever armed is in bounds |
| RequestLaws.FailuresReachGiveUp | packages/web3-utils/src/socket_provider.ts:623-641 | without an open or a reset in between, more reconnects than attempts are left reach the branch that gives up and empties both maps |
| RequestSteps.ReplyDoes | packages/web3-utils/src/socket_provider.ts:835-881 | in the members of the reply alone: a version-2 reply with an id of a sent request resolves it with that reply exactly when it has a result and no error or an error and no result, and otherwise rejects it as malformed, unless it is a subscription's notification; nothing else changes |
| RequestSteps.BatchReplyDoes | packages/web3-utils/src/json_rpc.ts:40-94 | a non-empty array of such replies, all with an id, resolves the owner of its first id |
| RequestSteps.OthersAreDropped | packages/web3-utils/src/socket_provider.ts:835-881 | every other array, every notification and every reply whose id no sent request has changes nothing |
| RequestSteps.MessageDoes | packages/web3-utils/src/socket_provider.ts:830-882 | one message: of the sent requests exactly those that some response names are gone, each settled as the first such response says |
| RequestSteps.EmptyMessageDoes | packages/web3-utils/src/socket_provider.ts:830-838 | a message without responses counts as a lost connection if reconnection is automatic; an oversized one clears the queues first |
| RequestSteps.DisconnectDoes | packages/web3-utils/src/socket_provider.ts:461-472 | both queues end empty, every outstanding request gets exactly one rejection as not open, nothing else enters the history, and the status is disconnected without a handshake under way |
| RequestSteps.ResetDoes | packages/web3-utils/src/socket_provider.ts:596-607 | the same with the reset's own reason; all attempts are back and the status stays |
| RequestSteps.ClearDoes | packages/web3-utils/src/socket_provider.ts:884-888 | the same for clearing the queues; status and attempts stay |
| RequestSteps.HandshakeDoes | packages/web3-utils/src/socket_provider.ts:286-298 | an expired handshake does the same as timed out and ends disconnected, unless its timer is cleared or the connection is up, when nothing is rejected |
| RequestSteps.AbortDoes | packages/web3-utils/src/socket_provider.ts:755-765 | a deadline or a caller's abort takes out exactly its own request, parked or sent, and settles it once with its own reason |
| RequestSteps.AbortAfterwards | packages/web3-utils/src/socket_provider.ts:755-765 | either changes nothing once its request is no longer in flight |
| RequestSteps.ReconnectDoes | packages/web3-utils/src/socket_provider.ts:609-642 | all three outcomes of a reconnect with the whole new state and history: nothing, rejection of the sent and the next timer, or rejection of everything and giving up |
| RequestSteps.DialDoes | packages/web3-utils/src/socket_provider.ts:247-276 | status, handshake and throw of each way a dial can end, and of the reconnect timer's dial |
| RequestSteps.OpenedState | packages/web3-utils/src/socket_provider.ts:792-798 | an open ends connected, with all attempts back and no handshake under way |
| RequestSteps.CallDoes | packages/web3-utils/src/socket_provider.ts:684-790 | a whole call with everything it changes: no socket, a dial that fails, a refusal, a parked request, a written one, and one that cannot be written |
| RequestSteps.RefusalIs | packages/web3-utils/src/socket_provider.ts:651-729 | which error a refused call throws, check by check in their order, for every payload, load, signal and timeout |
| RequestSteps.StartsDialling | packages/web3-utils/src/socket_provider.ts:195-240 | a new provider has just started to dial and holds nothing |
| RequestSteps.BackoffDoubles | packages/web3-utils/src/socket_provider.ts:625-630 | the back-off starts with the delay and doubles from attempt to attempt until it reaches a minute |
| RequestSteps.WaitIsRoundedDown | packages/web3-utils/src/socket_provider.ts:625-630 | the wait is the back-off plus its share of jitter, rounded down to whole milliseconds and never negative |
| RequestSteps.LimitIsOwn | packages/web3-utils/src/socket_provider.ts:726-729 | the deadline of a call is its own timeout, and the provider's only for a call without one |
| RequestModel.ExtractIds | packages/web3-utils/src/socket_provider.ts:651-671 | a payload yields ids exactly when it is one truthy id or a non-empty batch of distinct truthy ids; the ids are distinct and truthy |
| RequestModel.DistinctByCount | packages/web3-utils/src/socket_provider.ts:658-660 | a set as large as its list of ids means that no id repeats |
| SnapshotLoops.SettleAllIsRejectAll | packages/web3-utils/src/socket_provider.ts:568-574 | settling a snapshot of all ids one by one rejects each request once although settling a batch removes later ids of the snapshot |
| SnapshotLoops.SettleSentIsRejectSent | packages/web3-utils/src/socket_provider.ts:615-620 | the same for the snapshot of the sent ids taken by a reconnect |
| SnapshotLoops.DrainEachIsDrain | packages/web3-utils/src/socket_provider.ts:800-828 | walking over a snapshot of the pending entries, skipping items already sent, promotes and writes each parked request once, in order |
| QueueMaps.FindFindsOwner | packages/web3-utils/src/socket_provider.ts:522-523 | looking an id up in a map finds the request that owns it |
| QueueMaps.DeleteRequest | packages/web3-utils/src/socket_provider.ts:531-534 | deleting all ids of a request removes exactly that request from a map |
| QueueMaps.SetRequest | packages/web3-utils/src/socket_provider.ts:770-772 | setting all ids of a new request appends exactly that request to a map |
| ProviderRecords.SettlementPlan | packages/web3-utils/src/socket_provider.ts:518-543 | what the two lookups and the record yield for an id: the request that owns it, not settled before; and that its slots and its record are all that goes |
| ProviderRecords.PromotionPlan | packages/web3-utils/src/socket_provider.ts:812-818 | when all ids of a parked request have changed map, it stands in the sent map only, last, and any of its ids settles it there |
| ProviderRecords.CancelPlan | packages/web3-utils/src/socket_provider.ts:755-765 | settling the primary id removes the request whose signal fired and no other |
| Reentry.NestedRunsSettleOnce | packages/web3-utils/src/socket_provider.ts:494-561 | however callbacks of the provider call back into it: every id leads to its own request all along exactly when no promotion is stale, and then each request is settled once if its record is gone and not at all while it has one |
| Reentry.KeptExactly | packages/web3-utils/src/socket_provider.ts:518-561 | from any state in order, a settlement, an admission or a promotion leads to one in order exactly when it is not a stale promotion |
| Reentry.StaleExactly | packages/web3-utils/src/socket_provider.ts:800-828 | an entry taken into the snapshot is stale at its turn exactly when another request waits under its id by then, whatever has happened in between |
| Reentry.StaleOnlyByReuse | packages/web3-utils/src/socket_provider.ts:800-828 | which takes a callback that parks a new request under that id |
| Reentry.StaleExample | packages/web3-utils/src/socket_provider.ts:800-828 | two parked requests, the first of which cannot be written: the diagnostics callback of its settlement disconnects and issues a new request under the second id; the old item of that id is then settled twice, and nothing reaches the new request any more |
| SocketProvider.SocketProvider.SettleRequest | packages/web3-utils/src/socket_provider.ts:518-561 | the one cleanup primitive does to maps, records, compositions, peak and history exactly what settling the owning request does; it reports true exactly when an id was held, so the check for a record already settled never finds one |
| SocketProvider.SocketProvider.TearDown | packages/web3-utils/src/socket_provider.ts:528-549 | releases all slots of an item, detaches its listener, disposes of its composition, forgets its record and marks it settled, and tells whether it had been marked before; nothing of other items changes |
| SocketProvider.SocketProvider.Finish | packages/web3-utils/src/socket_provider.ts:528-560 | a record that is not marked settled has its promise settled and the peak taken; a marked one changes no history and reports false |
| ProviderRecords.SettledIffReleased | packages/web3-utils/src/socket_provider.ts:542-549 | in every state in order a record is in the map exactly while its request is in flight, and is marked settled exactly when it has left the map |
| SocketProvider.SocketProvider.GetDiagnostics | packages/web3-utils/src/socket_provider.ts:480-488 | the reported counts are the ids held in the two maps; in flight never exceeds the cap or the peak |
| SocketProvider.SocketProvider.NotifyDiagnostics | packages/web3-utils/src/socket_provider.ts:494-502 | the peak becomes the maximum of itself and the current load |
| SocketProvider.SocketProvider.RejectAllRequests | packages/web3-utils/src/socket_provider.ts:568-574 | the loop over the snapshot of both maps is the one-shot rejection of everything |
| SocketProvider.SocketProvider.SettleSnapshot | packages/web3-utils/src/socket_provider.ts:615-620 | settling id by id over a snapshot |
| SocketProvider.SocketProvider.Connect | packages/web3-utils/src/socket_provider.ts:247-276 | opening arms the handshake deadline; a failure clears it and throws, unless a reconnect is under way |
| SocketProvider.SocketProvider.ArmConnectionTimer | packages/web3-utils/src/socket_provider.ts:282-284 | the handshake deadline is armed after the previous one was cleared |
| SocketProvider.SocketProvider.HandshakeExpires | packages/web3-utils/src/socket_provider.ts:286-298 | an expired handshake rejects everything, unless the connection is up |
| SocketProvider.SocketProvider.ClearQueues | packages/web3-utils/src/socket_provider.ts:884-888 | clears the handshake deadline and rejects everything |
| SocketProvider.SocketProvider.Disconnect | packages/web3-utils/src/socket_provider.ts:461-472 | a disconnect rejects everything and ends disconnected |
| SocketProvider.SocketProvider.Reset | packages/web3-utils/src/socket_provider.ts:596-607 | a reset rejects everything and gives all attempts back |
| SocketProvider.SocketProvider.Reconnect | packages/web3-utils/src/socket_provider.ts:609-642 | one reconnect at a time: rejects the sent requests, then arms the next wait or gives up |
| SocketProvider.SocketProvider.ReconnectTimerFires | packages/web3-utils/src/socket_provider.ts:631-635 | dials again and allows the next reconnect |
| SocketProvider.SocketProvider.FirstKnown | packages/web3-utils/src/socket_provider.ts:702-706 | finds the first id that is already in use in either map |
| SocketProvider.SocketProvider.Refused | packages/web3-utils/src/socket_provider.ts:699-729 | the checks in their order, and the error each gives |
| SocketProvider.SocketProvider.Enroll | packages/web3-utils/src/socket_provider.ts:735-773 | bookkeeping of an accepted call: item, composition, record, listener, all ids in one map, peak, and afterwards a live deadline for every request in flight |
| SocketProvider.SocketProvider.RequestCall | packages/web3-utils/src/socket_provider.ts:684-790 | a whole call is one step of the request machine, with the error it throws |
| SocketProvider.SocketProvider.OnConnect | packages/web3-utils/src/socket_provider.ts:792-798 | an open: timer cleared, attempts reset, the base class's two requests, then the parked ones |
| SocketProvider.SocketProvider.PromoteItem | packages/web3-utils/src/socket_provider.ts:805-826 | one parked item: all its ids change map before its payload is written, and a failing write settles it |
| SocketProvider.SocketProvider.SendPendingRequests | packages/web3-utils/src/socket_provider.ts:800-828 | the loop over the snapshot of entries with its set of items already sent is the drain of the whole queue |
| SocketProvider.SocketProvider.OnResponse | packages/web3-utils/src/socket_provider.ts:839-881 | one response: a notification is passed over, an unknown id is dropped, a malformed one rejects, any other resolves |
| SocketProvider.SocketProvider.OnMessage | packages/web3-utils/src/socket_provider.ts:830-882 | all responses of a message in order; none at all starts a reconnect |
| SocketProvider.SocketProvider.OnAbort | packages/web3-utils/src/socket_provider.ts:755-765 | the abort listener rejects its request, with the timeout error exactly when the deadline fired |
| SocketProvider.SocketProvider.DeadlineFires | packages/web3-utils/src/abort_helpers.ts:117-121 | a deadline rejects its own request, and nothing when it has been cleared |
| SocketProvider.SocketProvider.CallerAborts | packages/web3-utils/src/abort_helpers.ts:137-143 | a caller's abort rejects the request, and nothing once the composition has let go of the caller's signal |
| AbortHelpers.CompositionSafety | packages/web3-utils/src/abort_helpers.ts:94-154 | over every sequence of timer, caller, dispose and listener events: at most one abort; timed out exactly when the reason is the deadline's; after abort or dispose no timer and no caller listener is left, before it both are armed |
| AbortHelpers.FirstEventDecides | packages/web3-utils/src/abort_helpers.ts:117-143 | whichever of deadline, caller abort and dispose comes first decides the reason, whatever follows |
| AbortHelpers.ReasonIsFinal | packages/web3-utils/src/abort_helpers.ts:99-121 | the first reason is never replaced |
| AbortHelpers.EventDoes | packages/web3-utils/src/abort_helpers.ts:105-143 | what the deadline, the caller's abort and a disposal do to a composition, field by field, and that they do nothing once their source is gone |
| AbortHelpers.CallbackDoes | packages/web3-utils/src/abort_helpers.ts:117-140 | the state in which the listeners of the composed signal see either abort |
| AbortHelpers.ComposeIs | packages/web3-utils/src/abort_helpers.ts:94-154 | what a new composition holds, field by field |
| AbortHelpers.AbortComposition.constructor | packages/web3-utils/src/abort_helpers.ts:94-154 | a signal that has already aborted leaves nothing armed; otherwise timer and listener are armed and on the cleanup stack |
| AbortHelpers.AbortComposition.Dispose | packages/web3-utils/src/abort_helpers.ts:105-112 | popping the cleanup stack releases timer and listener; a second call does nothing |
| AbortHelpers.AbortComposition.BeginTimeout | packages/web3-utils/src/abort_helpers.ts:117-121 | the timer callback up to its dispatch of abort |
| AbortHelpers.AbortComposition.BeginCancel | packages/web3-utils/src/abort_helpers.ts:137-140 | the caller listener up to its dispatch of abort |
| ParamRoundTrip.PrintThenParseExactly | packages/abi/src/fragments.ts:94-275 | reading a fully printed parameter of any nesting rebuilds it, with its name and flag, exactly when no name is reserved, no length has superfluous zeros and no tuple is empty, at any depth |
| ParamRoundTrip.ModifierNameIsLost | packages/abi/src/fragments.ts:71-91 | a concrete parameter that does not come back: its name is a modifier |
| ParamRoundTrip.EmptyTupleIsLost | packages/abi/src/fragments.ts:114-127 | a concrete parameter that does not come back: between empty parentheses one component is read |
| ParamReading.ParsePrinted | packages/abi/src/fragments.ts:94-275 | what the parser makes of printed text in any style, throws included, computed from the parameter alone |
| ParamReading.FeedIndexedName | packages/abi/src/fragments.ts:191-208 | the space behind `indexed` turns the word into the flag, and throws where no flag is allowed |
| ParamReading.FeedBrackets | packages/abi/src/fragments.ts:213-250 | array suffixes are read digit by digit in both parser modes, behind a word and behind a tuple |
| ParamParser.ParseParamType | packages/abi/src/fragments.ts:94-275 | the loop over the characters ends with the node, or throws, as the fold of its cases says |
| ParamParser.FeedConcat | packages/abi/src/fragments.ts:109-251 | reading text in two parts is reading it at once |
| ParamTypes.FormatShape | packages/abi/src/fragments.ts:361-407 | peeling the last bracket recursively prints the stem, all lengths from the innermost out, and the tail |
| ParamTypes.TypeIsBaseAndBrackets | packages/abi/src/fragments.ts:297-355 | a type is its base and the suffixes that peeling finds |
| ParamTypes.StablePeels | packages/abi/src/fragments.ts:1108-1120 | a type with a width keeps it when its last suffix is peeled |
| ParamWords.VerifiedType | packages/abi/src/fragments.ts:1108-1120 | character for character: `uint` and `int` that no digit from 1 to 9 follows become `uint512` and `int512`, every other type stays |
| ParamWords.BareIntegersAreWidened | packages/abi/src/fragments.ts:94-275 | reading `uint` or `int` with anything but a width behind it and any array suffixes gives the widened type with these suffixes, and its signature prints it |
| ParamWords.WordIsRead | packages/abi/src/fragments.ts:71-91 | what a word behind a type is: the flag, a modifier that is dropped (`payable` behind address, `storage` behind bytes and string, `memory` and `calldata` also behind arrays and tuples), a modifier that is refused, or the name |
| ParamWords.TwoWordsAreRead | packages/abi/src/fragments.ts:180-211 | what two words behind a type are: the first must mark the parameter, once, or be a modifier of its type |
| ParamWords.ComponentIsRead | packages/abi/src/fragments.ts:127-153 | the same word inside a tuple, where the flag is off instead of absent |
| ParamWords.PrintedText | packages/abi/src/fragments.ts:361-407 | all three texts of any parameter, with their separators, flag and name, from its word, lengths and printed components |
| ParamWords.LastSuffix | packages/abi/src/fragments.ts:331-345 | the length and the children of an array are read off its last brackets |
| ParamWords.ReadIsVerified | packages/abi/src/fragments.ts:94-275 | whatever the text, every type in the parsed tree has been verified, at any depth |
| ParamWords.SpaceBeforeParen | packages/abi/src/fragments.ts:111-125 | a space between a type word and its components changes nothing, whatever follows |
| ParamWords.Misplaced | packages/abi/src/fragments.ts:109-251 | `[[`, `]]`, `)(`, `([` and `,[` make any text throw, wherever they stand |
| ParamWords.BracketFirst | packages/abi/src/fragments.ts:213-250 | text that starts with a bracket throws |
| ParamWords.BracketBehindName | packages/abi/src/fragments.ts:213-250 | a bracket behind a name throws |
| ParamWords.InheritedWords | packages/abi/src/fragments.ts:71-91 | the keys every object inherits act as modifiers |
| CanonicalSignatures.PrintersAgree | packages/web3-qrl-abi/src/utils.ts:241-271 | the second printer equals the signature format exactly for tuples named as such and canonical lengths |
| CanonicalSignatures.PrintersAgreeExactly | packages/web3-qrl-abi/src/utils.ts:241-271 | it throws exactly for components without a tuple type, and with other lengths its text is longer |
| CanonicalSignatures.SignatureIsFixedPoint | packages/abi/src/fragments.ts:297-407 | reading signature text and printing the result gives the same text, for every parameter |
| ParamTypes.FlattenTypes | packages/web3-qrl-abi/src/utils.ts:241-271 | the loop pushes each parameter's text in order or throws at the first bad one |
| ParamLists.SplitNesting | packages/abi/src/fragments.ts:1132-1160 | the loop cuts as the splitting function does, throws included |
| ParamLists.SplitExactly | packages/abi/src/fragments.ts:1138-1154 | a list is the result exactly when it joins to the text and its pieces are balanced without a comma at depth zero |
| ParamLists.TrimIs | packages/abi/src/fragments.ts:1133 | trimming takes the white space off both ends and nothing else |
| Texts.SpaceIs | packages/abi/src/fragments.ts:99 | the white space that is read as a blank, by code points |
| ParamLists.WalkPrinted | packages/abi/src/fragments.ts:361-407 | a printed parameter is balanced and has no comma at depth zero |
| ParamLists.ParameterListsRoundTripExactly | packages/abi/src/fragments.ts:448-450 | printing a list and parsing it gives the list back exactly when each parameter comes back; the empty list is included |
| ParamLists.ParsedIsBalanced | packages/abi/src/fragments.ts:109-251 | text that is read as one parameter has balanced parentheses and no comma outside them |
| ChunkRuns.DeliveredExactly | packages/web3-utils/src/chunk_response_parser.ts:44-111 | any stream of JSON objects and arrays cut in any way, no single frame containing the marker: all messages come out once each and in order exactly when no frame hides a boundary, otherwise, within the bound, exactly those that end before the first hidden one; a boundary is hidden when a frame holds both of its sides but not the brackets between which it would be cut next to each other |
| ChunkRuns.CleanIsDelivered | packages/web3-utils/src/chunk_response_parser.ts:44-111 | without a hidden boundary a stream of any length comes out whole |
| ChunkRuns.ObjectsAreDelivered | packages/web3-utils/src/chunk_response_parser.ts:44-111 | streams of objects: at any time, however cut, exactly the completed messages are out, in order, and what is carried is the beginning of one message or a separator |
| ChunkExamples.CutInsideBatchEnd | packages/web3-utils/src/chunk_response_parser.ts:48-53 | an array and an object behind it, cut between the last two brackets of the array: neither comes out |
| ChunkExamples.BatchExample | packages/web3-utils/src/chunk_response_parser.ts:48-53 | `[{}]{}` in one frame delivers both messages, cut before the `]` none |
| ChunkExamples.NotCompactIsLost | packages/web3-utils/src/chunk_response_parser.ts:48-53 | an array that is empty or has blanks next to its outer brackets is lost together with what touches it in the same frame |
| ChunkExamples.EmptyBatchExample | packages/web3-utils/src/chunk_response_parser.ts:48-53 | `[]{}` in one frame delivers nothing |
| ChunkRuns.LostExactly | packages/web3-utils/src/chunk_response_parser.ts:55-105 | a stream of any length with a hidden boundary: the messages before it come out, everything from the piece that reaches over it up to the piece that passes the bound is swallowed, and the rest is received as by a new receiver |
| ChunkRuns.StuckSwallows | packages/web3-utils/src/chunk_response_parser.ts:64-77 | carried text that cannot be completed swallows every piece up to and including the one that passes the bound |
| ChunkRuns.RecoversAtBoundary | packages/web3-utils/src/chunk_response_parser.ts:64-77 | if that piece ends a message, all later messages come out again |
| ChunkRuns.LostForGood | packages/web3-utils/src/chunk_response_parser.ts:79-105 | within the bound nothing behind a hidden boundary ever comes out |
| ChunkMarkers.MarkedIsSegmented | packages/web3-utils/src/chunk_response_parser.ts:48-60 | for any data and any parser, a frame that contains markers is received as its segments would be, each in a frame of its own |
| ChunkMarkers.MarkedExactly | packages/web3-utils/src/chunk_response_parser.ts:44-111 | any stream, any frames, markers included: what comes out are the messages without the markers that stand inside one frame, all of them exactly when no segment hides a boundary; that is what was sent exactly when, besides, no value depends on a marker |
| ChunkMarkers.AsSentExactly | packages/web3-utils/src/chunk_response_parser.ts:44-111 | for a parser that tells the messages from what is left of them, a stream arrives as sent exactly when no frame contains the marker and none hides a boundary; only a stuck receiver needs the bound |
| ChunkMarkers.MarkerExample | packages/web3-utils/src/chunk_response_parser.ts:48-53 | an object whose one string is the marker arrives with an empty string |
| ChunkMarkers.LexicalParserHasAnyString | packages/web3-utils/src/chunk_response_parser.ts:79-80 | what is assumed about strings can be met |
| ChunkDelivery.FrameDelivers | packages/web3-utils/src/chunk_response_parser.ts:55-108 | one frame: the messages it completes come out and the rest is carried, wherever the frame starts and ends |
| ChunkStreams.LexicalParserIsJsonLike | packages/web3-utils/src/chunk_response_parser.ts:79-80 | what is assumed of the JSON parser can be met |
| FrameCuts.StringsAreSkipped | packages/web3-utils/src/chunk_response_parser.ts:79-80 | in the reading assumed of the JSON parser a string opens and closes nothing, whatever brackets and escaped quotes it contains |
| Framing.DechunkIsCut | packages/web3-utils/src/chunk_response_parser.ts:48-53 | without a marker in the data, four global replacements and a split are one pass that cuts between brackets and drops a line break there |
| Framing.DechunkIsCutEach | packages/web3-utils/src/chunk_response_parser.ts:48-53 | for any data, they split at the markers it contains and cut every segment in that one pass |
| Framing.CutOnceMore | packages/web3-utils/src/chunk_response_parser.ts:48-53 | replacing one more shape cuts each piece once more; the order of the replacements does not matter to the result |
| FrameCuts.FirstCut | packages/web3-utils/src/chunk_response_parser.ts:48-53 | in literal text: a frame without the marker is cut behind the first `}` or `}]` that a `{` or `[{` follows with at most one line break in between, which goes; the rest is cut in the same way |
| FrameCuts.NoCut | packages/web3-utils/src/chunk_response_parser.ts:48-53 | a frame without any of these texts and without the marker is one piece |
| FrameCuts.FirstMarker | packages/web3-utils/src/chunk_response_parser.ts:48-53 | at the first `|--|` a frame is split, whatever stands around it |
| FrameCuts.PieceDoes | packages/web3-utils/src/chunk_response_parser.ts:55-108 | what one piece does to carried text, timer, clearings and output, with the bound in characters |
| ChunkResponseParser.ChunkResponseParser.ParseResponse | packages/web3-utils/src/chunk_response_parser.ts:44-111 | the loop over the pieces updates carried text, timer and results as the fold does |
| ChunkResponseParser.ChunkResponseParser.TryPiece | packages/web3-utils/src/chunk_response_parser.ts:55-108 | one piece: oversized, unfinished, falsy or a value |
| ChunkResponseParser.ChunkResponseParser.ChunkTimeout | packages/web3-utils/src/chunk_response_parser.ts:89-99 | the timer clears the queues unless reconnection is automatic |
| SchemaCompiler.CompilePreservesMeaning | packages/web3-validator/src/utils.ts:168-262 | whenever a type compiles, its schema accepts exactly the values of its shape: rightmost size outermost, tuples by position, sized formats outside arrays and unsized ones inside |
| SchemaCompiler.ListPreservesMeaning | packages/web3-validator/src/validator.ts:26-96 | the same for a type list, the empty one included, with the meaning the validator gives schemas |
| SchemaCompiler.WrapAccepts | packages/web3-validator/src/utils.ts:238-255 | wrapping sizes from the inside out makes each constrain its own level of nesting |
| SchemaCompiler.AbiSchemaToJsonSchema | packages/web3-validator/src/utils.ts:168-262 | the loops over entries and sizes build the compiled schema, or the error of the first bad entry |
| SchemaCompiler.WrapSizes | packages/web3-validator/src/utils.ts:243-255 | the loop over the sizes |
| SchemaCompiler.TypeIsRead | packages/web3-validator/src/utils.ts:44-87 | the word of a type and the sizes behind it are the ones read from it, in the declared order, for any word |
| SchemaCompiler.BaseTypeIsRead | packages/web3-validator/src/utils.ts:69-71 | base types without a width, tuples included |
| SchemaCompiler.SizedTypeIsRead | packages/web3-validator/src/utils.ts:73-86 | base types with a width |
| SchemaCompiler.ParseIntReads | packages/web3-validator/src/utils.ts:73-81 | what `parseInt` reads: white space, a sign, digits, and nothing of what follows |
| SchemaCompiler.SizedWordExactly | packages/web3-validator/src/utils.ts:73-166 | any text behind int, uint or bytes: rejected exactly when `parseInt` finds an unsupported width; the name is that of a format exactly when it finds one; the word names its own format exactly when the text is the decimal of a supported width |
| SchemaCompiler.OtherWordExactly | packages/web3-validator/src/utils.ts:123-166 | any other word: accepted exactly when it is a base type other than tuple or an extra name, and then it names a format |
| SchemaCompiler.FormatsAreNamed | packages/web3-validator/src/formats.ts:30-55 | every format is what its own name is converted to, except `blockTag` and `bytes256`, to which no word leads |
| SchemaCompiler.UnreachedFormats | packages/web3-validator/src/formats.ts:30-55 | these two are formats, and no word leads to either |
| SchemaCompiler.CarelessWidth | packages/web3-validator/src/utils.ts:73-93 | a width that is signed, padded with zeros or followed by anything is read in part, and one without digits is accepted under a name that is no format |
| SchemaCompiler.CarelessWidths | packages/web3-validator/src/utils.ts:73-93 | `int8x`, `int08` and `int+8` become int8, `intx` becomes a name without a format |
| SchemaCompiler.FirstSpaceGoes | packages/web3-validator/src/utils.ts:52-53 | only the first space is taken out of a type |
| SchemaCompiler.TwoSpaces | packages/web3-validator/src/utils.ts:52-53 | a word with one space is known, the same word with two is not |
| SchemaCompiler.SizedFormatsExactly | packages/web3-validator/src/utils.ts:89-166 | a decimal width makes a format exactly when it is a positive multiple of 8 up to 512, or for bytes at most 64 |
| SchemaReadings.TupleAccepts | packages/web3-validator/src/utils.ts:168-262 | a tuple type with array suffixes and components, written as a parameter, as a short string or as a list that starts with both, accepts exactly the nested arrays, last suffix outermost, whose innermost elements are lists that match the components by position |
| SchemaReadings.ListAccepts | packages/web3-validator/src/utils.ts:209-213 | any other list is a bare tuple of its own entries |
| SchemaReadings.GroupIsStruct | packages/web3-validator/src/utils.ts:197-208 | a list that starts with a tuple word and a list is read as that word with these components |
| SchemaReadings.TupleFails | packages/web3-validator/src/utils.ts:222-223 | a tuple fails with the error of its first component that fails |
| SchemaReadings.TupleNeedsComponents | packages/web3-validator/src/utils.ts:186-189 | a tuple written as a parameter without components is an error |
| SchemaReadings.LeafAccepts | packages/web3-validator/src/utils.ts:230-258 | a base type accepts exactly the nested arrays of values with its format; components beside it are not looked at |
| SchemaReadings.SizedLeafAccepts | packages/web3-validator/src/utils.ts:230-258 | a base type with a width is checked with it on its own, and without any inside arrays |
| SchemaReadings.NameAccepts | packages/web3-validator/src/utils.ts:123-166 | any other word is a format of that name, or unknown, and makes no arrays |
| SchemaReadings.ArrayOfStructs | packages/web3-validator/src/utils.ts:184-258 | an array of structs of one `bool`, written in both ways, accepts lists of lists of one boolean |
| TypedData.TerminatesExactly | packages/web3-qrl-abi/src/qrl_typed_data.ts:30-57 | the search comes back exactly when no cycle can be reached from the struct; as many nested calls as there are structs are then enough |
| TypedData.SelfReference | packages/web3-qrl-abi/src/qrl_typed_data.ts:30-57 | a struct with a member of its own type: the search never comes back |
| TypedData.DependenciesAreReachable | packages/web3-qrl-abi/src/qrl_typed_data.ts:30-57 | the struct first, then exactly the struct types reachable from it, none twice |
| TypedData.EncodeTypeIsCanonical | packages/web3-qrl-abi/src/qrl_typed_data.ts:67-80 | the primary type followed by the ascending closure, whatever ascending list of the reachable types one starts from |
| TypedData.AscendingIsUnique | packages/web3-qrl-abi/src/qrl_typed_data.ts:69 | a set of names has one ascending list, so the text does not depend on the sorting algorithm |
| EncodedTypes.EncodedTypeReadsBack | packages/web3-qrl-abi/src/qrl_typed_data.ts:67-80 | for names and types without punctuation, splitting the text at parentheses, commas and spaces gives the primary struct and then the ascending others, each with its own members in order, types before names |
| EncodedTypes.MailText | packages/web3-qrl-abi/src/qrl_typed_data.ts:67-80 | the text of two concrete structs |
| EncodedTypes.WordIs | packages/web3-qrl-abi/src/qrl_typed_data.ts:23-36 | the struct a type names is its longest start of letters, digits and underscores |
| EncodedTypes.NoWordThrows | packages/web3-qrl-abi/src/qrl_typed_data.ts:35-36 | a type that starts with no word throws |
| EncodedTypes.BeforeIs | packages/web3-qrl-abi/src/qrl_typed_data.ts:69 | the order of names: a proper start first, otherwise by the first different character |
| PackedEncoding.PackExactly | packages/web3-utils/src/hash.ts:232-283 | intN and uintN accept exactly their range, for a multiple of 8 up to 512 and no other width, and yield N/4 lower-case hex digits that denote the number modulo 2 to the power N |
| PackedEncoding.BareTypesAreWidest | packages/web3-utils/src/hash.ts:192-206 | without a width the widest type is meant, with or without an array suffix |
| PackedEncoding.PackFails | packages/web3-utils/src/hash.ts:218-250 | which error each number out of range gets; for unsigned types the minus sign counts as a bit |
| PackedEncoding.TwosComplementIs | packages/web3-utils/src/string_manipulation.ts:111-127 | two's complement for any number and width: the residue in exactly that many digits, the digits alone for a larger number, an error for a smaller one |
| PackedEncoding.WidthIsRead | packages/web3-utils/src/hash.ts:211-214 | the width of a type name is the number behind its word |
| PackedEncoding.WordDecodes | packages/web3-utils/src/string_manipulation.ts:111-127 | two's complement of a negative number reads back as that number |
| PackedEncoding.PackedDecodes | packages/web3-utils/src/hash.ts:321-323 | the concatenation for any list of fixed-width integers decodes to the same numbers |
| PackedEncoding.ArgumentsAreFlat | packages/web3-utils/src/hash.ts:312-333 | integers and arrays of integers are packed as the integers they contain, one after the other, with the error of the first bad one |
| PackedEncoding.ArgumentsDecode | packages/web3-utils/src/hash.ts:312-333 | packed arguments, arrays included, decode to their integers |
| PackedEncoding.ArrayEndsAreLost | packages/web3-utils/src/hash.ts:316-320 | where one array ends and the next begins cannot be told from the packed text |
| PackedEncoding.PackingIsInjective | packages/web3-utils/src/hash.ts:329-333 | equal packed text of arguments with equal element types holds equal numbers |
| PackedEncoding.PackedText | packages/web3-utils/src/hash.ts:329-333 | packed text starts with `0x` and holds a quarter of all widths in digits |
| Positional.NumeralLength | packages/web3-utils/src/hash.ts:221-224 | a numeral has at most e digits exactly when its number is below the e-th power of the base |
| Units.PlanckRoundTrip | packages/web3-utils/src/converters.ts:505-606 | printing planck in a unit and reading it back is the identity, for every natural number and every unit that is a power of ten |
| Units.ToPlanckExactly | packages/web3-utils/src/converters.ts:568-606 | scaling is exact if and only if the fraction is no longer than the unit's exponent or all digits are zero |
| Units.ToTextIs | packages/web3-utils/src/converters.ts:583-606 | what comes back in each case: the scaled number, the bare digits for a longer fraction, nothing for a zero with decimals |
| Units.LongFraction | packages/web3-utils/src/converters.ts:597 | a fraction that is not scaled |
| Units.ZeroWithDecimals | packages/web3-utils/src/converters.ts:605 | a zero that comes back as empty text |
| Units.FromPlanck | packages/web3-utils/src/converters.ts:505-552 | the loop that trims zeros, and the cases around it |
| Units.PrintedShape | packages/web3-utils/src/converters.ts:512-552 | printed text has no superfluous zeros in front and its fraction does not end in a zero; it ends with the point for zero alone |
| Units.ToPlanckRefuses | packages/web3-utils/src/converters.ts:568-575 | text that is no decimal number is refused, and after that an unknown unit |
| Wallet.Wallet.Add | packages/web3-qrl-accounts/src/wallet.ts:156-169 | an account replaces the one with its address in any case, or goes to the end, and the index follows |
| Wallet.Wallet.Create | packages/web3-qrl-accounts/src/wallet.ts:122-128 | as many accounts as are created are added in order |
| Wallet.Wallet.Get | packages/web3-qrl-accounts/src/wallet.ts:178-190 | a lookup by address is a linear search |
| Wallet.Wallet.GetAt | packages/web3-qrl-accounts/src/wallet.ts:189 | the account at a position is the one that its own address, in any case, leads to |
| Wallet.Wallet.Remove | packages/web3-qrl-accounts/src/wallet.ts:214-224 | removal by address keeps the order of the rest and the index exact |
| Wallet.Wallet.RemoveAt | packages/web3-qrl-accounts/src/wallet.ts:226-233 | the same by position |
| Wallet.Wallet.RebuildAddressMap | packages/web3-qrl-accounts/src/wallet.ts:240-248 | the rebuilt index is exactly lower-cased address to position |
| Wallet.Wallet.Clear | packages/web3-qrl-accounts/src/wallet.ts:269-276 | a cleared wallet is empty and indexed |
| Wallet.RunIsDistinct | packages/web3-qrl-accounts/src/wallet.ts:122-276 | over every sequence of operations no two accounts have the same address, up to case |
| Wallet.SameAddress | packages/web3-qrl-accounts/src/wallet.ts:156-233 | two addresses have the same key exactly when they differ in nothing but the case of letters |
| Wallet.LowerIs | packages/web3-qrl-accounts/src/wallet.ts:156-245 | the keys of the index are the addresses with their letters from A to Z made small, character by character |
| Wallet.AddThenGet | packages/web3-qrl-accounts/src/wallet.ts:156-190 | an added account is found under its address in any case, and no other account moves |
| Wallet.RemoveThenGet | packages/web3-qrl-accounts/src/wallet.ts:178-233 | a removed address is gone and every other address still finds its own account |

## Left out

- Hooks and listeners of the socket provider that call back into it are modelled in `Reentry` only; elsewhere every step runs to completion, and event emission and `onDiagnostics` have no effect.
- Reentry.NestedRunsSettleOnce: speaks of the two maps, the records and the settlements; order, writes, peak and connection status under nested calls are not covered, and the promise behind an item is not told from the item.
- Sockets, timers, the garbage collector and `Math.random`: they are inputs of a step; jitter is any real in [-0.2, 0.2).
- SocketProvider.SocketProvider.DeadlineFires: the composition of a request is a value kept beside its record instead of an object of its own, so aliasing between provider and composition is not captured; `AbortHelpers.AbortComposition` is the object, and its methods are proved against the same functions.
- RequestModel.ExtractIds: ids are missing, integers or strings; `NaN`, fractions and other objects as ids are not modelled.
- RequestLaws.WaitIsBounded: delays and jitter are exact reals instead of doubles.
- SocketProvider.SocketProvider.Connect: the path, the socket object and the choice between the two errors it throws are not modelled; a reconnect scheduled from within a failing reconnect is a later step.
- ParamParser.ParseParamType: parent pointers are a stack of open nodes, and a throw carries no position.
- ParamTypes.FormatShape: array lengths are exact naturals; a length from 2^53 on, which the source rounds, is not modelled, nor is the `json` style.
- ChunkRuns.DeliveredExactly: the JSON parser is a parameter with four lexical facts; strings are sequences of characters instead of UTF-16 code units.
- ChunkMarkers.MarkedExactly: the messages are taken to have `|` and line breaks only where JSON allows them (`ChunkMarkers.Strict`).
- SchemaCompiler.CompilePreservesMeaning: `$id`, error reports and the object and `oneOf` schemas, which compiling types does not produce, are not modelled; the format checks are a table given as a parameter.
- TypedData.EncodeTypeIsCanonical: type names that plain objects inherit, such as `constructor`, and characters outside the basic plane in the sort order are not modelled.
- PackedEncoding.PackExactly: strings, booleans, addresses and bytes as packed values, and the guessing of a type from a value, are not modelled.
- SchemaCompiler.OtherWordExactly: words with array sizes behind them are read by `TypeIsRead`; their elements are converted by the bare base.
- Units.ToPlanckExactly: hexadecimal and signed input, and numbers from 10^21 on that a double prints with an exponent.
- Wallet.Wallet.Add: seeds, encryption and storage, and accounts that change their address or enter the array past the wallet's methods; lower-casing is that of ASCII letters.
- Reading two's complement by logarithms (`fromTwosComplement`), hex conversion of strings and byte arrays, checksums and signatures.
- `transformJsonDataToAbiFormat`, which follows only the first element of deeper arrays, and the ABI coders.
- RPC and contract wrappers, configuration and name service: thin layers without state of their own.

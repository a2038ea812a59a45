# Cap'n Proto RPC, packing and transport: a verified model

A Dafny model of three connected parts of the repository, with proofs about every input, every schedule and every
run.

**The RPC protocol** (`capnp-rpc`). `Rpc` describes one vat's side of a connection: the question, answer, export,
import and embargo tables, what every message does to them, and what a vat does of its own accord (calls,
returns, drops, resolutions). `Connection` is the same as an object whose tables are updated in place, method by
method against those steps. `Traffic` counts messages in flight and says in which order those about one question
may come, `PeerView` says what a vat's step looks like from the other end, `VatSteps` proves that every event and
every handler is such a step, `TwoVats` proves that the invariant between an asker and an answerer survives any such
step, and `RpcRuns` draws the conclusions for every run of two vats joined by two queues. `Naming` says what each
message a vat sends says and what each it takes in does, `Working` that calls are worked on until they return,
`Deliveries` that over a whole run calls, parameters and results arrive as what they were sent as, and
`PipelinedCalls` that pipelined calls find their answer. `Session` drives two of the
objects by an arbitrary script and shows that they stay within such runs. `Loopbacks` shows that a `senderLoopback`
meets what leads back. `Promises` and `Refusals` deal with the one property that does not hold of every run, and say
exactly when it fails; `RpcFindings` has runs that show it. `Embargo` is the round trip of
a `Disembargo` for any number of promises at a time, `EmbargoProgress` shows that everything arrives, and
`Disembargoes` that its steps are those of `Rpc`; `Queued`, `Pipelines` and `SenderQueue` are the queues that hold
calls meanwhile; `IdTable` is the id allocator.

**The packed codec and the stream framing** (`capnp-futures`). `Packing` defines what packed bytes mean, after the
"Packing" section of the Cap'n Proto encoding specification. `PackedRead` and `PackedWrite` are the resumable decoder
and encoder over streams (`Streams`) that may stall and give or take any part of what is asked. `Framing` is the
segment table of "Serialization Over a Stream", `Frames` says what a reader makes of any bytes, and `PackedMessages`
puts codec and framing together, message after message.

**The byte channel** (`async-byte-channel`). `ByteChannel` is the bounded buffer with its stored wakers, and a transfer
under an arbitrary scheduler.

Where the code does not do what one would hope, the model follows the code, and says exactly when:

- A run longer than 255 words is written with a count byte that has wrapped (`PackedWrite.ZeroUnitMeaning`,
  `PackedWrite.RawUnitMeaning`). Zero words are lost from a buffer if and only if a zero word in it has more than 255
  zero words behind it (`PackedWrite.EncodeBuffer`).
- A packed stream that breaks off right behind the first byte of a message is taken for its end, and only then
  (`PackedMessages.CutMessage`).
- A word drained in two goes is spoiled unless all tag bits before the stop are set (`PackedRead.DrainInTwo`).
- A promise exported again before it resolves goes out as `senderHosted`, so that its `Resolve` can be refused by the
  importer (`RpcFindings.ResolveCanFail`); this can come about exactly if the message is one whose capabilities get
  imported and its table does not announce the promise as well (`Refusals.RefusalIff`).
- Releasing the export of a resolved promise can evict a live export of the same capability from the reverse map
  (`RpcFindings.ReleaseCanEvict`, and exactly when: `RpcFindings.ReleaseEvictsIff`); the map stays sound
  (`RpcRuns.DedupIsSound`).
- Ids of a sender queue start over at a drain, so that a stale remover can hit a new value, exactly if its id is in use
  again (`SenderQueue.Queue.Remove`). The queueing client never pushes after a drain, so its calls are safe
  (`Queued.Client.DropCall`); the waiters of a promise client are not (`SenderQueue.PromiseWaiters.Leave`).
- A pipeline resolves its clients one after the other, which keeps the order of calls only if no older client was
  called after a newer one (`Pipelines.OrderKeptIff`); calls that arrive as messages satisfy this.
- The channel still accepts bytes after a shutdown; only the receiver's going stops it (`ByteChannel.Channel.PollWrite`).

In the RPC model the application decides what is called, returned, dropped and resolved, and when. Client objects
are known by what they lead to: a local capability or promise with an address, an import, or a pipelined answer.
Using an import or an answer requires that it is still held, and a drop may come at any time, which allows every run
that reference counting allows and more. Whether a promise client has been called, and what the target of a
`senderLoopback` has resolved to, are inputs of the step. Each handler is one atomic step while connected.

## Model

| member | source | states |
|---|---|---|
| `RpcRuns.ReferencesBalance` | capnp-rpc/src/rpc.rs:1187-1222 | in every reachable state of two vats, an export's count equals the references in flight that the peer will import, plus the peer's own count, plus the counts in `Release` messages under way, plus what `Finish` messages under way will release from results whose question was dropped before its `Return`; an export is live exactly while that sum is positive |
| `RpcRuns.QuietMeansSettled` | capnp-rpc/src/rpc.rs:208-243 | with nothing in flight, exports and imports agree reference for reference, and the open and the unreturned answers are exactly the referenced and the awaiting questions of the peer: nothing leaks |
| `RpcRuns.NothingDangles` | capnp-rpc/src/rpc.rs:1228-1264 | the next message of any reachable state meets what it needs: every target and descriptor names a live export or an answer that still has its pipeline, a new question id is free, a `Return` is awaited, a `Finish` finds its answer open, a release is covered, an embargo id is known, a `senderPromise` is the first its importer hears of that id |
| `RpcRuns.OnlyTwoErrors` | capnp-rpc/src/rpc.rs:893-1152 | of all errors with which a message can be refused, at most two can meet one from a vat that follows this code: a `Resolve` for an import that is not a promise, and a `senderLoopback` to what does not lead back |
| `Loopbacks.LoopbackLeadsBack` | capnp-rpc/src/rpc.rs:822-875 | in every reachable state a `senderLoopback` to an export meets one whose own hook is an import or a pipelined answer: embargoes on an import start only from a `Resolve` whose descriptor leads back, and what it leads to stays so until the `Disembargo` has come |
| `Loopbacks.OneErrorLeft` | capnp-rpc/src/rpc.rs:893-1152 | so unless something that leads back has meanwhile turned out to be local, a message is refused for one reason only: a `Resolve` for an import that is not a promise |
| `Loopbacks.StepLoops` | capnp-rpc/src/rpc.rs:822-1146 | every step of either vat keeps, for every export, that each `senderLoopback` to it under way or to come will find it leading back |
| `Loopbacks.RunLoops` | capnp-rpc/src/rpc.rs:822-1146 | so does every run |
| `RpcRuns.FreeIdIsClean` | capnp-rpc/src/rpc.rs:110-126 | an id that is free in the question table has no trace: no call or `Return` of it is in flight, nothing is being answered, and a leftover answer has its `Finish` under way; so reuse is safe |
| `RpcRuns.OneReturn` | capnp-rpc/src/rpc.rs:1025-1108 | asked, being answered and returned add up to at most one for each question, and to one exactly while it awaits; a `Canceled` is never under way to a referenced question |
| `RpcRuns.AnswerLifecycle` | capnp-rpc/src/rpc.rs:780-820 | an answer leaves the table only by a `Finish` after its `Return`, or by a `Return` after its `Finish`, and that one is `Canceled` and carries nothing |
| `RpcRuns.DedupIsSound` | capnp-rpc/src/rpc.rs:1398-1412 | in every reachable state each entry of the reverse map leads to a live export whose current hook has that address |
| `RpcRuns.EmbargoesBalance` | capnp-rpc/src/rpc.rs:822-891 | an embargo id in use has exactly one `Disembargo`, on its way out, scheduled, or on its way back; an id not in use has none |
| `RpcRuns.StepInv` | capnp-rpc/src/rpc.rs:893-1152 | every step of either vat, own action or received message, keeps both halves of the invariant |
| `RpcRuns.RunInv` | capnp-rpc/src/rpc.rs:893-1152 | so does every run from two new vats, of any length |
| `RpcRuns.InitInv` | capnp-rpc/src/rpc.rs:434-452 | two new vats satisfy the invariant |
| `TwoVats.AskerSendsHalf` | capnp-rpc/src/rpc.rs:1779-1831 | whatever an asker and importer sends, the order of messages about each question, the reference balance, the backing of every use and the embargo count survive |
| `TwoVats.AnswererSendsHalf` | capnp-rpc/src/rpc.rs:2360-2466 | the same for what an answerer and exporter sends, in particular results for a question that has been dropped meanwhile |
| `TwoVats.AskerGetsHalf` | capnp-rpc/src/rpc.rs:1025-1108 | the same for what an asker and importer takes in |
| `TwoVats.AnswererGetsHalf` | capnp-rpc/src/rpc.rs:780-820 | the same for what an answerer and exporter takes in |
| `TwoVats.DroppedResults` | capnp-rpc/src/rpc.rs:212-237 | dropping a question turns the references of its `Return` in flight into exactly those its `Finish` will release |
| `TwoVats.NextIsReady` | capnp-rpc/src/rpc.rs:1228-1264 | from the invariant of both directions, the message at the head of a queue can be delivered |
| `TwoVats.UsesReach` | capnp-rpc/src/rpc.rs:1537-1577 | what the head message names as a target or in its capability table is there |
| `Traffic.AfterNoAsk` | capnp-rpc/src/rpc.rs:208-243 | with no new question of that id under way, a question stays open at the peer exactly until its one `Finish` |
| `Traffic.WillFinishSnoc` | capnp-rpc/src/rpc.rs:224-232 | a `Finish` added to a queue will release the results of its answer just if it asks to and nothing about that question is ahead of it |
| `Traffic.WillFinishResults` | capnp-rpc/src/rpc.rs:800-804 | when an open answer gets results, a `Finish` already under way will release them just if its flag says so |
| `Traffic.HoldOneMore` | capnp-rpc/src/rpc.rs:1032-1036 | holding one more question adds exactly the references returned to it to those that will be imported |
| `VatSteps.WriteDescriptorsOk` | capnp-rpc/src/rpc.rs:1435-1461 | writing a capability table adds to each export as many references as the table carries for it, records each as often, names only what this vat holds, and announces a promise only where there was no reference; what each place of the table says is `Naming.WriteDescriptorsName` |
| `VatSteps.ReleaseExportOk` | capnp-rpc/src/rpc.rs:1187-1215 | releasing works exactly when the count covers it, takes off that many references and keeps the tables consistent |
| `VatSteps.ReleaseExportsOk` | capnp-rpc/src/rpc.rs:1217-1222 | releasing a list works exactly when no export is listed more often than it is referenced, and takes off that many |
| `VatSteps.SendCallSends` | capnp-rpc/src/rpc.rs:1779-1831 | in both roles a call is a legal step: a free question id, only held imports and questions named, and just what its table carries exported; whom and what it names is `Naming.CallSays` |
| `VatSteps.RespondSends` | capnp-rpc/src/rpc.rs:2360-2466 | a `Return` answers an unreturned answer once; what it carries is what the answer records; after a `Finish` it is `Canceled` and empty |
| `VatSteps.SendReturnSends` | capnp-rpc/src/rpc.rs:1168-1185 | a call that is done still has its answer in the table, unreturned, whatever happened meanwhile, so recording its `Return` never misses; and it returns once |
| `VatSteps.ForgetQuestionSends` | capnp-rpc/src/rpc.rs:208-243 | dropping a question reference sends one `Finish`, which asks for release exactly when the `Return` is still awaited |
| `VatSteps.DropImportSends` | capnp-rpc/src/rpc.rs:2600-2641 | dropping an import sends back all its references |
| `VatSteps.ResolveExportSends` | capnp-rpc/src/rpc.rs:1307-1380 | resolving an exported promise exports just what its `Resolve` carries |
| `VatSteps.StartEmbargoSends` | capnp-rpc/src/rpc.rs:2754-2803 | an embargo takes a free id and sends one `Disembargo` to a target that this vat holds |
| `VatSteps.RunLoopbackSends` | capnp-rpc/src/rpc.rs:840-875 | a scheduled loopback is answered once, with the id it came with |
| `VatSteps.DoSends` | capnp-rpc/src/rpc.rs:893-1152 | every local event is a legal move in both roles |
| `VatSteps.BootstrapGets` | capnp-rpc/src/rpc.rs:729-778 | a bootstrap question is asked and answered in one, with its capability exported |
| `VatSteps.CallGets` | capnp-rpc/src/rpc.rs:912-1024 | a call whose target is there and whose id is free is taken in, its capabilities are imported, and from then on it can return; what is worked on is `Deliveries.CallArrives` |
| `VatSteps.ReturnGets` | capnp-rpc/src/rpc.rs:1025-1108 | an awaited `Return` ends the wait; its capabilities are imported just if the question is still referenced, and otherwise the slot is freed |
| `VatSteps.FinishGets` | capnp-rpc/src/rpc.rs:780-820 | a `Finish` closes its answer, drops it if the `Return` was sent, and releases the results' exports just if asked |
| `VatSteps.ReleaseGets` | capnp-rpc/src/rpc.rs:1147-1150 | a covered `Release` takes off its count |
| `VatSteps.ResolveGets` | capnp-rpc/src/rpc.rs:1110-1146 | a `Resolve` brings its capability, replies with at most one legal step, and fails only for an import that is not a promise; exactly when there is an embargo is `Naming.ResolveEmbargoes` |
| `VatSteps.DisembargoGets` | capnp-rpc/src/rpc.rs:822-891 | a `senderLoopback` is scheduled or refused, a `receiverLoopback` frees its id |
| `VatSteps.HandleGets` | capnp-rpc/src/rpc.rs:893-1152 | every deliverable message is taken in, with the two exceptions named above, and what is sent in reply is a legal step of its own |
| `VatSteps.BootstrapAnswered` | capnp-rpc/src/rpc.rs:740-776 | exporting the bootstrap capability before the answer is entered comes to the same as entering it first |
| `Rpc.WriteDescriptorOk` | capnp-rpc/src/rpc.rs:1382-1433 | describing a capability keeps all tables consistent and adds exactly the reference the descriptor carries; `senderPromise` only for an export that had none |
| `Rpc.RepointOk` | capnp-rpc/src/rpc.rs:1324-1335 | pointing a resolved export at its resolution keeps the reverse map sound and all counts |
| `Rpc.ReceiveCapsOk` | capnp-rpc/src/rpc.rs:1579-1588 | receiving a capability table adds to each import as many references as the table carries for it, and changes nothing else |
| `Naming.WriteDescriptorsName` | capnp-rpc/src/rpc.rs:1435-1461 | place by place, a capability table says what was put there: nothing, an import or a pipelined answer of the sender's by its own id, or a local capability under a live export of the same address; and the list of exports is that of the table, in order |
| `Naming.WriteDedups` | capnp-rpc/src/rpc.rs:1398-1430 | a capability in the reverse map is described under the id listed and gets no second export; any other gets a free id, is listed from then on, and is announced as a promise exactly if it is one, in which case it is going to be resolved |
| `Naming.WriteTwice` | capnp-rpc/src/rpc.rs:1398-1412 | described again at once, a local capability goes out under the same id |
| `Naming.CallSays` | capnp-rpc/src/rpc.rs:1779-1831 | a call is addressed to the very client it is made on, its table names what it was given, and its id was free and now waits |
| `Naming.BootstrapAsks` | capnp-rpc/src/rpc.rs:611-647 | a bootstrap question goes out under an id that was free and now waits |
| `Naming.HeldCanBeUsed` | capnp-rpc/src/rpc.rs:2905-2930 | nothing bars a vat from using what it holds: it can call, drop, return, resolve to or loop back to any capability it has |
| `Naming.ReturnSays` | capnp-rpc/src/rpc.rs:2360-2466 | a `Return` says `Canceled` exactly after a `Finish`, else an exception exactly if the call failed, else results whose table names what was returned |
| `Naming.BootstrapSays` | capnp-rpc/src/rpc.rs:729-778 | a bootstrap question is answered at once, with the bootstrap capability |
| `Naming.ResolveSays` | capnp-rpc/src/rpc.rs:1307-1380 | after a resolution the export is what its promise has resolved to, for good, and the `Resolve` names it, or says that there was an error |
| `Naming.EchoSays` | capnp-rpc/src/rpc.rs:840-875 | a scheduled loopback goes to the client it was scheduled for, with the id it came with, and is done |
| `Naming.ReturnSettles` | capnp-rpc/src/rpc.rs:1025-1108 | a `Return` to a held question ends the wait with exactly the reply it carries, or, for `Canceled`, with a complaint; to one not held, it frees the id; no other question is touched |
| `Naming.BrokenIff` | capnp-rpc/src/rpc.rs:1228-1264 | a target stands for a broken client exactly if its export is not there or its answer is gone or closed |
| `Naming.ResolveEmbargoes` | capnp-rpc/src/rpc.rs:2745-2803 | an accepted `Resolve` sends something if and only if it resolves a promise that has been called to something on this side; that is then one `Disembargo` to the promise under an embargo id that was free and is now in use, and otherwise no embargo changes |
| `Naming.AnswerEmbargoes` | capnp-rpc/src/rpc.rs:2745-2803 | the same one `Disembargo` and one new id for a pipelined client |
| `Naming.EmbargoAnswerIff` | capnp-rpc/src/rpc.rs:2752-2757 | a pipelined client can be embargoed exactly if its reply has come and what is there is on this side |
| `Naming.DisembargoDoes` | capnp-rpc/src/rpc.rs:822-891 | an accepted `senderLoopback` schedules one answer, last, under its id, to something that leads over the connection; a `receiverLoopback` frees its id and no other |
| `Naming.RefusedIff` | capnp-rpc/src/rpc.rs:893-1152 | for messages from anyone: a message is refused if and only if it has one of the listed defects, such as an id in use, a missing target or a release of more than there is |
| `Naming.ErrorTells` | capnp-rpc/src/rpc.rs:893-1152 | the error names a defect that the message has, and for a call with two the one looked for first |
| `Working.UnreturnedIsWorked` | capnp-rpc/src/rpc.rs:981-1020 | in every reachable state exactly the answers whose `Return` has not been sent are being worked on, and each of them can return |
| `Working.WorkStays` | capnp-rpc/src/rpc.rs:981-1020 | what is being worked on, with its callee and its parameters, stays so until its `Return` is sent, whatever happens |
| `Working.HandleWork` | capnp-rpc/src/rpc.rs:912-1020 | only a `Call` starts work, on the answer of its id, and no message ends or changes any |
| `Working.DoWork` | capnp-rpc/src/rpc.rs:2360-2466 | a vat takes up no work of its own accord, and ends it only by its `Return` |
| `Working.RunWorked` | capnp-rpc/src/rpc.rs:981-1020 | the invariant behind that, over every run; and the bootstrap capability never changes |
| `Working.IdleMeansAnswered` | capnp-rpc/src/rpc.rs:981-1108 | with nothing in flight and nothing being worked on, no question waits |
| `Deliveries.CallArrives` | capnp-rpc/src/rpc.rs:912-982 | over any run, a call arrives at what it was made on, with what it was given: the work it starts has as callee the export that the caller's import was made from, or the pipelined answer, and as parameters, place by place, the capabilities the caller passed, each the same one or what that promise has resolved to |
| `Deliveries.ReplyArrives` | capnp-rpc/src/rpc.rs:1025-1050 | over any run, a reply to a question that is still held arrives as what was returned: the exception, or place by place the same capabilities |
| `Deliveries.CallReachesOrigin` | capnp-rpc/src/rpc.rs:1228-1237 | a call on an import arrives at the capability that was once described under that id, however long ago, if somebody has counted on it ever since; so reuse of export ids never misdirects a call |
| `Deliveries.ReferencedIsKept` | capnp-rpc/src/rpc.rs:1187-1215 | an export that is imported, about to be or in use without a break is one capability all the time, or what that promise has resolved to |
| `Deliveries.CapsArrive` | capnp-rpc/src/rpc.rs:1579-1588 | the capability table of any message means to its receiver, place by place, what it meant to its sender |
| `Deliveries.RunKeeps` | capnp-rpc/src/rpc.rs:1187-1215 | an export that is there all the time never becomes another capability |
| `Deliveries.HandleKeeps` | capnp-rpc/src/rpc.rs:893-1152 | no message turns an export into another |
| `PipelinedCalls.PipelinedMeetsAnswer` | capnp-rpc/src/rpc.rs:1238-1260 | a pipelined call finds the answer to the very question its caller held, not a later one under the same id: that answer stays open until the call has come, and work on it is the work that question started |
| `PipelinedCalls.StaysOpen` | capnp-rpc/src/rpc.rs:1238-1260 | an answer stays open from its question until a call that was sent while the question was held has come |
| `PipelinedCalls.StepAsksFree` | capnp-rpc/src/rpc.rs:110-126 | a vat never asks under the id of a question it holds |
| `Promises.FairResolvesFindPromises` | capnp-rpc/src/rpc.rs:1110-1146 | as long as the exporter does not export a still unresolved promise again, in a message whose capabilities get imported and without its announcement in the same table, no `Resolve` it sends meets an import that is not a promise |
| `Promises.FairRunInv` | capnp-rpc/src/rpc.rs:1307-1433 | such runs keep, for every export, that each `Resolve` under way or to come will find a promise or nothing |
| `Promises.NewPromiseIsNews` | capnp-rpc/src/rpc.rs:1413-1428 | when a promise is exported for the first time the importer knows nothing under that id, and nothing under way tells it |
| `Promises.ResolvesElsewhere` | capnp-rpc/src/rpc.rs:1324-1368 | a promise's resolution never goes out under the promise's own id |
| `Promises.ReceiveKnown` | capnp-rpc/src/rpc.rs:1463-1535 | what an importer knows of an id after a capability table: an import there before keeps its kind, an id not mentioned stays unknown, one announced as a promise first becomes a promise, and one mentioned only as hosted becomes a plain import |
| `Refusals.RefusalIff` | capnp-rpc/src/rpc.rs:1110-1146 | the condition is exact: from every state of such a run, a step leads to where the importer can come to refuse a `Resolve`, without another promise being passed off, if and only if that step itself passes off an unresolved promise |
| `Refusals.PrimedRefuses` | capnp-rpc/src/rpc.rs:1402-1410 | whatever else is under way, once the last message passes off an unresolved promise a refused `Resolve` can be reached |
| `Refusals.FairNeverRefuses` | capnp-rpc/src/rpc.rs:1110-1146 | from a state that keeps the invariant of such runs no refusal can be reached by such steps |
| `RpcFindings.ResolveCanFail` | capnp-rpc/src/rpc.rs:1402-1410 | a run of two vats that ends with a `Resolve` being refused, because an unresolved promise was exported again as `senderHosted` |
| `RpcFindings.ReleaseCanEvict` | capnp-rpc/src/rpc.rs:1208-1213 | a run of two vats in which the release of a resolved promise's export removes another, live export of the same capability from the reverse map, so that the capability would next get a second id |
| `RpcFindings.ReleaseEvictsIff` | capnp-rpc/src/rpc.rs:1187-1215 | a release leaves every other export findable through the reverse map if and only if it is not the last of an export under whose address the map lists another one |
| `Connection.ConnectionState.ReleaseExport` | capnp-rpc/src/rpc.rs:1187-1215 | the tables in place become what the step on values says, or stay as they were on error |
| `Connection.ConnectionState.ReleaseExports` | capnp-rpc/src/rpc.rs:1217-1222 | the loop of releases succeeds exactly when the list does as a whole; after an error the tables are those of the releases before the first that fails |
| `Connection.ConnectionState.WriteDescriptor` | capnp-rpc/src/rpc.rs:1382-1433 | the descriptor, the export id and the tables are those of the step on values; the lookup through the reverse map never misses |
| `Connection.ConnectionState.WriteDescriptors` | capnp-rpc/src/rpc.rs:1435-1461 | the loop over a capability table writes, in order, a descriptor that names each capability, and the list of exports |
| `Connection.ConnectionState.Import` | capnp-rpc/src/rpc.rs:1463-1487 | an import gains a reference, and is created if it was not there |
| `Connection.ConnectionState.ReceiveCaps` | capnp-rpc/src/rpc.rs:1579-1588 | the loop over a received capability table imports them all and returns what each stands for |
| `Connection.ConnectionState.SendBootstrap` | capnp-rpc/src/rpc.rs:611-647 | a bootstrap question under the least free id |
| `Connection.ConnectionState.SendInternal` | capnp-rpc/src/rpc.rs:1779-1831 | the table is written first, then the question gets the least free id, then one `Call` is sent, addressed to its target and naming what it was given |
| `Connection.ConnectionState.SendReturn` | capnp-rpc/src/rpc.rs:2360-2466 | a call being worked on ends with one `Return`: `Canceled` after a `Finish`, else the exception or the results with their exports; its answer is there |
| `Connection.ConnectionState.DropQuestionRef` | capnp-rpc/src/rpc.rs:208-243 | the slot of a dropped reference is there; one `Finish` with the right flag; the slot is freed just if the `Return` has come |
| `Connection.ConnectionState.DropImportClient` | capnp-rpc/src/rpc.rs:2600-2641 | one `Release` of all references, and the import goes |
| `Connection.ConnectionState.ResolveExportedPromise` | capnp-rpc/src/rpc.rs:1307-1380 | the export is pointed at its resolution and one `Resolve` is sent |
| `Connection.ConnectionState.StartEmbargo` | capnp-rpc/src/rpc.rs:2754-2803 | an embargo under the least free id and its `Disembargo` |
| `Connection.ConnectionState.RunLoopback` | capnp-rpc/src/rpc.rs:840-875 | the scheduled answer to a `senderLoopback` is sent once, or fails with nothing sent because its target has been redirected meanwhile |
| `Connection.ConnectionState.HandleBootstrap` | capnp-rpc/src/rpc.rs:729-778 | the answer is entered and returned, with its capability exported; an id in use is an error that undoes the export, leaving every count and every other table as it was |
| `Connection.ConnectionState.HandleCall` | capnp-rpc/src/rpc.rs:912-1024 | target first, then the capabilities, then the id in use, with the error of the first that fails; an accepted call is worked on, with what the target and the descriptors stand for, and can return |
| `Connection.ConnectionState.HandleReturn` | capnp-rpc/src/rpc.rs:1025-1108 | as the step on values says, reply and error for an unknown question included |
| `Connection.ConnectionState.HandleFinish` | capnp-rpc/src/rpc.rs:780-820 | as the step on values says, errors for an unknown answer and an uncovered release included |
| `Connection.ConnectionState.HandleResolve` | capnp-rpc/src/rpc.rs:1110-1146 | as the step on values says, both errors included; exactly if a promise that was called turns out to be on this side, an embargo is set up and its `Disembargo` sent |
| `Connection.ConnectionState.HandleRelease` | capnp-rpc/src/rpc.rs:1147-1150 | as the step on values says, error included |
| `Connection.ConnectionState.HandleDisembargo` | capnp-rpc/src/rpc.rs:822-891 | as the step on values says, all three errors of the handler included; a loopback is scheduled, and the error of what is scheduled is that of `RunLoopback` |
| `Connection.ConnectionState.HandleMessage` | capnp-rpc/src/rpc.rs:893-1152 | every message: new tables, what is sent, or the error, are those of the step on values |
| `Connection.ConnectionState.Perform` | capnp-rpc/src/rpc.rs:611-647 | every local event: new tables and what is sent are those of the step on values |
| `Session.Play` | capnp-rpc/src/rpc.rs:893-1152 | two connection objects under any script go, turn by turn, through exactly the steps that the script says and that are possible, so that they only come to reachable states; or the script comes to a message that is refused, for one of the two reasons |
| `Session.TurnOf` | capnp-rpc/src/rpc.rs:893-1152 | one turn of one object is that step of the connection, or nothing if it is not possible, or a refusal |
| `Session.TakeTurn` | capnp-rpc/src/rpc.rs:893-1152 | an event takes place exactly if it is possible; it is then one step of a vat, or the error of the handler |
| `IdTable.PutIsInsert` | capnp-rpc/src/rpc.rs:115-126 | adding takes the least id not in use and is insertion into the finite map the table stands for |
| `IdTable.EraseIsRemove` | capnp-rpc/src/rpc.rs:110-113 | erasing is removal from that map |
| `IdTable.ExportTable.Push` | capnp-rpc/src/rpc.rs:115-126 | with the heap of free ids exact, push returns the least unused id and keeps it exact |
| `IdTable.ExportTable.Erase` | capnp-rpc/src/rpc.rs:110-113 | erase frees the slot and puts its id on the heap once |
| `IdTable.ExportTable.Find` | capnp-rpc/src/rpc.rs:128-135 | find gives the entry of a live id and nothing for any other |
| `IdTable.ExportTable.Iter` | capnp-rpc/src/rpc.rs:85-100 | iteration lists the values of exactly the live ids, each once, in the order of the ids |
| `IdTable.ValuesAreLive` | capnp-rpc/src/rpc.rs:85-100 | the values of a table are those of its live ids, in ascending order of id |
| `Embargo.CallsArriveInOrder` | capnp-rpc/src/rpc.rs:2745-2819 | in every run, for every promise and any number of embargoes at a time, the calls that reached the capability are a prefix of the calls issued, and the missing ones are, in this order: reflected, held at the peer, on their way out, queued behind the embargo |
| `Embargo.DirectMeansCaughtUp` | capnp-rpc/src/rpc.rs:2754-2803 | once calls go straight to the capability every earlier call has arrived |
| `Embargo.NothingRefused` | capnp-rpc/src/rpc.rs:822-891 | a `Disembargo` always meets a promise that leads back, a promise is resolved once, and an echo finds its embargo |
| `Embargo.QuietMeansDelivered` | capnp-rpc/src/queued.rs:191-209 | when nothing is in flight, scheduled or held, every call issued has arrived |
| `Embargo.StepInv` | capnp-rpc/src/rpc.rs:2745-2819 | every step, by either side, keeps the line of calls and the fences around every `Disembargo` |
| `Embargo.RunInv` | capnp-rpc/src/rpc.rs:2745-2819 | so does every run |
| `Embargo.IssueClient` | capnp-rpc/src/rpc.rs:2932-2936 | a call issued joins the end of the line in every phase |
| `Embargo.ReflectClient` | capnp-rpc/src/rpc.rs:912-1024 | a call reflected by the peer stays behind the earlier ones and ahead of the echo |
| `Embargo.LoopClient` | capnp-rpc/src/rpc.rs:828-875 | when the `Disembargo` arrives no call is left behind it |
| `Embargo.EchoClient` | capnp-rpc/src/rpc.rs:876-886 | when it comes back nothing is left to be reflected |
| `Embargo.ResolveClient` | capnp-rpc/src/rpc.rs:2754-2803 | a promise that was used goes behind an embargo, one that was not goes direct, and both are safe |
| `Embargo.SettleClient` | capnp-rpc/src/queued.rs:46-65 | a promise that settles sends back what it held, in order, whether it is announced first or not |
| `Embargo.LiftClient` | capnp-rpc/src/queued.rs:191-209 | lifting the embargo lets the queue through in order |
| `Embargo.EchoIsAwaited` | capnp-rpc/src/rpc.rs:876-886 | an echo's id is that of the one embargo waiting for it, although ids are reused |
| `EmbargoProgress.EverythingArrives` | capnp-rpc/src/rpc.rs:2745-2819 | from every reachable state, by itself and in at most `Load` steps, the system comes to where every promise leads straight to its capability, which has got exactly the calls that had been issued, in order |
| `EmbargoProgress.InternalLoad` | capnp-rpc/src/rpc.rs:2745-2819 | every step that happens by itself brings that end nearer, so any schedule comes to it |
| `EmbargoProgress.NotStuck` | capnp-rpc/src/rpc.rs:822-891 | as long as anything is left to do, something can be done |
| `EmbargoProgress.IdleMeansDelivered` | capnp-rpc/src/queued.rs:191-209 | when nothing is left to do, every promise is direct and every call delivered |
| `EmbargoProgress.IssuedIs` | capnp-rpc/src/rpc.rs:2905-2936 | the calls issued on a promise are those that were made on it, in order, and nothing else changes them |
| `EmbargoProgress.UsedIsEmbargoed` | capnp-rpc/src/rpc.rs:2752-2757 | a promise counts as used exactly if it was called or described while unresolved, and its resolution leads to an embargo exactly if it was used |
| `EmbargoProgress.SettleReflects` | capnp-rpc/src/queued.rs:46-65 | a promise that settles sends back what it held, in order, behind its announcement if that goes with it |
| `Disembargoes.ResolveIsResolved` | capnp-rpc/src/rpc.rs:2745-2803 | handling a `Resolve` to this side is the step of `Embargo` in which a promise is resolved: the same id is taken and the same `Disembargo` sent, or none |
| `Disembargoes.ReturnIsResolved` | capnp-rpc/src/rpc.rs:2745-2803 | so is an embargo on a pipelined client |
| `Disembargoes.LoopIsScheduled` | capnp-rpc/src/rpc.rs:828-875 | handling a `senderLoopback` is the step of `Embargo` that schedules its answer |
| `Disembargoes.LoopbackIsEcho` | capnp-rpc/src/rpc.rs:840-875 | answering it is the step that sends the echo |
| `Disembargoes.EchoFrees` | capnp-rpc/src/rpc.rs:876-886 | handling the echo is the step that frees the id |
| `SenderQueue.InOrderRemove` | capnp-rpc/src/sender_queue.rs:61-72 | removing an entry takes out its value and keeps the order of the rest |
| `SenderQueue.Queue.Push` | capnp-rpc/src/sender_queue.rs:91-115 | push appends, under the next id |
| `SenderQueue.Queue.Remove` | capnp-rpc/src/sender_queue.rs:61-72 | dropping a remover takes out the value under its id, or nothing; that is a value not its own if and only if the queue was drained since its push and the id is in use again |
| `SenderQueue.Queue.Drain` | capnp-rpc/src/sender_queue.rs:129-140 | drain gives all values in order, empties the queue and starts the ids over |
| `SenderQueue.PromiseWaiters.WhenMoreResolved` | capnp-rpc/src/rpc.rs:3106-3113 | a waiter is queued, after the resolution too |
| `SenderQueue.PromiseWaiters.Resolve` | capnp-rpc/src/rpc.rs:2805-2809 | everyone who waits is told, in order, and the queue is empty |
| `SenderQueue.PromiseWaiters.Leave` | capnp-rpc/src/sender_queue.rs:61-72 | a waiter that goes takes another's place if and only if it asked before the resolution and its id is in use again after it |
| `SenderQueue.StaleRemoverHitsNewValue` | capnp-rpc/src/sender_queue.rs:129-140 | the smallest case: a remover from before a drain takes out a value pushed after it |
| `Queued.QueueHoldsKept` | capnp-rpc/src/sender_queue.rs:91-140 | a queue that holds each call under its position unless dropped drains to exactly the undropped calls, in order |
| `Queued.Client.Call` | capnp-rpc/src/queued.rs:257-283 | a call is queued until the resolution and goes straight to the target after it |
| `Queued.Client.DropCall` | capnp-rpc/src/sender_queue.rs:61-72 | dropping the promise of a queued call removes that call and never another, of one on its way, nothing |
| `Queued.Client.WhenMoreResolved` | capnp-rpc/src/queued.rs:300-312 | a waiter is queued until the resolution and told at once after it |
| `Queued.Client.Resolve` | capnp-rpc/src/queued.rs:191-209 | the target receives exactly the undropped calls, once each, in order of issue, and every waiter is told after all of them |
| `Queued.ForwardsFirst` | capnp-rpc/src/queued.rs:197-205 | a log of forwards followed by notifications has exactly those calls |
| `Pipelines.OrderKeptIff` | capnp-rpc/src/queued.rs:55-61 | resolving the clients of a pipeline one after the other keeps the order of the calls if and only if no call was made on a client after one on a newer client |
| `Pipelines.Pipeline.GetPipelinedCap` | capnp-rpc/src/queued.rs:148-162 | a new client until the answer is there, nothing to queue on after it |
| `Pipelines.Pipeline.Call` | capnp-rpc/src/queued.rs:257-283 | a call is held by its client, or goes straight on once the answer is there |
| `Pipelines.Pipeline.Resolve` | capnp-rpc/src/queued.rs:46-65 | everything held is forwarded, client by client in order of creation, which is the order of issue exactly under the condition of `OrderKeptIff` |
| `Pipelines.Pipeline.Receive` | capnp-rpc/src/rpc.rs:1241-1260 | a call received is held under a new client, or goes straight on once the answer is there |
| `Pipelines.ReceiveAll` | capnp-rpc/src/rpc.rs:1241-1260 | calls that come in as messages for one answer are passed on in the order in which they came, wherever among them the answer comes |
| `Packing.UnpackConcat` | capnp-futures/src/serialize_packed.rs:100-132 | what follows a clean packed string is read as if it stood alone |
| `Packing.SpreadSqueeze` | capnp-futures/src/serialize_packed.rs:374-388 | a word packed under its tag unpacks to itself |
| `Packing.TagBits` | capnp-futures/src/serialize_packed.rs:374-388 | bit `i` of a tag, from the lowest, is set exactly if byte `i` of the word is nonzero |
| `Packing.SpreadAt` | capnp-futures/src/serialize_packed.rs:168-195 | byte `i` of an unpacked word is the data byte counted by the tag bits below `i` if bit `i` is set, and zero otherwise |
| `Packing.UnpackCut` | capnp-futures/src/serialize_packed.rs:98-222 | cutting a packed string short leaves a beginning of what it means, and a proper one if it ended cleanly |
| `Packing.UnpackWhole` | capnp-futures/src/serialize_packed.rs:98-222 | a clean packed string means whole words |
| `Packing.CleanPrefixOrder` | capnp-futures/src/serialize_packed.rs:98-222 | of two clean prefixes of one stream the one that means less is the shorter |
| `PackedRead.Decode` | capnp-futures/src/serialize_packed.rs:84-224 | for every input and every schedule of stalls and short reads, with word-aligned demand, the decoder hands out exactly what the packed bytes mean, and fails exactly if they end inside a word |
| `PackedRead.Reader.PollRead` | capnp-futures/src/serialize_packed.rs:84-224 | one poll: in shape for any demand; with word-aligned demand what has been handed out stays a prefix of the meaning, and an end or an error comes only when all of it has been |
| `PackedRead.Reader.PollStart` | capnp-futures/src/serialize_packed.rs:100-132 | reading the head of a code unit keeps the decoder exact, reports the end only at the end, and makes progress |
| `PackedRead.Reader.PollZeroes` | capnp-futures/src/serialize_packed.rs:134-148 | a zero run hands out zeroes, exactly as many as are left and fit, and ends exactly when none are left |
| `PackedRead.Reader.PollBuffering` | capnp-futures/src/serialize_packed.rs:149-167 | collecting a word keeps the decoder exact and fails only at the end of the stream |
| `PackedRead.Reader.DrainBuffer` | capnp-futures/src/serialize_packed.rs:168-195 | from every position in the buffered word, what is drained is as much of the rest as fits, where the rest is what the remaining tag bits and the remaining data bytes stand for; a word drained in one go is the word its tag stands for |
| `PackedRead.Reader.PollPassthrough` | capnp-futures/src/serialize_packed.rs:196-220 | a run of uncompressed words is passed through, and left when done or when there is no room |
| `PackedRead.Reader.ReadExact` | capnp-futures/src/serialize.rs:78-108 | reading so many bytes gives the next bytes of the meaning, or all that is left of it |
| `PackedRead.EmittedIsPrefix` | capnp-futures/src/serialize_packed.rs:98-222 | what has been handed out is always a prefix of the meaning, on truncated input too |
| `PackedRead.StopsAtBoundary` | capnp-futures/src/serialize_packed.rs:100-132 | when a clean part of the stream has been handed out the decoder has taken exactly its bytes |
| `PackedRead.DrainInTwo` | capnp-futures/src/serialize_packed.rs:168-195 | draining a word in two goes gives the word if and only if all tag bits before the stop are set, and else extra bytes |
| `PackedRead.ResumeCounterexample` | capnp-futures/src/serialize_packed.rs:168-195 | a decoder that holds a word which a stop after its first byte spoils |
| `PackedWrite.Encode` | capnp-futures/src/serialize_packed.rs:343-538 | for every cutting of the input into buffers and every schedule of the sink, whole words come out as at most ten bytes each; they mean the input if no run that is scanned for, behind a zero or a full word and within its buffer, is longer than 255 words; and they do not if such a run of zero words is behind a word of the same buffer while no dense run is too long |
| `PackedWrite.EncodeBuffer` | capnp-futures/src/serialize_packed.rs:343-538 | one buffer is encoded as exactly the units of `Packed`, whatever the sink does; if it holds no dense run that is too long, the meaning is kept if and only if no zero word has more than 255 zero words behind it |
| `PackedWrite.PackedFirst` | capnp-futures/src/serialize_packed.rs:390-494 | the reference encoding: a word, the run the format allows behind it, and the encoding of the rest |
| `PackedWrite.ZeroBufferFits` | capnp-futures/src/serialize_packed.rs:408-446 | a buffer of zero words alone fits if and only if it has at most 256 words |
| `PackedWrite.Writer.PollWriteAux` | capnp-futures/src/serialize_packed.rs:343-497 | one poll: takes a prefix of what is offered, leaves anything only because the sink stalls, asks again for the rest, keeps the account of what has been written against what has been taken, and does not change what all will be encoded as |
| `PackedWrite.Writer.StepStart` | capnp-futures/src/serialize_packed.rs:360-389 | a word is completed and packed under its tag, and the encoding to come stays the same |
| `PackedWrite.Writer.StepWord` | capnp-futures/src/serialize_packed.rs:390-443 | the packed word goes out, a zero or full word is followed by the longest run after it, and the encoding to come stays the same |
| `PackedWrite.Writer.StepCount` | capnp-futures/src/serialize_packed.rs:444-472 | the count byte is the run length modulo 256, and the encoding to come stays the same |
| `PackedWrite.Writer.StepRun` | capnp-futures/src/serialize_packed.rs:474-494 | a run of uncompressed words goes out as it came in, and the encoding to come stays the same |
| `PackedWrite.Writer.FinishPendingWrites` | capnp-futures/src/serialize_packed.rs:500-513 | what needs no new input is written, and each stall uses one up |
| `PackedWrite.Writer.WriteAll` | capnp-futures/src/serialize_packed.rs:343-497 | offering the unconsumed rest again gets all of it taken, with the encoding that the buffer has; a zero or dense run overflows only if the buffer holds one that is too long, and a zero run does if one is behind a word of the buffer |
| `PackedWrite.Writer.Flush` | capnp-futures/src/serialize_packed.rs:528-538 | after a flush the whole encoding is out and the size bound holds, and as long as no raw run overflowed, the output means the input if and only if no zero run did |
| `PackedWrite.ScanZeroes` | capnp-futures/src/serialize_packed.rs:408-414 | the scan finds the longest run of whole zero words |
| `PackedWrite.ScanDense` | capnp-futures/src/serialize_packed.rs:421-435 | the scan finds the longest run of words with at most one zero byte |
| `PackedWrite.ZeroUnitMeaning` | capnp-futures/src/serialize_packed.rs:444-446 | a zero run keeps its meaning if and only if its length is at most 255 words |
| `PackedWrite.RawUnitMeaning` | capnp-futures/src/serialize_packed.rs:444-494 | a run of uncompressed words keeps its meaning if and only if its length is at most 255 words |
| `PackedWrite.LongZeroRunIsLost` | capnp-futures/src/serialize_packed.rs:446-446 | 256 zero words after a zero word come back as none |
| `PackedWrite.SmallBufferFits` | capnp-futures/src/serialize_packed.rs:408-435 | a buffer of fewer than 256 words holds no run that is too long, whatever came before it |
| `Framing.Le32RoundTrip` | capnp-futures/src/serialize.rs:145-155 | a number survives its four bytes up to truncation to 32 bits |
| `Framing.Le32Digits` | capnp-futures/src/serialize.rs:207-216 | byte `i` of a 32-bit number on the wire is its digit `i` to base 256, the lowest first |
| `Framing.FromLe32RoundTrip` | capnp-futures/src/serialize.rs:145-155 | four bytes survive being read as a number |
| `Framing.TableRoundTrip` | capnp-futures/src/serialize.rs:68-123 | a written segment table reads back as its sizes, each truncated to 32 bits |
| `Framing.ReadsTable` | capnp-futures/src/serialize.rs:47-136 | what reading a written table comes to for every list of sizes and every body: which error, or which split |
| `Framing.SplitJoin` | capnp-futures/src/serialize.rs:126-136 | joined word-aligned segments split back into themselves |
| `Framing.FrameRoundTrip` | capnp-futures/src/serialize.rs:47-136 | a written message is read back as it was, whatever follows, if and only if it has 1 to 511 word-aligned segments whose sizes fit in 32 bits and whose total is within the limit |
| `Frames.MessageIff` | capnp-futures/src/serialize.rs:47-136 | for any bytes: a message is read if and only if the bytes begin with it, padding aside, and it is acceptable, and it is that one |
| `Frames.NoMessageIff` | capnp-futures/src/serialize.rs:76-82 | for any bytes: nothing is read if and only if there is nothing and the stream did not break |
| `Frames.CountErrorIff` | capnp-futures/src/serialize.rs:145-155 | for any bytes: too many and too few segments are reported exactly for the counts 512 up and 2^32 |
| `Frames.TooLargeIff` | capnp-futures/src/serialize.rs:110-121 | for any bytes: too large is reported exactly if there is a whole table whose sizes add up to more than the limit |
| `Frames.CutIsPremature` | capnp-futures/src/serialize.rs:68-136 | what is the beginning of bytes that hold a message is a premature end until the message is whole, and that message from then on |
| `Frames.PrefixIsPremature` | capnp-futures/src/serialize.rs:68-136 | every beginning of a written message, but the whole and the empty one, is a premature end |
| `Framing.WriteSegmentTable` | capnp-futures/src/serialize.rs:207-246 | both branches of the writer produce the one table format, padding included |
| `Framing.ReadSizes` | capnp-futures/src/serialize.rs:88-108 | the loop over the table reads the sizes |
| `PackedMessages.WriteMessage` | capnp-futures/src/serialize_packed.rs:312-323 | one message comes out as packed bytes that mean exactly its frame if no segment holds a run that is too long, and that do not if the only such runs are of zero words behind a word of their own segment |
| `PackedMessages.WriteMessages` | capnp-futures/src/serialize_packed.rs:312-323 | messages written one after the other, each with an encoder of its own, come out as packed strings that each mean their frame |
| `PackedMessages.ReadSegmentTable` | capnp-futures/src/serialize.rs:68-123 | reading the table through the decoder takes exactly the table and gives its sizes, or the error its content calls for; no table exactly if the bytes mean nothing and do not break off inside a word |
| `PackedMessages.TryReadMessage` | capnp-futures/src/serialize_packed.rs:230-239 | for every stream and schedule: no message exactly if the packed bytes mean nothing and do not break off inside a word, a message exactly if what they mean begins with it and it is acceptable, and a message takes exactly its own bytes |
| `PackedMessages.CutMessage` | capnp-futures/src/serialize_packed.rs:100-132 | a packed message that breaks off is a premature end, if and only if it breaks off behind its second byte or later; a lone tag is taken for the end of the stream |
| `PackedMessages.SendAndReceive` | capnp-futures/src/serialize_packed.rs:230-323 | any list of messages without overlong runs, each with an encoder and a decoder of its own, comes back as it was, and the read after the last one finds no message |
| `ByteChannel.Channel.PollRead` | async-byte-channel/src/lib.rs:72-97 | the next bytes in order, as many as there are and fit; pending exactly when empty and open; no bytes for a nonempty request only after the end; a parked sender is woken |
| `ByteChannel.Channel.PollWrite` | async-byte-channel/src/lib.rs:101-133 | refused exactly when the receiver is gone; pending exactly when full; as much as fits is taken and appended; a parked receiver is woken |
| `ByteChannel.Channel.CloseWrite` | async-byte-channel/src/lib.rs:142-152 | shutting down wakes a parked receiver and loses nothing |
| `ByteChannel.Channel.CloseRead` | async-byte-channel/src/lib.rs:52-60 | the receiver's going wakes a parked sender |
| `ByteChannel.Transfer` | async-byte-channel/src/lib.rs:159-182 | under any scheduling of a writer and a reader that sleep until woken, one of them can always go on, the transfer ends, and what comes out is what went in |

## Left out

- Disconnecting, and everything after it: runs stay connected.
- Tail calls, `sendResultsTo.yourself`, `takeFromOtherQuestion`, third-party messages, and a promise that resolves to
  another local promise: partly unimplemented in the source.
- Liveness of canceled calls: a `Finish` may drop the running call before any `Return`; the model lets it run on, and no claim is
  made that its `Return` comes.
- Ids and reference counts are unbounded numbers, not 32-bit ones; vector indexing with an id from the peer that is out of
  range is an error of the model, where the code would panic.
- The `active` flag of an answer is not modelled: it is set for as long as an answer is in the table.
- What a promise client leads to after its `Resolve`, and which result a pipelined client takes once its answer is there: the
  application uses the resolution, or the result, as a client of its own.
- Error texts, interface and method ids, message contents other than capability tables, and pipeline transforms.
- `releaseParamCaps` of a `Return`, which the receiver ignores, and a peer's answer that a `Resolve` is unimplemented.
- The weak references from an import to its clients: an import is there as long as it has a client. That a second
  `senderPromise` would meet an existing client is ruled out by `RpcRuns.NothingDangles`.
- Runs after a scheduled loopback has failed because its target was redirected: the failure is modelled
  (`Connection.ConnectionState.RunLoopback`), but it ends the connection, so that runs go on without it.
- `Connection.ConnectionState.HandleCall`, and the other handlers except `HandleBootstrap`: after an error only the error and what was
  sent are stated, because an error ends the connection.
- `PackedWrite.Encode`: no converse where a run of dense words is too long, since what the decoder then takes the rest of the run for
  depends on what follows; nor for a zero word that ends with one buffer and a long zero run that begins the next, which are
  joined or not depending on when the sink stalls.
- `PackedMessages.WriteMessage`: the same.
- `Embargo`: promises that resolve to something on the peer's side, and the release of the old import; one direction of the
  connection is modelled.
- `PackedRead.Decode`: demand is word-aligned, as in the framing code; other demand is covered by `PackedRead.DrainInTwo`
  for one word.
- Segment buffers: the check that a segment's offset fits the machine word, and the choice between owned and borrowed storage.
- Uninitialized buffer memory, tokio read buffers, wakers beyond their identity, and task executors.
- Generated accessors, the schema compiler, reconnection, write queues and read streams: wrappers, or easy beside the rest.

# The native transport, modelled and proved

A Dafny model of the parts of the FerricStore Go client that carry the weight of
its native transport, with proofs of what they promise. Each Dafny module follows
one component of the client.

- **Compact PIPELINE decoder** (`PipelineSearch`, `PipelineWork`, `PipelineBacktrack`,
  `CompactReaders`, `CompactReaderLoops`, `CompactWire`, `CompactPipelineItems`,
  `CompactPipelineWire`, `CompactPipeline`, `CompactPipelineResponse`). The wire form is ambiguous, so decoding is a depth-first
  search with a decision stack, a memo of failed states, an aggregate item budget
  and a cap on attempts. The loop is proved against a plain recursive search, and
  that search against a definition of "the first parse" that knows nothing of
  searching. What the items are is told by their wire form, written without the
  readers: the decoder answers with the first way in which a body can have been
  written, and refuses exactly the bodies that cannot.
- **Credit flow controller** (`FlowSpec`, `FlowLaws`, `FlowSystem`,
  `FlowInterleavings`, `FlowGuarantees`, `FlowBypass`, `FlowLimits` on values; `FlowQueue`,
  `FlowController` on the heap). The heap classes with their intrusive doubly
  linked queues refine the value operations; fairness, conservation and bounded
  bypass are proved for every interleaving of mutex-protected sections, with the
  two halves of acquire as separate steps.
- **Native value codec** (`ByteOrder`, `NativeValue`, `NativeSpelling`, `NativeRoundTrip`,
  `NativeReencode`, `NativeLocality`, `NativeEncoder`, `NativeDecoder`) and its **specialised payload writers**
  (`NativePayloads`, `NativeCommands`, `NativePayloadsRead`).
- **FLOW.QUERY requests** (`FlowQueryRequest`, `NativeFlowQuery`,
  `NativeFlowQuerySize`): from a query and its parameters, through preparation and
  the size computed in advance, to the bytes and back.
- **Chunk reassembly** (`ChunkSpec`, `ChunkHistory`, `ChunkAssembler`). Responses
  that arrive in interleaved chunks, with the switch from a list of parts to a
  growing buffer, and the accounting over all open responses.
- **Automatic batcher** (`AutoBatchSystem`, `AutoBatchInvariants`,
  `AutoBatchGuarantees`, `AutoBatchAnswers`, `AutoBatchProgress`,
  `AutoBatchOwnership`, `AutoBatchScatter`). Admission
  tokens, close lock, flush timer, pipeline slot and drain as a step system, and
  the flattening of mixed batches as an array algorithm.
- **Single-flight connect** (`SingleFlight`, `SingleFlightOutcomes`).
- **FLOW.QUERY results** (`FlowQueryResult`, `FlowQueryWire`, `FlowQueryDecoder`): the typed
  decoder refines the generic one, and both read exactly what a server can write.
- **Query text** (`QuotedText`, `BracketSelector`, `IndexFieldName`,
  `FlowQueryText`, `FlowQueryProjection`, `FlowQueryClause`): quoting, the selector parser and printer,
  the query builder, the RETURN scanner and the sparse projection.
- **Usage size** (`EtfUsage`): the size of a term in the Erlang External Term
  Format, against a reference encoding.

`Bytes`, `Utf8`, `Results`, `Sequences` and `MapSums` are shared helpers.

Three places where the code does less, or other, than one would expect:

- The PIPELINE decoder says nothing about a body once its attempts are used up: the
  ambiguity error is not a verdict on the body. `DecodePipelineResponse` says that
  it takes four announced items and a chain of candidates from the first item that
  reads two claimed jobs, and that every other error means that no parse exists.
  With three items, or with at most one claimed job on every chain, the attempts
  cannot run out (`OneClaimIsDecided`).
- `ProjectFlowQuery` is documented to work on a query without a RETURN clause, and
  a projected query has one. A query that ends inside an open quote hides the
  clause that is appended to it, and so does not show it to a second projection:
  `FROM runs WHERE type = 'x` is projected twice (`OpenQuoteProjected`).
  `ProjectedAgain` says when: a second projection is refused for its RETURN clause
  if and only if the query's quotes are even in number or one of the quoted names
  among the first projection's fields contains the whole word RETURN, which an open
  quote turns outward.
- The batcher's `failRemaining` never has anything to fail: after a terminal error
  the batch stays empty (`AutoBatchInvariants.DispatchKeeps`, whose invariant
  `Batching` says so).

Contexts, clocks and executor results are parameters or free choices of a step:
an expiry, a cancelled request, a dial or a pipeline may succeed or fail at any
time. Channels are modelled by their capacity, and a send that finds no room is
not enabled, so that "no send blocks" is a theorem.

## Model

| member | source | states |
|---|---|---|
| PipelineSearch.NoneMeansNoParse | native_compact_pipeline.go:40-138 | when the plain recursive search finds nothing, no chain of candidates runs to the end of the data within the budget |
| PipelineSearch.SomeMeansFirstParse | native_compact_pipeline.go:40-138 | what it finds is the parse that comes first in depth-first candidate order, with exactly that parse's values |
| PipelineBacktrack.NextCandidate | native_compact_pipeline.go:140-148 | finds the first candidate from an index on that the budget can pay for, or none exists |
| PipelineBacktrack.Advance | native_compact_pipeline.go:98-129 | a decision moves on to a candidate that is affordable and not known to fail; everything skipped leads nowhere |
| PipelineBacktrack.EnterCandidate | native_compact_pipeline.go:98-129 | entering a candidate of the deepest decision keeps the answer that the stack, the stale items and the state stand for |
| PipelineBacktrack.ResumeFrame | native_compact_pipeline.go:98-129 | stale entries beyond the deepest decision's item do not influence the answer |
| PipelineBacktrack.DropDecision | native_compact_pipeline.go:98-129 | an exhausted decision can be dropped and its state memoised as failed |
| PipelineBacktrack.Backtrack | native_compact_pipeline.go:98-137 | resuming keeps the answer, an exhausted stack means there is none, and each resumption is a counted attempt below the cap |
| CompactPipeline.TakeFirst | native_compact_pipeline.go:60-138 | taking the first affordable candidate, and stacking the rest when there is a rest, keeps the answer |
| CompactPipeline.SearchItems | native_compact_pipeline.go:40-138 | the loop's answer is the recursive search's; at most 8*(count+1)+64 attempts, and never more than the branching of the body can cost; the ambiguity error only when that branching exceeds the cap |
| CompactPipeline.ImplausibleCount | native_compact_pipeline.go:40-49 | the check of the announced count rejects only bodies that have no parse |
| CompactPipelineResponse.DecodePipelineResponse | native_compact_pipeline.go:40-138 | a decoded body yields the answers of the first way in which it can have been written, claimed jobs in their first possible form; any error other than the ambiguity error means that it cannot have been written; the ambiguity error takes four items and a reachable chain with two claimed jobs; a body without claimed jobs always yields its answers in order |
| CompactPipeline.DecodeBody | native_compact_pipeline.go:40-138 | the same over the candidates of each offset: the first parse, or none |
| CompactPipeline.OneClaimIsDecided | native_compact_pipeline.go:40-138 | with three items, or at most one claimed job on every chain from the first item, the attempts cannot run out |
| CompactPipeline.AmbiguityTakesClaims | native_compact_pipeline.go:40-138 | conversely, running out takes four items and a chain that reads two claimed jobs |
| PipelineWork.WorkBound | native_compact_pipeline.go:40-138 | the attempts of a search without a memo are at most the items times four for each offset of a chain that parses in more than one way |
| CompactPipelineItems.OnlyClaimsAreAmbiguous | native_compact_pipeline.go:150-275 | an offset has at most four candidates, and more than one only for a claimed job |
| CompactPipelineItems.ItemCandidatesEnd | native_compact_pipeline.go:150-275 | every candidate takes at least two bytes and ends within the data |
| CompactPipelineItems.DecodeClaim | native_compact_pipeline.go:238-288 | the four candidates of a claimed job, in order, with their costs |
| CompactPipelineItems.DecodeOKValues | native_compact_pipeline.go:187-236 | the candidates of each kind of successful item, with the budget each consumed as its cost |
| CompactPipelineItems.DecodeItem | native_compact_pipeline.go:150-185 | the candidates of an item at an offset, labelled with their outcome |
| CompactPipelineWire.ItemIsCandidate | native_compact_pipeline.go:150-329 | every item that stands at an offset (busy, error, each kind of success, each form of a claimed job) is a candidate there, with its answer, end and cost; if it is no claimed job, the only one |
| CompactPipelineWire.CandidatesAreItems | native_compact_pipeline.go:150-329 | every candidate is that of an item whose bytes stand there, the forms of a claimed job in the order state and attributes, attributes, state, neither |
| CompactPipelineResponse.PrecedesIsEarlier | native_compact_pipeline.go:98-129 | the first parse takes the earlier form of the first claimed job on which two readings differ |
| CompactWire.RecordTaken | native_compact_flow_record.go:65-114 | whatever is read as a record is the wire form of fields with distinct names, numbered or extensions, each under the name of its number |
| CompactWire.RecordAt | native_compact_flow_record.go:65-114 | and every such wire form is read, skipping numbers without a name |
| CompactWire.LabelIsName | native_compact_flow_record.go:129-147 | the name of each field number |
| CompactWire.BinaryMapTaken | native_compact_collections.go:117-149 | whatever is read as a binary map is the wire form of pairs with distinct keys |
| CompactWire.EncodedIsNative | native_codec_decode.go:42-151 | what the encoder writes can stand as an embedded value, in its normal form |
| NativeLocality.DecodeAlone | native_codec_decode.go:42-151 | a value is read from its own bytes alone: whatever follows, and under any budget that pays for it |
| CompactReaderLoops.ReadFlowRecord | native_compact_flow_record.go:65-114 | the record reader's loop and shared budget agree with the reading function, errors included |
| CompactReaderLoops.ReadFlowRecordList | native_compact_flow_record.go:35-59 | likewise for record lists |
| CompactReaderLoops.ReadBinaryList | native_compact_collections.go:91-115 | likewise for binary lists |
| CompactReaderLoops.ReadBinaryMap | native_compact_collections.go:117-149 | likewise for binary maps, duplicates refused |
| FlowLaws.PassLaw | native_limits.go:251-291 | a pass over the ready list either grants to one oldest waiter below both limits or leaves the controller saturated |
| FlowLaws.PumpLaw | native_limits.go:251-291 | pumping restores saturation; each lane's grants are its own oldest waiters in order; every grant is below both limits |
| FlowLaws.RemoveKeeps | native_limits.go:203-222 | a waiter that gives up leaves counters, queue lengths and ready list consistent |
| FlowLaws.DeactivateKeeps | native_limits.go:184-201 | returning a credit keeps the total equal to the sum over lanes |
| FlowInterleavings.StepKeeps | native_limits.go:90-344 | every section, in any state, keeps conservation, saturation, queue membership, order and numbering |
| FlowInterleavings.Reachable | native_limits.go:90-344 | every run of every interleaving satisfies them all |
| FlowInterleavings.NoBarging | native_limits.go:114-118 | when the fast path admits a newcomer, nobody waits in its lane |
| FlowGuarantees.FirstInFirstOut | native_limits.go:90-173 | nobody is admitted to a lane while an earlier arrival still waits in it |
| FlowGuarantees.NoLostCredit | native_limits.go:143-201 | when nobody owns a credit any more, every credit is back |
| FlowGuarantees.SettlesOnce | native_limits.go:143-173 | each waiter only moves forward: granted or failed once, a credit that lost the race to a cancellation returned once |
| FlowGuarantees.PumpBypass | native_limits.go:251-291 | during a pump a lane that could be served is passed by at most as often as there are entries ahead of it |
| FlowBypass.BoundedBypass | native_limits.go:90-344 | the same bound over whole runs, whatever is acquired, released, cancelled or re-limited meanwhile |
| FlowLimits.AdmittedWithin | native_limits.go:83-308 | whoever gets a credit leaves its lane within the lane window and the lane queue, and the connection within its limit, as they are in force |
| FlowLimits.BelowIsAdmitted | native_limits.go:114-118 | a newcomer is admitted at once exactly when the controller is open and all three limits leave room |
| FlowLimits.WaitingMeansFull | native_limits.go:251-291 | nobody waits while its lane and the connection have room |
| FlowLimits.LimitsInForce | native_limits.go:293-309 | each limit that an announcement gives is in force, every other limit is as before |
| FlowLimits.FewWait | native_limits.go:119-122 | in every run no more callers wait than may |
| FlowLimits.RefusedOnlyWhen | native_limits.go:100-122 | in every run a newcomer is refused only when closed, at a zero limit, or when exactly as many wait as may |
| FlowLimits.ActionsTakeEffect | native_limits.go:143-201 | a grant is seen or refunded, a cancelled waiter leaves its queue, a credit is given back by its holder, closing fails whoever waits |
| FlowQueue.LaneQueue.Append | native_limits.go:124-139 | the new waiter is last in the doubly linked queue, both directions linked |
| FlowQueue.LaneQueue.Unlink | native_limits.go:235-249 | exactly the given waiter leaves the doubly linked queue |
| FlowQueue.LaneQueue.Take | native_limits.go:224-233 | the first waiter that has not settled, with all before it unlinked |
| FlowQueue.GrantLane | native_limits.go:266-288 | the lane's oldest waiter is granted and signalled once; other lanes are untouched; an empty lane goes away |
| FlowQueue.DropFromLane | native_limits.go:203-222 | the given waiter leaves its lane unsignalled; other lanes are untouched; an empty lane goes away |
| FlowQueue.JoinLane | native_limits.go:124-142 | a new waiter joins the end of its lane, which is opened when needed |
| FlowQueue.FailLanes | native_limits.go:325-341 | every queued waiter of every lane is failed and signalled once |
| FlowController.Controller.constructor | native_limits.go:62-88 | negative limits fall back to 4096, 1024 and 1024, an absent maximum of queued requests to 65536 and a negative one to none; the lane limit is the smaller of window and queue; nothing is active or queued |
| FlowController.Controller.Pass | native_limits.go:251-291 | one pass of the pump is the value pass; the stale entries it guards against never occur |
| FlowController.Controller.Pump | native_limits.go:251-291 | the pump's loops refine the value pump, and each granted waiter has been told once |
| FlowController.Controller.Enter | native_limits.go:90-142 | the first half of acquire against the advertised limits: refusals in the order of their checks, the fast path, or a place at the end of the lane |
| FlowController.Controller.Cancel | native_limits.go:158-173 | a waiter that still queues leaves; one granted meanwhile gives its credit back; one failed changes nothing |
| FlowController.Controller.Release | native_limits.go:184-201 | a credit comes back and whoever may use it is granted it; a lane without credits is left alone |
| FlowController.Controller.UpdateLimits | native_limits.go:293-309 | each limit given and not negative is in force, the others are unchanged, the lane limit is the smaller of window and queue, and the pump runs unless closed |
| FlowController.Controller.Close | native_limits.go:311-344 | every waiter fails once, nobody queues afterwards, closing again changes nothing |
| NativeRoundTrip.RoundTrip | native_codec_decode.go:42-151 | every admissible value, followed by any bytes, decodes to its normal form, leaving exactly those bytes and the budget less its nodes |
| NativeRoundTrip.ListRoundTrip | native_codec_decode.go:85-105 | the list case, its count checks included |
| NativeRoundTrip.ItemsRoundTrip | native_codec_decode.go:85-105 | the items of a list under one shared budget |
| NativeRoundTrip.MapRoundTrip | native_codec_decode.go:106-141 | the map case, for any order in which the entries were written |
| NativeRoundTrip.EntriesRoundTrip | native_codec_decode.go:106-141 | the entries of a map, duplicates refused, on top of those already known |
| NativeReencode.DecodedFits | native_codec_decode.go:42-151 | whatever is decoded is within the encoder's limits and weighs, in bytes and nodes, what was consumed |
| NativeReencode.ReencodedReadsAlike | native_codec_decode.go:18-151 | a decoded value, encoded again and read again, is its normal form, after as many bytes and nodes, whatever the order of its maps' entries was |
| NativeEncoder.WriteValue | native_codec_wire.go:152-225 | a value is written exactly when it is within depth, item and byte limits; the bytes and the budget spent are exact |
| NativeEncoder.WriteArray | native_codec_wire.go:451-467 | likewise for arrays |
| NativeEncoder.WriteMap | native_codec_wire.go:469-505 | likewise for maps, in ascending key order |
| NativeEncoder.EncodeNativeValue | native_codec_wire.go:77-101 | encoding succeeds exactly for the values within the limits and yields their wire form, which spells the value and begins with the tag of its kind |
| NativeDecoder.DecodeValue | native_codec_decode.go:42-151 | the recursion over the unread bytes with a budget decremented in place agrees with the decoding function, errors included |
| NativeDecoder.DecodeNativeValue | native_codec_decode.go:18-40 | the same from a fresh budget; what was consumed spells the value, and the rest is what followed |
| NativeSpelling.EncodedIsSpelled | native_codec_wire.go:152-225 | the encoder spells each value with the tag of its kind, numbers most significant byte first |
| NativeSpelling.DecodedIsSpelled | native_codec_decode.go:42-151 | the decoder accepts nothing but spellings of the value it yields, maps in any order without repeated keys |
| NativePayloads.WriteMGet | native_codec_wire.go:227-265 | MGET writes the bytes of the generic map, under the same limits and budget |
| NativePayloads.WriteMSet | native_codec_wire.go:267-324 | MSET writes the bytes of the generic map, for typed keys and values and for a flat argument list |
| NativeCommands.CommandRoundTrip | native_codec_kv_wire.go:3-41 | the command form, whose fields are not in key order, decodes to the same map as the generic form |
| NativeCommands.WriteKeyCommand | native_codec_kv_wire.go:3-41 | the key-command writer writes that form, under the generic map's limits and budget |
| NativeCommands.WriteKeyValueCommand | native_codec_wire.go:326-371 | likewise for interleaved keys and values; mismatched lengths are refused |
| NativePayloadsRead.TypedMSetSays | native_codec_wire.go:267-324 | the server reads one list of pairs, each key before its own value |
| NativePayloadsRead.UntypedMSetSays | native_codec_wire.go:267-324 | the same for a flat list, in which keys and values take turns |
| NativePayloadsRead.CommandSays | native_codec_kv_wire.go:3-41 | the server reads the command's name and its arguments in order |
| NativePayloadsRead.KeyValueCommandSays | native_codec_wire.go:326-371 | the arguments are each key, then its value |
| NativeFlowQuery.FieldOrderIsSorted | native_flow_query_request.go:124-185 | the fixed order of the fields is the ascending key order, with and without optional fields |
| NativeFlowQuery.WriteFlowQuery | native_flow_query_request.go:124-185 | the FLOW.QUERY writer writes the bytes of the sorted generic map, under the same limits and budget |
| NativeFlowQuerySize.EncodedSize | native_flow_query_request.go:17-95 | the size computed in advance is the number of bytes written; it fails exactly when that exceeds the limit or a parameter is of an unsupported kind |
| FlowQueryRequest.Prepare | flow_query_request.go:40-65 | accepts exactly what may be sent: UTF-8 that is not blank, at most 16384 bytes and 64 parameters, names and values as documented; in whatever order the parameters are walked, lists them in the order of their names |
| FlowQueryRequest.PreparedFits | flow_query_request.go:40-165 | what preparation accepts is within the encoder's limits of depth, length and items and of a kind whose size is known |
| FlowQueryRequest.EncodePayload | native_codec_wire.go:81-102 | the size comes first and is never too small or too large for what is then written; success exactly within all limits |
| FlowQueryRequest.EncodeQuery | native_codec_wire.go:81-102 | a prepared query is refused by the byte limit only, and otherwise yields the bytes of its sorted generic map |
| FlowQueryRequest.RequestReads | native_flow_query_request.go:124-185 | whoever decodes those bytes reads exactly the prepared query |
| FlowQueryRequest.RequestSays | native_flow_query_request.go:124-185 | the server reads the query, its language version, its deadline if positive and each parameter under its name |
| FlowQueryRequest.PreparableMeans | flow_query_request.go:84-165 | the checks of text, names and values against the letters, lengths and ranges that they allow |
| FlowQueryRequest.AllSpaceIsBlank | flow_query_request.go:88-90 | a text counts as empty exactly when it is made of Unicode white space |
| ChunkSpec.ReceiveKeeps | native_frame.go:71-164 | buffered bytes and frames stay the sums over the open responses and within the maxima |
| ChunkSpec.AcceptedWhen | native_frame.go:71-150 | a frame is accepted exactly when it has no flag but trace, custom payload, warning, compressed and more-chunks, agrees with its own response in mode, trace, custom payload and warning, and everything buffered fits: the per-response limits refuse nothing more |
| ChunkHistory.Reassembly | native_frame.go:71-164 | in every run a completed response is the chunks of its own key since the last completion, in arrival order, with their flags and mode |
| ChunkHistory.CompletedFlags | native_frame.go:113-160 | a completed response has each flag that one of its frames has, except more-chunks, and its trace, custom payload and warning are those of every frame |
| ChunkHistory.Conservation | native_frame.go:71-164 | what was delivered and what is open are together the key's own bytes, none lost, repeated or mixed in |
| ChunkHistory.OthersDoNotMatter | native_frame.go:84-112 | frames of other keys make no difference to a response |
| ChunkHistory.Accounting | native_frame.go:113-150 | the accounting holds throughout every run |
| ChunkAssembler.ChunkState.Compact | native_frame.go:170-184 | the parts give way to one buffer with the same bytes, at most as large as a response may be |
| ChunkAssembler.ChunkState.Extend | native_frame.go:186-207 | appending keeps the bytes in order; a second buffer is of the largest size, so there is no third |
| ChunkAssembler.Assembled | native_frame.go:149-155 | the parts end to end, copied into one buffer |
| ChunkAssembler.TakeChunk | native_frame.go:112-140 | one response takes the chunk in; the other open responses and their buffers are untouched |
| ChunkAssembler.BuffersBounded | native_frame.go:166-207 | a response has a buffer exactly from the threshold on, has used at most two, and none exceeds the maximum |
| ChunkAssembler.Assembler.Add | native_frame.go:71-164 | the assembler in place refines the value assembler: same outcome for every frame, and same state unless it refuses |
| AutoBatchInvariants.AdmitTokens | auto_batch_pipeline.go:79-119 | callers keep free, held and queued slots equal to the queue size |
| AutoBatchInvariants.AdmitLocking | auto_batch_pipeline.go:107-119 | under the close lock nobody sends once the batcher is closed, so nothing more is accepted |
| AutoBatchInvariants.DispatchKeeps | auto_batch.go:215-237 | dispatching a request, in the loop or in the drain, keeps batch, timer, answers and barrier in order |
| AutoBatchInvariants.FilterKeeps | auto_batch.go:298-311 | requests whose context is done are answered and left out, the others keep their order |
| AutoBatchInvariants.StepKeeps | auto_batch.go:152-411 | every action, in any state, keeps all invariants |
| AutoBatchInvariants.Reachable | auto_batch.go:152-411 | every run of every interleaving satisfies them |
| AutoBatchGuarantees.ExactlyOneAnswer | auto_batch.go:165-364 | when the executor is done, each accepted request has got exactly one answer |
| AutoBatchGuarantees.NoSecondAnswer | auto_batch.go:298-364 | at no time has a request two answers, and only accepted requests have one |
| AutoBatchGuarantees.AnswersStand | auto_batch.go:298-364 | no action takes an answer back or changes it |
| AutoBatchGuarantees.FlushIsABarrier | auto_batch_pipeline.go:121-137 | a flush request is answered only after everything accepted before it |
| AutoBatchGuarantees.OnePipeline | auto_batch.go:312-346 | at most one pipeline executes, even after a flush stopped waiting for it |
| AutoBatchGuarantees.ExecutedInOrder | auto_batch.go:298-364 | whatever pipelines got is an accepted command, not a flush, at its place in the order of acceptance, at most once and in that order |
| AutoBatchGuarantees.HeadIsTimed | auto_batch.go:256-295 | at the loop's head the timer runs exactly when there is a batch, and the batch is not full |
| AutoBatchGuarantees.SendsNeverBlock | auto_batch_pipeline.go:79-119 | whoever is about to send a request, a queue slot or the pipeline slot finds room |
| AutoBatchGuarantees.NothingAcceptedAfterClose | auto_batch.go:152-163 | once closed, no run accepts another request |
| AutoBatchGuarantees.DrainIsFinal | auto_batch.go:204-249 | once the drain has found nothing queued, nothing is ever queued again |
| AutoBatchGuarantees.DrainNeverGrows | auto_batch.go:204-249 | every step of the draining loop brings it closer to its end and no other step sets it back |
| AutoBatchGuarantees.DrainCanFinish | auto_batch.go:204-249 | from every state of the drain the loop can reach its end by itself |
| AutoBatchGuarantees.OnlyTheDoneAreDropped | auto_batch.go:298-308 | a request of the batch whose context is done is told so and not sent, every other one goes on to a pipeline |
| AutoBatchGuarantees.FirstCloseErrorStands | auto_batch.go:402-411 | the first error noted for Close is never replaced |
| AutoBatchGuarantees.CleanClose | auto_batch.go:204-211 | when Close reports no error, no pipeline is executing any more |
| AutoBatchAnswers.EveryAnswerHasAReason | auto_batch.go:195-364 | a flush request hears the drain's terminal error, or its flush's error, or that everything was flushed; a command hears its own result, its flush's error, that its context was done, or the terminal error |
| AutoBatchAnswers.FlushFailsExactlyWhen | auto_batch.go:212-311 | a flush request is told an error exactly when its flush ended with it or it is the drain's terminal error |
| AutoBatchAnswers.FlushedMeansFlushed | auto_batch.go:298-364 | no action tells a flush request of success and fails a command, other than one whose own context was done |
| AutoBatchAnswers.FailedFlushIsTold | auto_batch.go:312-364 | a flush that ends with an error tells it to everything it sent and to whoever asked for it |
| AutoBatchAnswers.AnswersAreExplained | auto_batch.go:152-411 | in every run each answer was given by an action for the reason that it names |
| AutoBatchAnswers.CloseReturns | auto_batch.go:195-250 | Close returns the error of the first flush that fails after closing, or of waiting for the last pipeline, and nothing else |
| AutoBatchProgress.SubmissionSucceeds | auto_batch_pipeline.go:79-119 | while the batcher is open and has a free slot a request can be accepted, as the next in order, whatever else goes on |
| AutoBatchProgress.CommandIsServed | auto_batch.go:212-363 | a command that comes to a batcher at rest can be accepted, sent and answered with what its pipeline returned |
| AutoBatchProgress.CloseCanComplete | auto_batch.go:152-250 | from every state of every run Close can signal and the loop can reach its end: nothing is ever stuck |
| AutoBatchOwnership.OwnResults | auto_batch.go:318-363 | each value answers the request at its own position of the pipeline that returned it; late results never reach another batch |
| AutoBatchScatter.OwnRange | auto_batch_kv_request.go:83-102 | each request's commands are at its own range of the flat pipeline, ranges end to end |
| AutoBatchScatter.Layout | auto_batch_kv_request.go:56-102 | the flat commands, and a policy flag for each: its own request's, absent when all may queue |
| AutoBatchScatter.Scatter | auto_batch_kv_request.go:113-128 | each request gets exactly its own range of the flat results |
| AutoBatchScatter.Execute | auto_batch_kv_request.go:49-164 | a single typed request is executed directly when the executor can; otherwise one pipeline gets all commands, its errors pass through, a wrong number of results is refused and the results are scattered |
| AutoBatchScatter.MixingIsInvisible | auto_batch_kv_request.go:49-129 | an executor that answers each command for itself, typed or in a pipeline, answers each request as if it were alone |
| SingleFlight.StepKeeps | native_connection.go:15-133 | every section keeps waiter counts, the single attempt, and the account of transports |
| SingleFlight.Reachable | native_connection.go:15-133 | in every run: one current attempt at most, none while connected, counts equal callers waiting, nobody stranded, abandoned attempts never installed |
| SingleFlight.NothingNewAfterShutdown | native_connection.go:41-44 | once closed or retiring, no attempt is started and no transport installed |
| SingleFlight.ClosedStaysDisconnected | native_connection.go:107-133 | a closed executor never has a connection again, in any run |
| SingleFlight.NoLeak | native_connection.go:107-133 | when everything has settled, each opened transport is the connection or closed, never both |
| SingleFlight.CallersShareOneAttempt | native_connection.go:41-66 | two callers without a connection wait for one and the same attempt |
| SingleFlight.ReleaseCounts | native_connection.go:84-98 | a caller that leaves is no longer counted, and is counted out once |
| SingleFlightOutcomes.ConnectedExactlyWhen | native_connection.go:19-40 | a caller is connected exactly when it looks in time and finds a connection that is not going away |
| SingleFlightOutcomes.RefusedExactlyWhen | native_connection.go:20-82 | a caller is refused exactly when its context is done, when there is no connection and the executor is closed or retiring, or when the attempt it waited for failed |
| SingleFlightOutcomes.SettledForAReason | native_connection.go:15-83 | in every run whoever is connected found a connection, and whoever is refused had one of these reasons |
| SingleFlightOutcomes.CompletedExactly | native_connection.go:107-133 | an attempt fails exactly when nothing was opened, it is no longer current, or the executor is closed or retiring; otherwise it is the connection |
| SingleFlightOutcomes.EndedForAReason | native_connection.go:107-133 | in every run each attempt that ended was told rightly whether it failed |
| SingleFlightOutcomes.WaiterIsConnected | native_connection.go:65-133 | whoever waits in time for the current attempt is connected by its success |
| SingleFlightOutcomes.FlagsExactlyWhen | native_connection.go:84-133 | closing and retiring take effect, last and cancel the current attempt; a connection goes away only by its end or by closing, and is then shut |
| FlowQueryResult.FastRefinesSlow | native_flow_query_typed_codec.go:15-105 | whatever the typed decoder accepts, generic decoding and validation accept with the same result |
| FlowQueryResult.SlowIsFast | flow_query_response.go:24-147 | and conversely when every text field is nil or a binary |
| FlowQueryResult.TextIsDecoded | native_flow_query_typed_codec.go:187-225 | the typed reader of a text field accepts what the generic reader and the conversion accept, at the same cost |
| FlowQueryResult.FieldsFromAgree | native_flow_query_typed_codec.go:143-177 | the fields of a record read alike, field by field, under one budget |
| FlowQueryResult.HeadIsValid | native_flow_query_result_codec.go:57-82 | whatever the header can hold passes the slow path's checks of quality and usage |
| FlowQueryResult.CountersMeaning | flow_query_response.go:216-231 | the guards against overflow compare the counters as if they had no width |
| FlowQueryDecoder.ReadRecordAt | native_flow_query_typed_codec.go:143-177 | the record loop with its moving offset and shared budget agrees with the reading function |
| FlowQueryDecoder.ReadHeader | native_flow_query_result_codec.go:57-82 | the header's loops agree with the reading functions |
| FlowQueryDecoder.ConvertRecordMaps | flow_query_response.go:91-125 | text fields converted in place, field by field, are those of the converted record, or the first that cannot be converted refuses all |
| FlowQueryDecoder.DecodeGeneric | native_flow_query_result_codec.go:84-162 | the generic decoder, whose checks come in another order, agrees with the decoding function, and reads exactly the results that a server can write as what they say |
| FlowQueryDecoder.DecodeTyped | native_flow_query_typed_codec.go:15-105 | the typed decoder's loops agree with the decoding function, and read exactly the results that a server can write as what they say, text as text |
| FlowQueryWire.WrittenIsRead | native_flow_query_result_codec.go:57-162 | each named counter, quality code, cursor, field bit, field and count is read from its place in the written form |
| FlowQueryWire.ReadIsWritten | native_flow_query_typed_codec.go:15-177 | whatever is accepted, typed or generic, is such a form and passes the result's checks |
| FlowQueryWire.BitIsMember | native_flow_query_result_codec.go:196-220 | the bits of a record's bitmap are the places of its fields |
| FlowQueryWire.TextFieldsByName | flow_query_response.go:19-22 | the places that the typed decoder reads as text are those of the names that the conversion looks up |
| QuotedText.ContainsReturn | flow_query_projection.go:206-232 | the scanner finds a RETURN exactly when a whole word RETURN stands after an even number of quotes |
| QuotedText.ReturnLetters | flow_query_projection.go:223-240 | the word in any case, made of letters, digits and underscores |
| QuotedText.QuotedNameIsInvisible | flow_query_projection.go:242-251 | between any two texts, the first with its quotes closed, a quoted name neither hides nor adds a RETURN, and leaves quotes closed |
| BracketSelector.TakeName | flow_query_index_contract.go:303-323 | one quoted name up to its closing bracket, or there is none |
| BracketSelector.Parse | flow_query_index_contract.go:292-329 | the parser accepts exactly the printed selectors with the root and number of names asked for |
| BracketSelector.RoundTrip | flow_query_index_contract.go:292-365 | parsing what was printed gives the names back, whatever they contain |
| BracketSelector.PrintInjective | flow_query_index_contract.go:357-365 | no two lists of names with the same root print alike, whatever their lengths |
| IndexFieldName.SpellingIsUnambiguous | flow_query_index_contract.go:349-365 | no two selectors with the same root have the same spelling, dotted or in brackets, with as many names or not |
| IndexFieldName.SpelledOut | flow_query_index_contract.go:349-365 | the two spellings of an attribute and of a state_meta field, letter by letter |
| IndexFieldName.PlainLetters | flow_query_index_contract.go:331-348 | the names that are written with dots |
| IndexFieldName.FieldKind | flow_query_index_contract.go:269-290 | a name is an attribute or state_meta field exactly when it is the canonical spelling of valid names |
| IndexFieldName.NamesApart | flow_query_index_contract.go:269-290 | no name is of two kinds |
| FlowQueryText.QueryBuilder.WriteMetadataName | flow_query_builder.go:175-185 | copying piece by piece doubles exactly the quotes |
| FlowQueryText.QueryBuilder.AddMetadataEquality | flow_query_builder.go:62-80 | the predicate, its separator, the printed selector and the parameter |
| FlowQueryText.SelectorIsClean | flow_query_builder.go:69-80 | bracketed names appended to a query leave it outside quotes and without a RETURN |
| QuotedText.OpenName | flow_query_projection.go:206-251 | after an open quote, a quoted name shows the scanner exactly the whole words RETURN of the name, and the quote stays open |
| FlowQueryProjection.CollectSelectors | flow_query_projection.go:121-136 | the fields' selectors in order, or the first field that is none, of another source, or a repetition |
| FlowQueryProjection.Project | flow_query_projection.go:107-150 | every check in its order, and the clause appended to the stripped query |
| FlowQueryProjection.StrippedReads | flow_query_projection.go:152-163 | stripping the terminator and the blanks changes nothing of what the scanner finds, nor the number of quotes |
| FlowQueryClause.ProjectedText | flow_query_projection.go:141-163 | a projected query reads: the query between blanks and before its one semicolon, RETURN, the shape and the selectors in parentheses |
| FlowQueryClause.SelectorText | flow_query_projection.go:75-103 | the selectors of dynamic fields, letter by letter |
| FlowQueryClause.SourceIsNamed | flow_query_projection.go:165-181 | an accepted query begins with FROM and the source it is taken for |
| FlowQueryProjection.ProjectedReads | flow_query_projection.go:107-150 | the scanner finds a RETURN in a projected query if and only if the query's quotes are closed or a quoted name contains the word |
| FlowQueryProjection.ProjectedAgain | flow_query_projection.go:105-150 | a second projection is refused for its RETURN clause exactly in these cases, and otherwise appends a second clause |
| FlowQueryProjection.OpenQuoteProjected | flow_query_projection.go:105-150 | a query from a valid source that is projected twice |
| EtfUsage.IntegerSize | flow_governance_contract.go:263-279 | the size of an integer's reference encoding, the most negative one included |
| EtfUsage.BigIntegerReads | flow_governance_contract.go:263-279 | a big integer of the reference encoding has at most eight digits, which its one length byte counts, and reads back with its sign |
| EtfUsage.SizesByKind | flow_governance_contract.go:93-211 | the size of each kind of term, lists of up to 65535 bytes as strings |
| EtfUsage.NodesByKind | flow_governance_contract.go:93-211 | a list costs a node for each cell and one for its end, a map one for each key and one for itself |
| EtfUsage.PortableByKind | flow_governance_contract.go:93-211 | an item lies as deep as the cells before it, a value one level below its map, and 64 levels are allowed |
| EtfUsage.UsageValidation.Value | flow_governance_contract.go:93-211 | a term is measured exactly when it is portable and within the node budget, and its size is that of its reference encoding |
| EtfUsage.UsageValidation.ListValue | flow_governance_contract.go:149-184 | the list case: byte lists as strings, each cons cell a level and a node |
| EtfUsage.UsageValidation.MappingValue | flow_governance_contract.go:123-148 | the map case |
| EtfUsage.ValidateUsage | flow_governance_contract.go:55-72 | usage is accepted exactly when portable, small enough in nodes and in encoded bytes |
| EtfUsage.RewalkedAlike | flow_governance_contract.go:93-211 | terms that differ in the walk order of any of their maps, at any depth, are alike portable at every depth and have the same nodes and encoded bytes |
| EtfUsage.WalkOrderDoesNotMatter | flow_governance_contract.go:132-147 | usage is accepted or refused alike in whatever order its maps, nested ones included, are walked |

## Left out

- Sockets, TLS, handshake frames, deadlines, heartbeats, the HTTP executor, and decoding of an assembled response body: opening a transport is a step that succeeds or fails, and a completed body is handed on as it is.
- Error message texts; FLOW.QUERY results are accepted or refused without saying which error it was.
- Reflection, pointers and reference cycles: values are trees, and floats are their eight bytes. The visit stack of the usage validation is a count, proved never to reach its capacity.
- `String` methods of application values in usage terms: such a value is modelled as the binary it becomes.
- Chunk parts keep no alias to the frame they came in: a frame's body is a value.
- The counters of the flow controller, of usage sizes and of the batcher are unbounded integers; they are bounded by what fits in memory.
- Waiters' channels are a flag that is set once; waking up is a separate step of the step system.
- A lane's place in the ready list is found by its lane, not through a list element that the lane's queue points to.
- FlowSystem: the ready list, queues and grants of one section are one step, as the mutex makes them.
- ChunkAssembler.Assembler.Add: says nothing of the assembler after a refusal, because the connection ends with it.
- AutoBatchSystem: blocking commands, which bypass the batch, and the preparation of arguments, which either succeeds or returns the slot.
- SingleFlight: waiting for a server that is going away is a caller that stays at the head of its loop; the connection generation counter is not modelled.
- FlowQueryRequest.Prepare: when several parameters are refused, it does not say which of them is named, since they are walked in the map's own order.
- Which executors offer a typed method, and what such a method sends, is a parameter of AutoBatchScatter.
- The names inside dynamic projection fields are arbitrary here; that their constructors make them of valid names only is not needed.
- IndexFieldName.FieldKind: the rest of the index contract, field by field checks that one reading settles.
- The envelope of a generic FLOW.QUERY result is a record, not a map looked up by name.
- How a caller fills its own result slice after a refused or partly prepared explicit pipeline: three assignments and a loop that marks the rest as not executed.
- The other compact readers (GET, MGET, OK lists, claim lists), command builders, option and opcode tables, and the client methods above the transport: they would only add easy members.
- The high-level claim that a server follows these protocols: the server is not in the repository.

# SafetyHub, modelled and proved in Dafny

SafetyHub is a relay in front of OpenAI-compatible model services. It scans and desensitizes requests,
archives exchanges as training conversations, limits concurrency, reports on traffic and manages API keys.
This project models the parts of it whose correctness is hardest to see from the code, and proves what they
are for. `dafny verify dfyconfig.toml` checks the whole project.

| file | what it models |
|---|---|
| Options, Text, Json, JsonPrefix | missing values, Python's string operations, JSON texts and their reader |
| Coverage, CoverageStore | training-data coverage analysis and cleanup: the laws, and the code over mutable rows |
| Relay, Leaves | which texts of a request are scanned and desensitized: the recursive passes, and the same path by path |
| PhoneMask, PhoneNumbers | the phone patterns: the matcher and its substitution, and what a number is without them |
| Training, Replies | how a chat's turns become nested stored trajectories, and which exchanges are stored with which reply |
| Gate, ConcurrencyLimit | the `/v1` concurrency gate: the protocol, and the middleware object |
| ArchiveQueue | the archive queue with its consumer and its stop |
| SseStream, SseBreaks, SseClient, SseReading, StreamArchive | event streams: produced, read back, read in chunks, taken apart, recorded |
| Calendar, ReportPeriods, Trend, TrendColumns | report periods, week dates, trend buckets and what their rows say |
| ApiKeys | the API key service beside a key provider |

A protocol with several tasks is a state machine: one step is what one task does between two awaits, a run is
any interleaving of steps from the initial state, and a class whose methods are those steps stands beside it.
Code that changes rows, fields or arrays in place is a class or a method with loops, proved against functions
and relations about which the laws are then proved.

## Findings

Where the code falls short of what it is for, the project says exactly when.

- The verification client normalizes "\r\n" again in text that it carried over. Chunks then change what it
  reads if and only if the stream holds "\r\r\n" with more text behind it (`SseClient.ChunkingExact`).
- `json.dumps(..., ensure_ascii=False)` leaves U+0085, U+2028 and U+2029 raw, and `splitlines` breaks there. A
  stand-in stream reads back if and only if its content is empty, or neither its content nor its model name,
  which the client chooses, holds one of them (`SseBreaks.RoundTripExact`). The verification client, which cuts
  at line feeds only, reads the same stream right whatever it holds (`SseReading.ClientReadsStandIn`).
- Masking an international number can make a new one, out of digits in front of it and the digits that the mask
  leaves, as in "+1234567 +8613812345678" (`PhoneNumbers.MaskMakesNumber`). Nothing else is left: every
  international number that desensitized text shows has a character that a mask wrote
  (`PhoneNumbers.NoInternationalSurvives`).
- A key provider's create checks the secret before the `try` whose handler takes the key back: a missing secret,
  or one shorter than eight characters, leaves an upstream key that nobody refers to
  (`ApiKeys.OrphanedExactly`, `ApiKeys.OrphanReachable`).
- `stop` of the archive queue is released when the count of unfinished items reaches zero and does not look
  again: an item accepted between that moment and the return of `stop` is left behind, and the next `stop` then
  waits until the queue is started anew (`ArchiveQueue.StopReturnExact`, `ArchiveQueue.LaterStopBlocked`,
  `ArchiveQueue.LateItemLeft`).

## Model

| member | source | states |
|---|---|---|
| Coverage.IsPrefixTrajectory | storage/data_governance.py:228-229 | the prefix test: non-empty, strictly shorter, equal as far as it goes |
| Coverage.BatchStepIsDeterministic | storage/data_governance.py:189-212 | the declarative account of a batch leaves no freedom: it fixes the table after the batch |
| Coverage.WinnerStaysUncovered | storage/data_governance.py:192-211 | a row that is named as a coverer is itself uncovered when the batch is over |
| Coverage.BatchPreservesInvariant | storage/data_governance.py:189-212 | a batch keeps: every covered row has an uncovered, analyzed, longer row of its group, and every row that an analyzed one extends is covered |
| Coverage.InsertPreservesInvariant | storage/training.py:78-88 | inserting pending rows with larger ids keeps it |
| Coverage.CleanupPreservesInvariant | storage/training.py:159-172 | deleting a covered row keeps it |
| Coverage.ReachableInvariant | storage/data_governance.py:129-212 | it holds in every state that inserts, batches and covered-only cleanups reach, in any order |
| Coverage.CoveredMeaning | storage/data_governance.py:189-212 | in such a state a row is covered if and only if an analyzed later row of its group properly extends it |
| Coverage.CoverageIsExact | storage/data_governance.py:129-212 | once all rows are analyzed, a row is covered if and only if some later row of its user and key properly extends its trajectory |
| Coverage.CoverageIndependentOfBatching | storage/data_governance.py:129-171 | batch size, limits, split into jobs and interleaved inserts have no influence on which rows are covered |
| Coverage.NothingIsLost | storage/training.py:159-172 | whatever row the table ever held is still there, or its trajectory is a proper prefix of one that is, under the same user and key |
| Coverage.OneBatchNamesLargest | storage/data_governance.py:192-211 | one batch over a fresh table: a covered row names the largest-id row that extends it, which is itself uncovered |
| Coverage.OneBatchCoversExactly | storage/data_governance.py:192-211 | the same batch covers exactly the rows that some row extends |
| CoverageStore.PendingFrom | storage/data_governance.py:144-151 | the pending rows after the cursor, in id order, at most as many as the limit, and none left out in between |
| CoverageStore.Candidates | storage/data_governance.py:215-225 | exactly the uncovered earlier rows of the user and key, in descending id order |
| CoverageStore.CandidateStillOpen | storage/data_governance.py:203-210 | a candidate is still uncovered when its turn comes: the already-covered branch of the loop is dead |
| CoverageStore.VisitSkips | storage/data_governance.py:196-202 | skipping a covered row, or one too short to extend anything, changes no outcome |
| CoverageStore.VisitMarks | storage/data_governance.py:202-211 | going down a group, a visit turns the result for the rows visited so far into the result with one more coverer |
| CoverageStore.BatchAdvancesCursor | storage/data_governance.py:144-165 | after a batch everything up to its last id is analyzed and nothing beyond it newly so, and the cursor has moved |
| CoverageStore.FinishedJobIsExact | storage/data_governance.py:129-186 | a job that leaves no row pending, after any history, has covered exactly the extended rows |
| CoverageStore.JobIsChain | storage/data_governance.py:129-186 | the commits of a job are steps of the runs that the laws are about |
| CoverageStore.CleanupIsChain | storage/training.py:159-172 | so are the deletions of a cleanup |
| CoverageStore.GroupByKey | storage/data_governance.py:191-193 | the dictionary of groups: every member under its user and key, in batch order, keys listed once |
| CoverageStore.Store.Insert | storage/training.py:78-88 | a new row is last, pending and uncovered, and no other row changes |
| CoverageStore.Store.MarkCandidate | storage/data_governance.py:203-210 | one turn of the candidate loop, in place on the row objects |
| CoverageStore.Store.MarkCandidates | storage/data_governance.py:202-211 | the candidate loop marks every uncovered earlier row of the group that the row extends, and counts them |
| CoverageStore.Store.VisitConversation | storage/data_governance.py:196-211 | one turn of the loop over a group |
| CoverageStore.Store.MarkGroup | storage/data_governance.py:193-211 | a whole group, in descending id order with its skip set |
| CoverageStore.Store.MarkCoveredByGroup | storage/data_governance.py:189-212 | the nested loops compute the declarative result: each uncovered row gets the largest-id batch member that extends it, and the count is the growth of the covered set |
| CoverageStore.Store.RunBatch | storage/data_governance.py:153-165 | marking and setting to analyzed together are one declarative batch, and both counts are exact |
| CoverageStore.Store.Restore | storage/data_governance.py:166-171 | a rolled-back session leaves the committed table |
| CoverageStore.Store.RunSession | storage/data_governance.py:139-165 | one iteration: drained only when nothing is pending after the cursor, committed with exact counts and a cursor that moved strictly, or raised with the table unchanged |
| CoverageStore.Store.Turn | storage/data_governance.py:138-168 | one turn of the loop: time, then the job row, then the session; a turn that leaves the loop leaves the table as it was and says why |
| CoverageStore.Store.RunIterations | storage/data_governance.py:129-168 | the loop: every turn that goes on commits, and the table after them all is a chain of committed batches |
| CoverageStore.Store.ExecuteCoverageJob | storage/data_governance.py:129-186 | the whole job: exactly the iterations that begin in time, find the job running and raise nowhere commit, each as many rows as batch size and limit allow; the next one says why the job ended; the cursor strictly increases; the counters are exact, and after a failure run ahead by the last batch at most |
| CoverageStore.JobStatusExact | storage/data_governance.py:141-175 | limited, stopped, failed, completed and timeout, each if and only if the limit, the clock, the job row, the faults and the rows left pending say so |
| CoverageStore.UndisturbedJobFinishes | storage/data_governance.py:129-175 | never asked to stop, never late and without a fault, a job ends with every row analyzed or after exactly as many rows as it may process |
| CoverageStore.StoppedAtOnce | storage/data_governance.py:141-143 | a job that finds itself stopped or gone at once commits nothing and ends stopped |
| CoverageStore.Store.CleanupCovered | storage/training.py:159-172 | deletes covered rows only, the oldest first, exactly as many as the clamped limit and the covered rows allow |
| Relay.BodyMember | proxy/relay.py:587-598 | of a request body only the `messages` list changes |
| Relay.DesensitizeInPlace | proxy/relay.py:587-598 | the loop that rewrites the copied list desensitizes message by message |
| Relay.PartsCommute | proxy/relay.py:601-619 | the texts extracted from desensitized content are the desensitized texts of the content, however deeply it nests |
| Relay.LatestTextCommutes | proxy/relay.py:692-701 | the latest desensitized text comes from the very message whose text was scanned |
| Relay.ExtractLatestText | proxy/relay.py:692-701 | the backward loop returns the text of the last scanned message that has any |
| Relay.OthersUntouched | proxy/relay.py:587-598 | messages that are not the client's pass through unchanged |
| Relay.DesensitizeConcat | proxy/relay.py:587-598 | desensitizing is per message |
| Relay.MessagesUnambiguous | proxy/relay.py:601-619 | desensitizing repeats no key of a dictionary |
| Leaves.ContentMasked | proxy/relay.py:601-619 | of content, exactly the strings at content paths are masked, at whatever depth; every other leaf is where and what it was |
| Leaves.MessageMasked | proxy/relay.py:584-598 | so it is for the `content` of a message of a user, a tool or a function, whose other members stay |
| Leaves.MessageScannedExactly | proxy/relay.py:692-725 | a text of a message is scanned if and only if the role is user, tool or function, the text is not empty, and a path in `content` leads to it through no part with a text of its own |
| Leaves.LatestExactly | proxy/relay.py:692-701 | the text that is scanned is that of the last message with any, its texts one below the other |
| PhoneNumbers.InternationalExact | proxy/relay.py:581 | the backtracking matcher hits at a place if and only if an international number, `+` or `00`, country code and eight to thirteen grouped digits, starts there, and takes the longest one |
| PhoneNumbers.NumberDesensitized | proxy/relay.py:622-649 | a text that is one international number becomes its first three digits, four stars and its last four |
| PhoneNumbers.CnInText | proxy/relay.py:580 | in a text, a 1, a digit from 3 to 9 and nine digits are hit if and only if no digit stands beside them |
| PhoneNumbers.CnDesensitized | proxy/relay.py:622-649 | a text that is one CN number keeps its first three and last four digits around four stars |
| PhoneNumbers.FirstMatchMasked | proxy/relay.py:622-626 | a pass copies up to the first match, masks it, and goes on behind it |
| PhoneNumbers.NoInternationalSurvives | proxy/relay.py:622-626 | every international number that the output still shows has a character that a mask wrote: none of the text's own is left |
| PhoneNumbers.MaskMakesNumber | proxy/relay.py:622-649 | texts whose second number, masked, makes a new one of the digits in front of it |
| PhoneMask.GroupsDigits | proxy/relay.py:579-582 | a greedy backtracking match of the international pattern spans at least eight digits |
| PhoneMask.MatchShape | proxy/relay.py:644-649 | a match of either pattern starts and ends at the edge of a digit run, and its mask is three digits, stars, four digits |
| PhoneMask.NoCnNumberLeft | proxy/relay.py:622-626 | desensitized text holds no match of the CN phone pattern |
| PhoneMask.CnPassPointwise | proxy/relay.py:622-626 | the CN pass changes the four middle digits of each number and nothing else |
| PhoneMask.CnPassIdempotent | proxy/relay.py:622-626 | doing the CN pass twice is doing it once |
| PhoneMask.DesensitizeKeepsEmptiness | proxy/relay.py:622-626 | desensitizing neither empties a text nor fills an empty one |
| Training.NormalizeMessagesLoop | storage/training.py:255-267 | the loop with its skips builds the normalized list |
| Training.NormalizeConcat | storage/training.py:255-267 | normalizing distributes over concatenation of message lists |
| Training.NormalizeTextIdempotent | storage/training.py:284-285 | normalizing a text twice is normalizing it once |
| Training.NormalizeContentIdempotent | storage/training.py:274-281 | so it is for nested content with sorted keys |
| Training.NormalizeItemsIdempotent | storage/training.py:255-267 | and for whole message lists: stored messages that a client sends back are stored unchanged |
| Training.StoredTurnIs | storage/training.py:195-222 | what is stored for a turn: its normalized messages and then its reply, neither empty |
| Training.NonStreamReply | storage/training.py:229-252 | the reply of an archived response that was not streamed is the text of its first choice |
| Replies.ReplyExact | storage/training.py:229-252 | a reply is extracted if and only if the response says it: not cut off, and what the stream collector gathered or, that being nothing, what the first choice of the archived completion says |
| Replies.StreamedReply | proxy/relay.py:330-341 | of the object that the stream collector writes, the reply is the normalized text of its events, and nothing when the archive cut the stream off |
| Replies.MessageStored | storage/training.py:255-267 | a message with a role is stored with that role, stripped, and its normalized content; one without is not stored |
| Replies.ContentNormalized | storage/training.py:274-281 | normalizing content normalizes the strings in it, at whatever depth, and leaves every other leaf where and what it was |
| Replies.NormalizedIs | storage/training.py:284-285 | normalized text is the text with its line ends replaced, between its blank ends |
| Replies.StoredExactly | storage/training.py:195-226 | a payload becomes a conversation if and only if it is a chat passed on or desensitized and not blocked, some message of its prompt has a role, and its response says something |
| Replies.TurnStored | storage/training.py:195-226 | so a turn of a chat is stored if and only if some message that was sent has a role and the response says something |
| Replies.StoredReply | storage/training.py:195-222 | and its trajectory then ends with what the response says |
| Training.TurnsNest | storage/training.py:195-222 | when a turn sends what the turn before sent, its reply, and perhaps more, the earlier stored trajectory is a proper prefix of the later |
| Training.ChatNests | storage/training.py:195-222 | the stored trajectories of a chat are nested, any earlier one in any later one |
| Training.ParseSerialized | storage/data_governance.py:232-237 | the coverage job parses a serialized trajectory back to what was serialized |
| Training.StoredTurnReadsBack | storage/data_governance.py:232-237 | so what is stored for a turn whose messages repeat no key is read back unchanged |
| Training.EarlierTurnsCovered | storage/data_governance.py:189-229 | end to end: requests desensitized, normalized, stored as text and analyzed leave every turn of a chat but the last covered |
| Training.LastTurnKept | storage/data_governance.py:189-229 | the last turn stays uncovered unless a row outside the chat extends it |
| Json.LoadsDumps | storage/training.py:288-298 | `json.loads` gives back what `json.dumps` wrote, with either pair of separators |
| Json.LoadsUnambiguous | storage/training.py:288-294 | what is loaded never repeats a key, whatever the text did |
| JsonPrefix.ProperPrefixFails | proxy/relay.py:361-364 | a proper prefix of an object's text does not parse |
| Gate.StepPreservesInvariant | middleware/concurrency_limit.py:46-96 | every step keeps the gate's counters, its limits, and that no waiter sleeps beside a slot nobody is coming for |
| Gate.ReachableInvariant | middleware/concurrency_limit.py:46-96 | these hold in every reachable state |
| Gate.GateSafe | middleware/concurrency_limit.py:46-96 | inflight and queued count exactly the requests with a slot and in the queue, stay within their limits, and the clamps at zero never change a value |
| Gate.ServedOrRejectedOnce | middleware/concurrency_limit.py:46-64 | a request calls the application at most once and gives its slot back once, or is rejected once and never calls it |
| Gate.StepAnswers | middleware/concurrency_limit.py:46-96 | a step adds to a request's log exactly its own admission, its own refusal (full queue, time up without a free slot) or its own release |
| Gate.StepMoves | middleware/concurrency_limit.py:66-96 | where a step takes its request: a slot when admitted, the queue when it has to wait, and out otherwise |
| Gate.EverybodyAnswered | middleware/concurrency_limit.py:46-96 | a request that arrived, is out of the gate and was not cancelled was served once, or told 429 once and never served |
| Gate.DrainingEnds | middleware/concurrency_limit.py:66-96 | without arrivals the gate comes to rest within a bounded number of steps |
| Gate.NeverStuck | middleware/concurrency_limit.py:66-96 | as long as a request is in the gate, a woken one can go on or a served one can finish |
| Gate.EverybodyGetsThrough | middleware/concurrency_limit.py:46-96 | so from any reachable state, arrivals stopping, everybody gets out |
| Gate.LossyLeaveExact | middleware/concurrency_limit.py:74-96 | a waiter that leaves with its notification strands another if and only if somebody sleeps and no more are notified than slots are free |
| Gate.LossyLeaveStrands | middleware/concurrency_limit.py:74-96 | a run in which that happens, so the forwarding by `asyncio.Condition` is needed |
| ConcurrencyLimit.Middleware.constructor | middleware/concurrency_limit.py:26-44 | limits clamped to at least one slot and no negative queue |
| ConcurrencyLimit.Middleware.Enter | middleware/concurrency_limit.py:66-89 | a request up to its first wait is the arrival step: a slot, a full queue, an expired wait, or a place in the queue |
| ConcurrencyLimit.Middleware.Wake | middleware/concurrency_limit.py:74-96 | a woken request takes a slot, is rejected as expired, or sleeps again |
| ConcurrencyLimit.Middleware.GiveUp | middleware/concurrency_limit.py:83-96 | a timeout rejects the request, once, takes it out of the queue and passes a notification on |
| ConcurrencyLimit.Middleware.Exit | middleware/concurrency_limit.py:58-64 | the slot is given back and the oldest waiter notified, however the application ended |
| ArchiveQueue.WrittenConserves | runtime/archive_queue.py:81-94 | every item of a batch is written, skipped or lost, and a raising archive writer takes the batch's audits with it |
| ArchiveQueue.WrittenExact | runtime/archive_queue.py:81-94 | the counts are those of the items so treated: an archive is skipped exactly when capture is off, an audit never; an audit is written exactly when its writer does not raise and no archive writer raised before it; the rest is lost |
| ArchiveQueue.StepPreservesInvariant | runtime/archive_queue.py:39-111 | every step keeps the books of the queue and of a stop under way |
| ArchiveQueue.Conservation | runtime/archive_queue.py:39-111 | accepted items are, in order, those whose batch is over, the current batch and the queue; none is counted twice; the join count is what has not been reported done |
| ArchiveQueue.StopReturnExact | runtime/archive_queue.py:47-54 | a stop that waited returns with an accepted item unhandled if and only if one was accepted after the count reached zero, the consumer not having been started anew |
| ArchiveQueue.StopAtOnce | runtime/archive_queue.py:47-54 | with a consumer, a stop does not wait if and only if everything is handled |
| ArchiveQueue.StopWaitsForAll | runtime/archive_queue.py:47-54 | with nothing enqueued since it began, a stop returns only when every accepted item is handled |
| ArchiveQueue.StopDrains | runtime/archive_queue.py:47-54 | a stop that waits for a live consumer is released within a bounded number of the consumer's steps, with everything handled |
| ArchiveQueue.LaterStopBlocked | runtime/archive_queue.py:47-54 | with the consumer gone, a later stop is blocked if and only if an accepted item was left unhandled |
| ArchiveQueue.BlockedStays | runtime/archive_queue.py:47-54 | a blocked stop stays so, whatever is done short of a new start, and after an abandoned batch even then |
| ArchiveQueue.GatheringIsLost | runtime/archive_queue.py:47-111 | a consumer started anew while a stop waited loses the batch it is gathering when that stop resumes, and every later stop is blocked |
| ArchiveQueue.LateItemLeft | runtime/archive_queue.py:47-79 | a run in which a stop leaves an accepted item behind and the next stop is blocked |
| ArchiveQueue.StopWithoutTask | runtime/archive_queue.py:47-50 | a stop before the first start returns at once and leaves the items where they are |
| ArchiveQueue.Queue.constructor | runtime/archive_queue.py:22-37 | sizes of at least one |
| ArchiveQueue.Queue.StartConsumer | runtime/archive_queue.py:41-45 | starting does nothing while the consumer lives |
| ArchiveQueue.Queue.RequestStop | runtime/archive_queue.py:47-54 | a stop up to its wait, and whether it waits |
| ArchiveQueue.Queue.Put | runtime/archive_queue.py:70-76 | true exactly when there was room, and the item is then last in the queue; counted as dropped otherwise |
| ArchiveQueue.Queue.GetFirst | runtime/archive_queue.py:99-101 | the oldest item begins a batch |
| ArchiveQueue.Queue.Fill | runtime/archive_queue.py:102-111 | left alone, the batch grows in queue order until it is full or the queue is empty |
| ArchiveQueue.Queue.WriteBatch | runtime/archive_queue.py:79-94 | a batch is written item by item as its kind, the capture switch and the writers have it, and all of it reported done, whichever writer raises |
| SseStream.FakeStreamRoundTrip | proxy/fake_response.py:52-73 | the recorded stand-in stream reads back as the content it was made from, for plain content, id and model name |
| SseStream.WriteOneLine | proxy/fake_response.py:64-72 | a written payload without wide breaks stays on one line |
| SseStream.EventParts | proxy/relay.py:351-376 | one event contributes exactly its delta's text |
| SseStream.ExtractMessageContent | proxy/relay.py:351-376 | the loops over lines and choices compute the extraction |
| SseReading.LineByLine | proxy/relay.py:351-376 | the text of a stream is taken line by line, whether lines end in a line feed, a carriage return or both |
| SseReading.LineGives | proxy/relay.py:354-375 | a data line whose payload is an object with a list of choices gives what the choices give, in order |
| SseReading.LineSpeaks | proxy/relay.py:354-375 | and a line that gives anything is such a line |
| SseReading.ChoiceGives | proxy/relay.py:367-375 | a choice gives the text of its delta and then that of its message, each if it is there |
| SseReading.ChunkReadsBack | proxy/fake_response.py:54-72 | a reader of JSON finds in an event of the stand-in stream the id, time, model and choice that were put there |
| SseReading.SlicesOfTwo | proxy/fake_response.py:55-56 | the slices sent have two characters each, but for the last one of an odd content |
| SseBreaks.DeltaSilent | proxy/relay.py:351-376 | an event with a wide break in its delta or its model name is lost altogether, and none of its pieces contributes |
| SseBreaks.RoundTripExact | proxy/fake_response.py:52-73 | the stream reads back if and only if the content is empty, or neither content nor model name holds U+0085, U+2028 or U+2029 |
| SseClient.FeedStep | verify/verify_chat_stream.py:158-172 | one more chunk is the same as one parse of all the text so far, if that holds no "\r\r\n" |
| SseClient.SplitContinues | verify/verify_chat_stream.py:179-192 | a split into blocks goes on from its remainder |
| SseClient.ChunkingExact | verify/verify_chat_stream.py:158-192 | every cut into chunks gives the blocks and the remainder of one parse if and only if no "\r\r\n" has text behind it |
| SseClient.CutAfterLosesOne | verify/verify_chat_stream.py:158-172 | a cut right behind "\r\r\n" always changes the outcome |
| SseClient.Receive | verify/verify_chat_stream.py:147-172 | the receive loop with its carried buffer, empty chunks skipped |
| SseClient.ReceiveStream | verify/verify_chat_stream.py:147-172 | on such streams the loop delivers the events of the whole stream |
| SseReading.SplitShape | verify/verify_chat_stream.py:179-183 | a split cuts at every blank line: none is left in a block or behind the last |
| SseReading.JoinLines | verify/verify_chat_stream.py:187 | lines put together come apart again |
| SseReading.OneDataLine | verify/verify_chat_stream.py:187-189 | a line that begins with `data:` gives what follows, stripped; any other gives nothing |
| SseReading.BlockDelivers | verify/verify_chat_stream.py:185-191 | a block delivers the values of its data lines one below the other, and nothing when it has none |
| SseReading.CollectFragments | verify/verify_chat_stream.py:158-172 | the loop over the events collects what each adds, and raises when one does |
| SseReading.FragmentExact | verify/verify_chat_stream.py:195-202 | the text taken from an event is what the delta of the first choice says |
| SseReading.FragmentRaises | verify/verify_chat_stream.py:195-202 | an exception escapes exactly when choices, their first, or its delta is there and cannot be looked into |
| SseReading.ClientReadsStandIn | verify/verify_chat_stream.py:147-205 | whatever the content, id and model name say, and however the stream is cut, the client collects the slices of the content in order, with nothing left over |
| StreamArchive.Collector.Add | proxy/relay.py:321-328 | the collector keeps the first bytes of the stream so far, and counts exactly |
| StreamArchive.Collector.Finish | proxy/relay.py:330-341 | what is kept is the prefix up to the limit, the counts are exact, and truncated means that bytes were left out |
| StreamArchive.ArchiveBody | proxy/relay.py:344-348 | the archive is a function of the bytes of the stream alone |
| StreamArchive.RecutKeepsArchive | proxy/relay.py:344-348 | cutting a chunk in two anywhere changes nothing |
| Calendar.FromToOrdinal | storage/reports.py:177-220 | dates and day ordinals determine each other |
| Calendar.MonthLengths | storage/reports.py:177-220 | long and short months alternate, July and August both long, and February makes up the difference |
| ReportPeriods.Anchored | storage/reports.py:177-182 | instant 0 is eight o'clock, local time, on Thursday, 1 January 1970 |
| Calendar.HasWeekExact | storage/reports.py:206-211 | a year has a week, as the week date asks for it, if and only if that week's Thursday lies in the year |
| Calendar.ThursdayWeek | admin/static/js/app.js:946-953 | the week number counted from a Thursday names, as an ISO week, the Monday before it |
| Calendar.MondayIsoCalendar | storage/reports.py:186-192 | Python's week date of a Monday is the script's week of its Thursday, across year ends |
| ReportPeriods.PeriodReadsBack | storage/reports.py:177-220 | the label of a daily, weekly or monthly period names that very period |
| ReportPeriods.LastCompletePeriod | storage/reports.py:177-199 | a report covers the last complete period: it ends by the moment of reference, and is the same for every moment of the current period |
| ReportPeriods.PeriodsMeet | storage/reports.py:177-199 | consecutive periods meet without gap or overlap |
| ReportPeriods.IsoWeekValue | admin/static/js/app.js:946-953 | the script's value for a date names the Monday-to-Monday week that contains the date |
| Trend.LabelOrderIsTimeOrder | storage/reports.py:223-231 | bucket labels sort as strings exactly as their buckets follow in time, and are equal exactly for one bucket |
| Trend.BucketsFollowTime | storage/reports.py:223-231 | later moments fall into later buckets, within one day for daily reports |
| Trend.Gather | storage/reports.py:234-246 | the two loops put every audit and every sample under its own label |
| Trend.SortedNames | storage/reports.py:247-248 | the labels in strictly increasing string order, none missing |
| Trend.BuildTrend | storage/reports.py:234-256 | one row for each label in use, in label order, each about exactly what falls under its label |
| Trend.TrendConserves | storage/reports.py:234-256 | the rows' events add up to the audits and their blocked counts to the blocked audits |
| Trend.StatsInOrder | storage/reports.py:259-266 | minimum, average and peak of a series are in order under any monotone rounding |
| TrendColumns.LabelSpellsStart | storage/reports.py:223-231 | a label spells the first moment of the ten minutes, two hours or day that holds the instant |
| TrendColumns.RowSamples | storage/reports.py:242-246 | the samples of a row are those whose moment has its label, each in its turn |
| TrendColumns.RowSummarizes | storage/reports.py:247-266 | a row counts the audits under its label and the blocked ones among them; its CPU, queue and archive columns are each the rounded least and greatest value, both attained, and the rounded mean of that field |
| ApiKeys.StepPreservesInvariant | governance/api_keys.py:109-313 | every database transaction and provider call keeps the table sound |
| ApiKeys.KeysDistinct | governance/api_keys.py:149-175 | in every reachable table SafetyHub keys differ, hashes are the keys', and a record that is not decoupled sends its client's key upstream |
| ApiKeys.RecordForLife | governance/api_keys.py:232-298 | from any state to any later one a record keeps its hash, key and upstream id, never goes back from revoked or decoupled, and disappears only after it was revoked |
| ApiKeys.FoundByItsKey | governance/api_keys.py:228-230 | a raw key finds a record if and only if it is the record's SafetyHub key, surrounding whitespace aside |
| ApiKeys.CreateExact | governance/api_keys.py:109-183 | a manual create stores a record if and only if the key is long enough, the database commits, and the reused key, or one of ten drawn ones, is new |
| ApiKeys.CreatedIsFound | governance/api_keys.py:149-175 | the key of a record just stored finds it |
| ApiKeys.CreatedRecord | governance/api_keys.py:109-183 | what a manual create stores: the payload stripped, the given key or the first unused draw, its hash and prefix, active, and decoupled exactly when the two keys differ |
| ApiKeys.UpdateExact | governance/api_keys.py:262-284 | an update renames where it says something, blanks aside, and changes nothing else |
| ApiKeys.OrphanedExactly | governance/api_keys.py:116-147 | the three ways, and no other, in which a step leaves an upstream key that no record and no create in progress refers to |
| ApiKeys.OrphanReachable | governance/api_keys.py:116-130 | a run in which a missing secret leaves one |
| ApiKeys.NoOrphans | governance/api_keys.py:116-260 | with a provider that keeps its word, every live upstream key belongs to a create in progress or to a record that is not revoked |
| ApiKeys.FoundForBulk | governance/api_keys.py:331-348 | an identifier names a record if and only if it is its id; failing that, when it looks like a key, its key; and failing that, the key prefix of it alone |
| ApiKeys.RowAnswer | governance/api_keys.py:300-313 | a row of a bulk replacement is answered by whether its record is found and its new key has eight characters |
| ApiKeys.LookupsStay | governance/api_keys.py:300-313 | replacing keys changes no lookup, so the rows of a bulk replacement do not see each other |
| ApiKeys.ApiKeyService.CreateManual | governance/api_keys.py:109-114 | the new key is shown unless it is the one that was given |
| ApiKeys.ApiKeyService.CreateFromProvider | governance/api_keys.py:116-147 | a failed create leaves the upstream key live exactly when the secret was missing or short, the key has no id, or the provider did not withdraw it |
| ApiKeys.ApiKeyService.Revoke | governance/api_keys.py:232-249 | the provider is asked exactly for keys it handed out, and, only if it does not raise, the record is revoked; nothing else changes |
| ApiKeys.ApiKeyService.DeleteRevoked | governance/api_keys.py:251-260 | only a revoked record is deleted |
| ApiKeys.ApiKeyService.ReplaceUpstreamKey | governance/api_keys.py:286-298 | the upstream key becomes the given one, stripped, and the record is decoupled from then on; a short key changes nothing |
| ApiKeys.ApiKeyService.BulkReplace | governance/api_keys.py:300-313 | each row is answered as on the table before the call, and each record ends with the key of the last row that names it |

## Left out

- Assumption on `asyncio.Condition` (middleware/concurrency_limit.py:83-92): a notified waiter that leaves by timeout or cancellation passes its notification on; `Gate.LossyLeaveStrands` shows why it is needed.
- Coverage.IsPrefixTrajectory: compares structurally and with key order, while Python's list equality identifies `True` with `1`, `1` with `1.0`, and ignores key order; stored content has its keys sorted, but its booleans and numbers can still be told apart here and not there.
- Json.LoadsDumps: has no floats, no escapes that are halves of a surrogate pair, and no `NaN`; a dictionary that repeats a key cannot be written.
- CoverageStore.Store.ExecuteCoverageJob: two workers racing for the running-job check (storage/data_governance.py:94-104) and the job row's own columns are not modelled; the clock is non-decreasing.
- CoverageStore.Store.CleanupCovered: expired cleanup, which can delete uncovered rows, is not modelled; equally old rows go in id order, which the query leaves open.
- CoverageStore.Store.Insert: ids come one by one and conversation ids, random in the source, are new and not empty.
- Training.EarlierTurnsCovered: rules do not change during a chat; a role that is a list or a dictionary, which raises `TypeError`, is not modelled.
- PhoneMask.NoCnNumberLeft: is about the two built-in patterns; patterns from the rules file are only assumed to map text to text. `\d` is any class that holds 0 to 9 and not the star, plus or blank.
- Gate.GateSafe: queue-wait times and response headers, and a task cancelled while it re-acquires the lock, are not modelled; arriving and leaving by cancellation are.
- ArchiveQueue.StopWaitsForAll: at most one `stop` is under way at a time; cancellation reaches the consumer before it runs again.
- SseBreaks.RoundTripExact: is about ids without wide breaks, as the source makes them from hexadecimal digits; a model that is not a string is not modelled.
- SseClient.ReceiveStream: works on characters; how a byte chunk that splits a UTF-8 sequence is decoded is not modelled, nor is what the client prints; a fragment that is not a string is collected as it is.
- StreamArchive.Collector.Finish: decoding the kept bytes to text is not modelled.
- ReportPeriods.PeriodReadsBack: the local zone is eight hours ahead for dates from 1993 to 9998, without the daylight saving times of earlier years, and values whose period would end after 9999-12-31, which raise, are not told apart; labels that are read have canonical form, while the source also accepts blanks, signs and full timestamps, for which a daily period does not start at midnight.
- Trend.StatsInOrder: is over exact reals; with binary floats three samples of 0.045 would show a rounded average above the rounded peak, but stored samples are already rounded to two decimals (runtime/reports.py:129) or whole numbers.
- ApiKeys.KeysDistinct: ciphertexts stand for what they decrypt to and the digest is a function, injective where a lemma says so; record ids and upstream ids are never handed out twice.
- ApiKeys.RecordForLife: departments, cost centres, expiry times and the other descriptive columns are not modelled; name and owner stand for them.
- ApiKeys.ApiKeyService.BulkReplace: is one call that nobody interrupts; a record deleted between the lookup and the replacement, which the source reports as replaced, is not modelled.
- The scanners, the rules file, the HTTP relay and its headers, image archiving, the key providers' own calls, login, the admin pages, report files and scheduling are input and output, or easy.

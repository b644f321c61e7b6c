# A verified model of the monitoring agent's core

The agent keeps a connection to a broker that asks it for metrics: it dials the broker, reads framed
commands, and answers each CONNECT with the metrics of the host, cut into frames. Metrics come from
plugins, from StatsD packets, from the kernel's tables and from other conduits, and carry stream
tags. This project models that logic in Dafny and proves what it keeps over all inputs, runs and
schedules.

How it is organised, one module a file:

- `Common`, `Texts`, `Base64`: results, sequences, ASCII strings (splitting, joining, byte order,
  sorting), and base64 (section 4 of RFC 4648).
- `Frames`, `Responses`, `Commands`: the binary frames, the chunking of a response, reading and
  classifying commands.
- `Pipeline`: the reader goroutine, the processor goroutine and the consumer of one connection, as a
  step relation with one step per channel hand-off, read, processing or test of the context.
- `Backoff`, `Connections`, `Supervisor`: the retry machine, the Connection object proved against all
  of the above, and the loop that refreshes the configuration and finds the owner of the check.
- `Tags`, `TagMerge`: canonical stream tags, and merging tags into metric names.
- `IOLatency`, `Plugins`, `HostTags`, `Brokers`, `Statsd`, `FanIn`, `MdArrays`: the block-I/O tracker,
  the plugin run protocol, the merge of host tags, broker selection, the StatsD line grammar, the
  collection of metrics from the conduits, and the timings of software RAID arrays.

Functions give the meaning; classes and methods have the form of the program and are proved equal to
them; lemmas state what the program is for. What comes from outside (the bytes of the network and how
they are delivered, how writes go, what fetching the metrics brings, how dialling goes, the replies
of brokers, the clock, random steps, the order of a map) is a parameter, so that every theorem is for
all of it.

Beside the laws, lemmas state what the functions they are about give for the bytes, characters, replies
and times themselves (as `Commands.CounterIsOfTheReads`, `Supervisor.FirstWordDecides` or
`Tags.NormalisingIs`), so that no law is only about the model's own names.

Where the code does something else than its documentation or its names suggest, the model follows
the code, a lemma gives an input, and the exact condition is proved:

- `sendMetricData` advances by what was written, header included, so each full frame skips six bytes
  of data: a response arrives whole exactly if it has at most 65529 bytes
  (`Responses.LosslessIff`); advancing by the payload would lose nothing (`Responses.IntendedFramesLossless`).
- A tolerated timeout leaves the stream at the command that was to be read exactly if nothing of it
  had been handed over (`Commands.ToleratedTimeout`), and then loses nothing
  (`Commands.TimeoutBeforeACommand`). Otherwise the next read starts inside a frame, or at the request
  of a CONNECT that is forgotten (`Commands.TimeoutForgetsAConnect`).
- No command is ever fatal (`Commands.Classification`), so that Start never fails fatally
  (`Connections.StartOverPipelines`); and the search for the owner never names an
  instance that has no configuration, so that the branch for it is never taken (`Supervisor.FromTheStart`).
- `cleanupTables` looks through the issues but deletes from the inserts
  (`IOLatency.CleanupKeepsIssues`): an insert that has not aged is dropped exactly if the issue under
  its key has (`IOLatency.CleanupDropsIff`, `IOLatency.CleanupLosesAFreshInsert`).
- Each block of plugin output replaces the metrics of the block before, so that a blank line at the
  end leaves none (`Plugins.BlankEndLeavesNothing`, `Plugins.LastBlockIsAllIff`).
- `MergeTags` drops a name without stream tags (`TagMerge.MergeForgetsThePlainName`), and the second
  of two merges without any valid tag drops the base (`TagMerge.MergeTwiceLosesTheBase`). Merging a
  plain tag with its encoded form lists it twice (`TagMerge.MergeMayRepeat`), which is when, and only
  when, plain tags merged into encoded ones are repeated (`TagMerge.NameRepeatsIff`).
- Encoding tags again may reorder them (`Tags.ReencodingMayReorder`), exactly if sorting by plain text
  had not sorted the encoded elements (`Tags.ReencodingOfTags`); any text settles after two passes
  (`Tags.ReencodingIsStable`).
- A part that starts like an encoded one is taken as it is, commas included, and then falls apart where
  the list is split (`Tags.CommaIsSplit`, `TagMerge.CommaMergedTwice`). An encoding is read back exactly
  if no tag has such a part (`Tags.EncodingSplitsIff`); a second pass or a second merge keeps the set of
  elements exactly under the conditions of `Tags.ReencodingKeepsTheSetIff` and
  `TagMerge.SecondMergeIsIdleIff`.
- Updating the host tags twice is idle exactly if every new tag has a colon and new tags of one
  category are equal (`HostTags.SecondUpdateIsIdleIff`).
- New host tags of one category that differ can change the bundle and change it back
  (`HostTags.ChangedBack`). The bundle is sent exactly when its tags changed, whatever they are, if and
  only if the new tags agree or one has no colon (`HostTags.FlagIsRightIff`).
- Two brokers with one CID can make the selection fail though an enterprise broker is among the fastest
  (`Brokers.SameCIDLosesEnterprise`): with such a broker it succeeds exactly if one is the last of its
  CID (`Brokers.ChoiceSucceedsIff`), as it always is with distinct CIDs (`Brokers.DistinctKeepEnterprise`).
- The owner found among clustered brokers depends on the order of a map unless the replies name one
  owner at most, and none beside a failed request (`Supervisor.OwnerDoesNotDependOnOrderIff`).
- Nested arrays make the emitted disk timings depend on the order of a map
  (`MdArrays.OrderIrrelevantIffFlat`).

## Model

| member | source | states |
|---|---|---|
| Frames.BuildFrame | internal/reverse/connection/frame.go:24-37 | the buffer filled in place holds the frame's encoding: flagged channel id, big-endian length, payload |
| Frames.HeaderRoundTrip | internal/reverse/connection/frame.go:79-95 | decoding the first six bytes of any encoded frame gives its id masked to 15 bits, its flag and its length, and the rest is the payload |
| Frames.HeaderBytes | internal/reverse/connection/frame.go:24-37 | the layout byte by byte: the low 15 bits of the id under the flag, then the length, high bytes first, then the payload |
| Frames.UniqueDecoding | internal/reverse/connection/frame.go:24-95 | the encoding is prefix-free: equal streams start with the same frame and go on with the same rest |
| Frames.TakeBytesExact | internal/reverse/connection/frame.go:107-129 | under any delivery a read gives exactly the bytes asked for, or an error that used up fewer: never a partial payload |
| Frames.ReadOutcomes | internal/reverse/connection/frame.go:107-129 | which result a read gives: the bytes exactly if all were handed over, the error of the call exactly if none was, a short read otherwise |
| Frames.Reader.ReadBytes | internal/reverse/connection/frame.go:107-129 | one Read call on the stream, with its result, error cases and the bytes it leaves |
| Frames.Reader.ReadFrame | internal/reverse/connection/frame.go:40-76 | header, length check and payload read from the stream in place, every error case included |
| Frames.TakeFrameFromStream | internal/reverse/connection/frame.go:40-76 | a frame at the head of a stream is read whole, or an error leaves the stream inside that frame |
| Frames.FrameStreamRoundTrip | internal/reverse/connection/frame.go:24-129 | decoding any concatenation of frames under any delivery gives back those frames (ids masked), in order and consuming exactly their bytes, up to the first error |
| Frames.PromptStreamIsRead | internal/reverse/connection/frame.go:40-129 | if every Read call brings all it is asked for, all frames of the stream are read |
| Frames.OversizedIsRefused | internal/reverse/connection/frame.go:51-53 | a frame longer than 65529 bytes is refused after its header |
| Responses.Outbound.SendMetricData | internal/reverse/connection/metrics.go:18-62 | the loop over offsets writes the response's frames one by one until the first failed write, and reports whether all were written |
| Responses.WritesAPrefix | internal/reverse/connection/metrics.go:44-47 | a response is written whole exactly if the link takes as many writes as it has frames; otherwise its beginning is |
| Responses.FailedWriteLeaves | internal/reverse/connection/metrics.go:44-47 | what a response that could not be written whole leaves on the wire: its frames before the failed write, and what the link took of that one |
| Responses.DataOrAnEmptyObject | internal/reverse/connection/metrics.go:19-23 | what is sent is the data, byte for byte, and without data the two bytes of an empty JSON object |
| Responses.FramesAreWellFormed | internal/reverse/connection/metrics.go:27-30 | every frame of a response is non-command, carries the channel id, and has 1 to 65529 bytes of payload, whatever is added to the offset besides |
| Responses.FramesClosedForm | internal/reverse/connection/metrics.go:27-50 | frame i exists exactly if 65535*i is within the data, and carries the data from there, 65529 bytes at most |
| Responses.SurvivingBytes | internal/reverse/connection/metrics.go:27-50 | exactly which bytes arrive: all but the six behind each stretch of 65529 |
| Responses.LosslessIff | internal/reverse/connection/metrics.go:27-50 | the payloads put together are the data exactly if the data fit one frame |
| Responses.IntendedFramesLossless | internal/reverse/connection/metrics.go:17-18 | advancing by the payload length gives back the data for every size |
| Responses.ResponseOnTheWire | internal/reverse/connection/metrics.go:18-62 | read back by the other side, a response is non-command frames of the asking channel, and the data exactly if they fit one frame |
| Commands.TimeoutsAreCounted | internal/reverse/connection/command_reader.go:34-118 | after any number of commands the timeout counter is the number of timed-out frame reads since the last whole frame or the connect |
| Commands.CounterIsOfTheReads | internal/reverse/connection/command_reader.go:34-118 | stated on the results of the frame reads alone: after n commands, n to 2n reads are done and the counter is how many at the end of them timed out in a row |
| Commands.SeventhTimeoutResets | internal/reverse/connection/command_reader.go:42-55 | from a broker that stays silent six commands are ignored and every one from the seventh on resets |
| Commands.CommandNames | internal/reverse/connection/connection.go:94-95 | the bytes of the two command names |
| Commands.Classification | internal/reverse/connection/command_processor.go:30-61 | a processed command is ignored, resets, is skipped or is answered, each exactly for what was met on the stream; timeouts reset from the seventh in a row on; nothing is fatal |
| Commands.AnswersCarryTheirChannel | internal/reverse/connection/command_reader.go:69-114 | a command without error is a CONNECT with its own channel id, its request and the fetched metrics |
| Commands.PromptCommands | internal/reverse/connection/command_reader.go:34-118 | from a promptly delivered stream of frames exactly the commands in those frames are read |
| Commands.TimedOutFrame | internal/reverse/connection/frame.go:40-63 | a timed-out frame read leaves the stream at the frame exactly if nothing of it was handed over, else at its payload |
| Commands.ToleratedTimeout | internal/reverse/connection/command_reader.go:34-97 | where a tolerated timeout leaves the stream: at the command exactly if it came before any of its bytes, else inside its frame, at the request of its CONNECT, or inside that |
| Commands.TimeoutBeforeACommand | internal/reverse/connection/command_reader.go:37-55 | a tolerated timeout before a command loses none: all commands that follow promptly are read |
| Commands.TimeoutForgetsAConnect | internal/reverse/connection/command_reader.go:77-97 | a tolerated timeout between a CONNECT and its request forgets the CONNECT and reports its request as out of place |
| Pipeline.InvStep | internal/reverse/connection/command_processor.go:13-28 | no step of reader, processor or consumer breaks the invariant of the pipeline |
| Pipeline.PipelineRefinement | internal/reverse/connection/command_processor.go:13-28 | in every interleaving the results Start receives are processCommand mapped over the commands read, in order, at most two on the way |
| Pipeline.WireOutput | internal/reverse/connection/connection.go:163-230 | in every interleaving the output is that of the sequential program on the commands handled, which ended with a reset or a failed write exactly if the connection did, and never fatally |
| Pipeline.PlayWritesAnswers | internal/reverse/connection/connection.go:168-221 | the sequential program writes the answers, each whole and in order and none missing, up to the first result that ends it: a reset, or an answer whose write failed, which alone may be cut |
| Pipeline.OnlyAnswersAreWritten | internal/reverse/connection/connection.go:168-221 | end to end, in every interleaving: behind the introduction exactly the answers to the commands handled; if the last of them ended the connection, to all others and, when it is an answer whose write failed, some of its bytes |
| Pipeline.AnsweredWithItsOwnMetrics | internal/reverse/connection/command_processor.go:42-60 | the i-th command puts bytes on the wire only as a CONNECT with a non-empty request and fetched metrics, and then the frames of those metrics under its own channel id |
| Pipeline.ScheduleIndependence | internal/reverse/connection/connection.go:163-221 | of two schedules of one connection, the one that handled fewer commands has written a prefix of what the other wrote |
| Pipeline.ResetComes | internal/reverse/connection/command_reader.go:34-118 | on every stream some command is the first to reset the connection, at the latest when nothing more is delivered |
| Pipeline.WritesNeeded | internal/reverse/connection/connection.go:168-212 | of results that do not end the connection by themselves a write fails if and only if the link takes fewer writes than their answers have frames |
| Pipeline.UncancelledRunsAnswerAll | internal/reverse/connection/connection.go:138-230 | with enough writes every schedule that nobody cancels is over after a bounded number of steps, all three stopped, and has then answered every command before the first reset |
| Pipeline.PromptBrokerIsAnswered | internal/reverse/connection/connection.go:163-221 | with a prompt broker every uncancelled schedule that can go no further has answered the broker's commands up to the first reset among them, or all |
| Pipeline.NeverStuck | internal/reverse/connection/command_reader.go:17-32 | until reader, processor and Start have all stopped one of them can move |
| Pipeline.StopsAfterCancellation | internal/reverse/connection/command_reader.go:17-32 | after cancellation at most 48 steps remain in any schedule, and when none can be taken all three have stopped |
| Backoff.BackoffBounds | internal/reverse/connection/connection.go:234-284 | over every run: at most three attempts; at most min(3, max(1, limit)) dials between sends; each sleep within [a, min(10, 6a-5)] seconds; at most 18 seconds asleep between sends |
| Backoff.RetryStaysInRange | internal/reverse/connection/connection.go:236-284 | what one connect does to the attempts and the delay stays within those bounds |
| Backoff.BoundsAreReached | internal/reverse/connection/connection.go:236-277 | a run that never gets through dials three times, sleeps 18 seconds and asks for a check refresh: the bounds are tight |
| Backoff.ConnectSleepsAndDials | internal/reverse/connection/connection.go:236-284 | one connect sleeps exactly before a retry that the limit allows, and dials exactly at the first attempt or after such a sleep that was not cancelled, unless three more attempts have failed; its events, attempts, delay and result |
| Backoff.DialsUpToTheLimit | internal/reverse/connection/connection.go:236-277 | in a run a connect that is not cancelled gives up without dialling if and only if all dials allowed since the last send have been made |
| Backoff.ServedIffConnected | internal/reverse/connection/connection.go:146-161 | the phases of Start: a connection is served exactly after a dial that got through, and a cancelled context ends a connect exactly where it would sleep |
| Backoff.NextDelayIs | internal/reverse/connection/connection.go:324-343 | the delays: a step of 1 to 6 seconds more, at most 10 seconds, and 1 second after 10 |
| Connections.Connection.GetNextDelay | internal/reverse/connection/connection.go:324-343 | the next delay for any random step, within 1 to 10 seconds from a delay within them |
| Connections.Connection.Connect | internal/reverse/connection/connection.go:234-321 | connect takes exactly one step of the retry machine; a connection is idle with no timeouts counted |
| Connections.Connection.ResetConnectionAttempts | internal/reverse/connection/connection.go:346-353 | a successful send clears attempts and delay |
| Connections.Connection.ReadCommand | internal/reverse/connection/command_reader.go:34-118 | reading a command in place: the stream, the timeout counter and the command are those of the specification |
| Connections.Connection.ProcessCommand | internal/reverse/connection/command_processor.go:30-61 | the fields of the command assigned step by step come out as the specification's, whose meaning Commands.Classification proves |
| Connections.Connection.Consume | internal/reverse/connection/connection.go:168-221 | the loop over results writes what the sequential program writes, ends as it ends, and records one send for each response, which alone clear the attempts and make the connection active |
| Connections.AnsweredIsCounted | internal/reverse/connection/connection.go:203-221 | the sends a connection records are the answers among the results it handled before the one that ended it |
| Connections.AnsweringClearsTheAttempts | internal/reverse/connection/connection.go:346-353 | after a connection with a recorded send attempts and delay are those of a new one, and the next connect dials at once, whatever the limit; after any other they stay |
| Connections.AnAnswerClears | internal/reverse/connection/connection.go:203-221 | the same from the results: an answer that was sent without ending the connection is enough |
| Connections.Connection.Start | internal/reverse/connection/connection.go:138-230 | whatever the turns bring: the whole run, the output of every connection and the returned error, also when the context is done after a reset, are those of the specification, and the bounds of the retry machine hold |
| Connections.StartOverPipelines | internal/reverse/connection/connection.go:138-230 | over any number of turns, each connection served by its pipeline in any schedule: the outputs are those of exactly the connections Start got, in order, up to the turn that finishes it; it goes on after a reset unless the context is done, and returns otherwise as the pipeline ended, never a fatal error |
| Connections.RoundTold | internal/reverse/connection/connection.go:168-229 | one connected turn: its output is what the pipeline wrote, and Start returns for a failed write, for a cancelled context, or not at all, as the pipeline ended |
| Connections.FatalResultEndsStart | internal/reverse/connection/connection.go:180-192 | were a result marked fatal, Start would return a fatal error at once |
| Supervisor.ConfigsAreTheLast | internal/check/reverse.go:31-66 | one configuration for each CN, that of the last URL resolving to it |
| Supervisor.ConfigsAreWellKeyed | internal/check/reverse.go:52-58 | every configuration is stored under its own CN, and there are some when all URLs resolve |
| Supervisor.RefreshedIs | internal/check/reverse.go:25-71 | a refresh succeeds exactly if there is a broker with URLs and all of them resolve, and gives for each CN the configuration of its last URL |
| Supervisor.Check.SetReverseConfigs | internal/check/reverse.go:18-71 | the configurations are set exactly if there is a broker, there are URLs and all resolve; otherwise they are cleared and an error returned |
| Supervisor.FindPrimaryBrokerInstance | internal/check/reverse.go:75-178 | the owner found is a key of the map, and is the sole one or the first named by an instance before any failed request |
| Supervisor.FirstWordDecides | internal/check/reverse.go:90-178 | on the replies themselves: time-outs, unusable replies and redirects without a host are passed over; the first other reply decides, an owner naming itself, a redirect the host it points to, which must be configured, and a failed request ending the search |
| Supervisor.LoneInstanceOwns | internal/check/reverse.go:79-85 | a sole instance is the owner, whatever it would reply |
| Supervisor.OwnerDoesNotDependOnOrderIff | internal/check/reverse.go:90-159 | the search gives the same in every order the map may yield exactly if the replies name one owner at most, and none beside a failed request |
| Supervisor.AskGives | internal/check/reverse.go:90-166 | an owner found was named by some reply, an aborted search met a failed request, and finding nobody means that no reply named any |
| Supervisor.Reverse.Start | internal/reverse/reverse.go:81-161 | the loop's configurations, flags, events and result are those of the turns of the specification |
| Supervisor.ConnectionsAreFresh | internal/reverse/reverse.go:84-161 | every turn keeps: each connection opened used the current map's configuration for the owner, with no refresh pending |
| Supervisor.TurnRefreshes | internal/reverse/reverse.go:84-111 | a cancelled turn returns; a pending refresh that fails ends the loop; one that succeeds is recorded and its map in force from then on |
| Supervisor.TurnConnects | internal/reverse/reverse.go:113-160 | an owner found is connected to with its own configuration; after the turn a refresh is pending exactly if the connection asked for one or nobody was found; a fatal connection cancels, and any other failure of the search ends the loop |
| Supervisor.RefreshComesFirst | internal/reverse/reverse.go:91-160 | once a connection has asked for a refresh, or nobody owned the check, no connection is opened in any number of turns without a successful refresh in between |
| Supervisor.FatalEndsTheLoop | internal/reverse/reverse.go:84-151 | after a fatal connection the next turn returns and does nothing |
| Supervisor.FromTheStart | internal/reverse/reverse.go:91-125 | over any number of turns no connection is opened between asking for a refresh and its success, each uses the configuration stored under the owner's CN in the current map, and the branch for a missing owner is never taken |
| Base64.DecodeEncode | internal/tags/tags.go:236-239 | decoding the standard base64 form of any bytes gives them back (section 4 of RFC 4648) |
| Base64.Alphabet | internal/tags/tags.go:236-239 | the 64 symbols in their order (table 1 of RFC 4648) |
| Base64.TestVectors | internal/tags/tags.go:236-239 | four of the test vectors of section 10 of RFC 4648 |
| Tags.ParseList | internal/tags/tags.go:121-137 | the loop keeps the elements with a colon, split at the first, in order |
| Tags.CollectTags | internal/tags/tags.go:251-283 | collecting distinct texts in a set and sorting them, whatever the order of the set, gives the canonical list |
| Texts.LessIs | internal/tags/tags.go:281 | the order of sorting: a beginning of a text before the text, else the first different byte decides |
| Tags.NormalisingIs | internal/tags/tags.go:262-270 | stated on the characters: an encoded category stays; of any other the blanks go, the capitals become small letters and the rest stays in order; the tag counts unless its category or value is empty then |
| Tags.WhoCounts | internal/tags/tags.go:257-270 | a tag is in the set exactly if it is the normal form of one of the first 256 |
| Tags.CaseIsNotEncoded | internal/tags/tags.go:265-267 | in any list, tags whose categories differ only in case can replace each other: the encoding is the same |
| Tags.BlanksAreNotEncoded | internal/tags/tags.go:265-267 | in any list, a blank more in a category leaves the encoding the same |
| Tags.OneTagEncoded | internal/tags/tags.go:235-241 | one tag, written out: each part in base64 between b" and ", unless it starts like that, with a colon between them |
| Tags.TwoTagsEncoded | internal/tags/tags.go:235-244 | two tags: one after the other in the order of their plain texts, with a comma between them |
| Tags.ExampleEncoding | internal/tags/tags.go:210-245 | Env:prod, letter by letter |
| Tags.StreamTags | internal/tags/tags.go:210-245 | filling the list in place gives the encoding; no element is skipped and none is over the limit, and no element joined is empty |
| Tags.EncodedTexts | internal/tags/tags.go:251-283 | the intermediate texts are strictly sorted and are exactly those of the set of normalised tags, and so are the encoded elements |
| Tags.CanonicalEncoding | internal/tags/tags.go:210-283 | the encoding depends only on the set of normalised tags among the first 256 |
| Tags.DecodingRoundTrip | internal/tags/tags.go:210-245 | with colon-free categories and nothing encoded before, splitting and decoding the string gives exactly that set |
| Tags.EncodingIsInjective | internal/tags/tags.go:210-283 | for such tags two encodings are equal exactly if the sets are |
| Tags.EncodingSplitsIff | internal/tags/tags.go:236-244 | an encoding is taken apart into its elements exactly if no part that starts as an encoded one holds a comma |
| Tags.CommaIsSplit | internal/tags/tags.go:235-244 | a tag with such a part: its element falls into two, and encoding again changes the set |
| Tags.ReencodingIsStable | internal/tags/tags.go:121-137 | parsing and encoding any text again: after one pass the set of elements stays, after two the text, and after one exactly if it left the elements sorted |
| Tags.ReencodingKeepsTheSetIff | internal/tags/tags.go:210-283 | a pass over any text keeps its set of elements exactly if all were encoded |
| Tags.ReencodingIsIdleIff | internal/tags/tags.go:210-283 | a pass gives the very text exactly if its elements were encoded and sorted |
| Tags.ReencodingOfTags | internal/tags/tags.go:210-283 | the encoding of tags keeps its set under a further pass, is a fixpoint after one, and is one already exactly if its elements are sorted |
| Tags.ReencodingMayReorder | internal/tags/tags.go:272-281 | one pass can be needed: two tags whose plain and encoded orders differ |
| TagMerge.NameGetsItsTags | internal/tags/tags.go:163-178 | a name without stream tags gets those there are, behind it in brackets, and no more a second time |
| TagMerge.MergeForgetsThePlainName | internal/tags/tags.go:184-186 | without stream tags in the name the result is the encoded tags, whatever the name |
| TagMerge.MergeNothing | internal/tags/tags.go:181-183 | merging no tags gives back the name, whatever it is |
| TagMerge.MergeWithoutBracket | internal/tags/tags.go:194 | a closing bracket that is missing makes no difference |
| TagMerge.MergeKeepsTheBase | internal/tags/tags.go:188-205 | for any name with stream tags the base stays, followed by the encoded tags in brackets, or alone if no tag is left |
| TagMerge.MergeIsUnion | internal/tags/tags.go:196-198 | for any name with stream tags the tags encoded are the union of those listed, in whatever form, and the new ones; beyond 256, the new ones that still fit |
| TagMerge.MergeIsIdempotentOnSets | internal/tags/tags.go:180-205 | merging the same tags again changes neither the base nor the set of elements |
| TagMerge.SecondMergeIsIdleIff | internal/tags/tags.go:180-205 | without conditions on the parts: the base stays, no element is lost, and none is added exactly if each piece of the new tags' entries reads as no tag or its entry is an element already |
| TagMerge.CommaMergedTwice | internal/tags/tags.go:196-198 | merging twice a tag that falls apart changes the set |
| TagMerge.MergeTwiceLosesTheBase | internal/tags/tags.go:184-204 | with no valid tag at all the second merge loses the base |
| TagMerge.RepeatsIff | internal/tags/tags.go:272-283 | no element of an encoding is repeated exactly if different tag texts have different encodings |
| TagMerge.NameRepeatsIff | internal/tags/tags.go:272-283 | plain tags merged into a list of encoded ones: an element is repeated exactly if a new tag that fits is listed in its encoded form |
| TagMerge.MergeMayRepeat | internal/tags/tags.go:272-273 | merging a plain tag into a name with its encoded form lists that form twice |
| IOLatency.Tracker.HandleLogLine | plugins/linux/io/io_latency/io_latency.go:76-125 | the tables, the newest time and the recorded latencies after one event are those of the specification |
| IOLatency.Tracker.CleanupTables | plugins/linux/io/io_latency/io_latency.go:148-159 | both loops delete from the inserts: the aged ones and those under the key of an aged issue |
| IOLatency.EverythingIsAccounted | plugins/linux/io/io_latency/io_latency.go:98-123 | over every sequence of events each insert and each recorded issue is exactly one of live, overwritten, aged out or consumed, no completion consumes two of a kind, and no issue ages out |
| IOLatency.EveryInsertCounts | plugins/linux/io/io_latency/io_latency.go:99-102 | the inserts accounted for are all insert events with a non-zero time |
| IOLatency.WhichIssuesCount | plugins/linux/io/io_latency/io_latency.go:103-110 | the issues accounted for are the issue events with a non-zero time that found an insert under their key |
| IOLatency.LatenciesAreNonNegative | plugins/linux/io/io_latency/io_latency.go:104-123 | with non-decreasing times no latency is negative |
| IOLatency.TotalIsQueuePlusDevice | plugins/linux/io/io_latency/io_latency.go:103-123 | total = queue + device exactly if the insert consumed has the time the issue found, so whenever it was neither replaced nor aged out in between |
| IOLatency.CompletionIs | plugins/linux/io/io_latency/io_latency.go:111-123 | a completion logs the time since the insert and then since the issue, where there are such, and removes both; at time zero it does nothing |
| IOLatency.OneOperation | plugins/linux/io/io_latency/io_latency.go:98-123 | an operation from insert to completion logs its three times and leaves nothing behind |
| IOLatency.CleanupKeepsIssues | plugins/linux/io/io_latency/io_latency.go:154-158 | cleaning up leaves every issue, however old |
| IOLatency.CleanupDropsIff | plugins/linux/io/io_latency/io_latency.go:148-159 | in every table an insert that has not aged is dropped exactly if the issue under its key has |
| IOLatency.CleanupLosesAFreshInsert | plugins/linux/io/io_latency/io_latency.go:154-158 | so the newest insert is deleted whenever an old issue under its key was never completed |
| Plugins.RunProtocol | internal/plugins/plugin.go:256-311 | for any number of threads in any schedule: at most one runs, each run starts at least the TTL after every earlier end, and every drain returns the latest parse |
| Plugins.StartIsGrantedIff | internal/plugins/plugin.go:260-282 | in every schedule a thread is granted its run exactly if all runs have ended, each the TTL ago where there is one; a refusal changes nothing |
| Plugins.StepsAreRecorded | internal/plugins/plugin.go:25-43 | in every schedule each parse, end and drain takes effect, a drain giving the latest parse and leaving no metrics |
| Plugins.Plugin.Drain | internal/plugins/plugin.go:25-43 | the pair of current and previous metrics behaves as the register of the protocol |
| Plugins.Plugin.Run | internal/plugins/plugin.go:256-400 | a run is refused, changing nothing, or ends with the metrics of the last block of its output |
| Plugins.BlocksLoseNoLine | internal/plugins/plugin.go:334-365 | the blocks handed to the parser are the non-blank lines, once and in order |
| Plugins.LastBlockIsTheTail | internal/plugins/plugin.go:334-365 | the last block, whose metrics are left, is what follows the last blank line, or everything without one |
| Plugins.BlankEndLeavesNothing | internal/plugins/plugin.go:339-365 | a blank line at the very end leaves the metrics of no lines |
| Plugins.LastBlockIsAllIff | internal/plugins/plugin.go:339-365 | the metrics left are those of the whole output exactly if no blank line follows some text |
| Plugins.RunLeaves | internal/plugins/plugin.go:339-400 | the metrics a run leaves: those that what follows the last blank line parses to, or none |
| HostTags.UpdateCheckBundleTags | internal/check/bundle/bundle.go:640-696 | the nested loops with their flags compute the merge and whether the bundle is sent |
| HostTags.CategoryIs | internal/check/bundle/bundle.go:656-657 | a category ends with the first colon, and is the whole tag and a colon where there is none |
| HostTags.MergeIsExpected | internal/check/bundle/bundle.go:655-680 | for distinct categories the first entry of each becomes the new tag, all other entries keep index and value, and unmatched tags are appended in order |
| HostTags.UnchangedIffSettled | internal/check/bundle/bundle.go:655-684 | the update flag stays false exactly if every new tag is the first entry of its category, and then nothing changes |
| HostTags.UpdatedIffChanged | internal/check/bundle/bundle.go:682-695 | if new tags of one category are equal, the bundle is sent exactly if its tags changed |
| HostTags.ChangedBack | internal/check/bundle/bundle.go:661-674 | otherwise an entry can be changed and changed back, and the bundle is sent for nothing |
| HostTags.FlagIsRightIff | internal/check/bundle/bundle.go:652-695 | the bundle is sent exactly if its tags changed, whatever they were, if and only if new tags of one category are equal or one of the new tags has no colon |
| HostTags.SecondUpdateIsIdleIff | internal/check/bundle/bundle.go:640-696 | a second update changes nothing exactly if each new tag has a colon and new tags of one category are equal |
| Brokers.SelectBroker | internal/check/bundle/broker.go:24-96 | the broker returned is among the fastest and the last of its CID there, is enterprise exactly if one of the fastest is, and in multi-agent mode is enterprise or an error results; every error case |
| Brokers.PassKeeps | internal/check/bundle/broker.go:41-67 | after the single pass the threshold is the least valid duration (10 s at most), the map holds the last broker at that duration for each CID, and the flag says whether one of them all is enterprise |
| Brokers.CandidatesAreTheFastest | internal/check/bundle/broker.go:41-67 | with distinct CIDs the candidates are exactly the valid brokers of minimum duration not above 10 s |
| Brokers.DistinctKeepEnterprise | internal/check/bundle/broker.go:69-83 | with distinct CIDs a fastest enterprise broker is always left to choose |
| Brokers.ChoiceSucceedsIff | internal/check/bundle/broker.go:69-83 | with an enterprise broker among the fastest a broker is returned exactly if one such is the last of its CID; with none, exactly if any is fast enough and the agent is not in multi-agent mode; and which error it is otherwise |
| Brokers.ChosenIsFast | internal/check/bundle/broker.go:24-96 | in times alone: the broker chosen answered within ten seconds and no valid one sooner; and without enterprise brokers, outside multi-agent mode, one is chosen exactly if any answered in time |
| Brokers.SameCIDLosesEnterprise | internal/check/bundle/broker.go:51-83 | an enterprise broker replaced by another of its CID: the selection fails |
| Statsd.ParsePrint | internal/statsd/statsd.go:143 | parsing a printed well-formed record gives back the record |
| Statsd.PrintParsed | internal/statsd/statsd.go:143 | printing the captured fields gives back the line |
| Statsd.ParseIsTheExpression | internal/statsd/statsd.go:143 | the deterministic splitter accepts exactly the lines of the expression, and each has one set of groups only |
| Statsd.TagsSplitExactly | internal/statsd/metrics.go:142-150 | the tag section splits to exactly its category and value pairs |
| Statsd.CharacterClasses | internal/statsd/statsd.go:143 | the letters of a type and the characters of a rate |
| Statsd.LineIs | internal/statsd/statsd.go:140-143 | the text of a record written out, and two of its tags |
| Statsd.DestinationByPrefix | internal/statsd/metrics.go:40-72 | which prefix decides, when the metric is ignored, and that a matching prefix is cut off and nothing else |
| Statsd.BlanksBecomeUnderscores | internal/statsd/metrics.go:95 | each run of blanks in a name becomes one underscore and the rest stays |
| Statsd.KindTagsAre | internal/statsd/metrics.go:164-243 | the tags each type adds, letter by letter, and which texts are types |
| Statsd.EachLineOnce | internal/statsd/metrics.go:74-246 | a non-empty line is recorded or rejected, once: recorded exactly if it is well-formed and passes the checks, under its destination and with the server's, its own and its type's tags |
| Statsd.PacketsSplitAtNewlines | internal/statsd/metrics.go:23-36 | processing a, a newline and b is processing a and then b |
| Statsd.OneLinePacket | internal/statsd/metrics.go:23-36 | a packet without a newline is processed as its one line |
| Statsd.Server.Process | internal/statsd/metrics.go:23-36 | the loop over the lines of a packet appends their records and rejections, in order |
| FanIn.NobodyBlocks | internal/server/handlers.go:121-216 | in no schedule does a conduit find the channel full; until all are done one can move; each takes two steps at most, so that the wait ends |
| FanIn.LaunchedAre | internal/server/handlers.go:111-206 | a goroutine is started each time a conduit is asked for, but not for an unknown name, nor for StatsD without its server; asking for none asks for the five once each |
| FanIn.MergeChannel | internal/server/handlers.go:218-223 | the loops over the channel and over each conduit's metrics, in any order, compute the merge |
| FanIn.CollectsTheUnion | internal/server/handlers.go:128-223 | in every schedule the merged keys are the union of those flushed and each value comes from a conduit that has the key |
| FanIn.IndependentIffAgree | internal/server/handlers.go:218-223 | the result is the same in every schedule exactly if conduits with a key in common agree on its value |
| MdArrays.AbsorbIsASum | internal/builtins/collector/linux/procfs/disk.go:240-255 | an array's counters become their own value plus the sum over its members with records, modulo 2^64; the discard time only where the array has one |
| MdArrays.MdNameIs | internal/builtins/collector/linux/procfs/disk.go:228 | an array is told by its name: "md" and a digit first |
| MdArrays.OneMember | internal/builtins/collector/linux/procfs/disk.go:245-251 | counter by counter, what one member adds |
| MdArrays.EveryOrderEmitsTheSame | internal/builtins/collector/linux/procfs/disk.go:230-303 | without nested arrays every order of the map emits each included device once, each array as if it were alone |
| MdArrays.EmittedValue | internal/builtins/collector/linux/procfs/disk.go:230-303 | without nested arrays, in every order, each counter emitted: that of an array named so with a member list is its own and its members' modulo 2^64, that of any other included device just its own, and excluded devices have none |
| MdArrays.OrderIrrelevantIffFlat | internal/builtins/collector/linux/procfs/disk.go:230-303 | for all counter values the order is irrelevant exactly if no array lists another array that has members with records |
| MdArrays.DStats.AddTimings | internal/builtins/collector/linux/procfs/disk.go:245-251 | one member's counters added in place, wrapping at 2^64, also when the array lists itself |
| MdArrays.Collect | internal/builtins/collector/linux/procfs/disk.go:230-303 | the loop over shared records in any order emits what the order gives, and without nested arrays the same in every order |

## Left out

- TLS, certificates, sockets, HTTP and the API client: their outcomes are parameters. The handshake is the dial; deadlines only show as timeouts.
- Writes follow the contract of `io.Writer`: a write without error took all its bytes.
- The closing of a connection while its old reader goroutine is still in a read: the next connection's reader is modelled alone, so that a late timeout of the old one does not reach the shared counter.
- The time a read or a fetch takes: the pipeline's theorems on stopping assume that both return.
- `LastRequestTime`, the logging and the application statistics; the closing of the connection after a number of requests, which a constant switches off.
- Configuration files, option handling, starting and stopping of the servers, and the check bundle's saving, loading and deletion.
- Where `setReverseConfigs` resolves addresses and builds TLS configurations, a URL either gives a CN or does not.
- Connections.Connection.Start: takes as many turns as it is given, since the loop of the program need not end.
- Supervisor.Reverse.Start: takes as many turns as it is given, for the same reason; the connection it opens is represented by what it returned.
- Text is ASCII: case folding, blanks and byte order of other characters are not modelled.
- `FromString`, `PrepStreamTags` and `GetBaseTags` of the tags: a check of the format before the modelled split, a plain sort, and caching.
- TagMerge.MergeIsIdempotentOnSets: for at most 256 tags in all, at least one of them valid, and new tags without a comma in a part that starts as an encoded one; what happens otherwise is stated by `TagMerge.MergeTwiceLosesTheBase`, `TagMerge.CommaMergedTwice` and `TagMerge.SecondMergeIsIdleIff`.
- Tags.ReencodingOfTags: for tags without a comma in a part that starts as an encoded one; for all others see `Tags.ReencodingKeepsTheSetIff` and `Tags.ReencodingIsIdleIff`.
- Tags.DecodingRoundTrip: for categories without a colon and parts not starting as encoded ones, since the decoder could not tell those apart.
- Parsing of numbers and rounding (StatsD values, sample rates, disk counters, trace times): whether a text parses is a parameter, and values stay text or exact numbers.
- StatsD histogram gauges in a cluster, the metric library's own state, and the UDP and TCP listeners: a destination is a log of recorded calls.
- A general regular expression engine: the line grammar and its tag section are modelled as a grammar.
- The extraction of fields from trace lines, the histograms that latencies are recorded in, and the clean-up on a ticker that is never started.
- The parsing of plugin output within a block (JSON or fields): a function from the lines of the block to metrics; the process itself and its errors other than a refused start.
- Plugins.Plugin.Run: the sections of a run without others in between; the interleavings are those of `Plugins.RunProtocol`.
- How the host tags are made, and the reply of the API to an updated bundle.
- How a broker is found valid and how long probing it takes: a parameter per broker.
- What a conduit flushes, and the agent's own metrics added after the merge.
- The disk counters that are emitted as read, sector sizes, and the parsing of diskstats and mdstat; cancellation in the middle of a collection.
- The other collectors, the receivers, the Prometheus and JSON formats, and compression: tables and library calls with little logic.

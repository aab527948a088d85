# Wordle chain: a verified model

This project models the hard core of the Wordle chain, a Cosmos SDK application, and proves what its
parts are for. It is written for Dafny 4.11; `dafny verify dfyconfig.toml` checks all of it.

Five components are modelled.

* **The wire codec of the block-tracking state** (`Varints`, `Wire`, `WireLengths`, `WireLaws`, `EntryBounds`,
  `RoundTrip`, `UnknownFields`, `FieldLaws`, `WireForm`, `StateCodec`). `Wire` says, on byte sequences, what
  `Marshal` writes, what `Unmarshal` reads, and what it leaves behind when it fails. `StateCodec` holds the three
  messages as objects: a writer that fills a pre-sized array from right to left, and a reader that moves a
  cursor over the input. Each method is proved against `Wire`, and the laws are proved about `Wire`: what each
  record does to any message, concatenation as merging, the round trip for every iteration order of the votes
  map, the order of what is written, exact fill, shortest varints, and whole unknown fields being skipped,
  groups included. The format is that of the Protocol Buffers "Encoding" document, sections "Base 128
  Varints", "Length-Delimited Records", "Maps", "Groups" and "Last One Wins".
* **The IBC relay queue** (`Relay`, `RelayLaws`, `PassMeaning`, `RetryLaws`, `BlockTimes`). A handler object with
  its pending queues and logs; what a pass does to each packet; conservation, order, independence of channels
  and the retry bound over whole runs; the sliding window of block times and the adaptive timeout.
* **The block undo log** (`Keys`, `UndoLog`, `UndoRuns`, `Consensus`). A keeper over the byte store, which saves and
  loads its records through the codec above; rollback, commit and the consensus test.
* **The game** (`Bank`, `Decimal`, `Runes`, `Game`, `GameRecords`). The two messages as a state machine over
  records and balances, and the reading of a word as runes (UTF-8, RFC 3629).
* **Store, genesis and fees** (`Tables`, `Genesis`, `Fees`). The byte store refines typed maps; genesis import
  and export are inverse; the size-based fee and its deduction.

## Where the code does not do what its names or comments suggest

Lemmas say, for each of these, on which inputs the expected behaviour holds and what happens on the others.

* `TrackStateChange` saves under the height the loaded record carries, not the current one. The change is
  visible to a rollback exactly when the two agree (`UndoLog.TrackingIsVisible`). Where they do not, each change
  takes the place of the one before (`UndoRuns.LastChangeSurvives`), and a run is undone only as far as it is
  without effect on keys outside the log (`UndoRuns.UnrecordedRun`, with an input in
  `UndoRuns.UnrecordedInsertStays`).
* The log cannot describe an overwrite. A reported edit is undone exactly when it adds an absent key or deletes a
  present one (`UndoLog.UndoneIffUndoable`). A run whose heights agree is undone exactly when the first edit
  of each key outside the log is of that kind: later edits of the key do not matter (`UndoRuns.RollbackUndoesRun`,
  with overwriting as an example in `UndoRuns.Overwriting`).
* Nothing in the repository counts yes votes, so a block known only to `BeginBlock` is never committed
  (`UndoRuns.UnvotedBlockRollsBack`).
* `HasConsensus` multiplies in 32 bits. A tally passes exactly when at least 66% voted yes and 100 times their
  number fits an int32 (`Consensus.TallyPasses`): for tallies that are not negative it never passes wrongly
  (`Consensus.PassingIsEnough`), and it may hide a majority (`Consensus.WrapHidesMajority`). Negative tallies can
  pass wrongly (`Consensus.TestMeaning`, with inputs in `Consensus.NegativeTalliesPass`).
* Merging by concatenation is exact but for the kind of an error: a record that runs past the end is reported
  as an overflow when its end is within the largest int counted from its own input and beyond it counted from
  the whole (`WireLaws.FailureKindMoves`, with an input in `RoundTrip.FailureKindCanMove`).
* A votes entry is confined to its record exactly when no field of it ends past the record
  (`EntryBounds.VotesRecordConfined`). One that does is accepted when bytes follow it, and these are read twice
  (`RoundTrip.EntryCanOverrun`).
* A cancelled relay pass keeps its log entries and leaves its queue in place. Conservation holds for a run
  exactly when each pass gets to its end or logs nothing (`RelayLaws.Conservation`, `RelayLaws.NothingLogged`);
  otherwise a packet can be acknowledged twice and any number of times (`RelayLaws.AckedTwice`,
  `RetryLaws.CancelledPassesRepeat`). A cancellation seen only between the
  attempts for a packet does not make a pass fail (`RelayLaws.FinishedMeaning`).
* `skipState` does not compare the number that ends a group with the one that begins it. Any end-group tag is
  accepted exactly while a group is open (`UnknownFields.GroupEnds`), and a mismatched group is skipped like a
  proper one (`UnknownFields.WholeFieldSkipped`, with an input in `UnknownFields.MismatchedGroupAccepted`).
* Height and time limits are compared as signed numbers: those of 2^63 and more have always elapsed
  (`RelayLaws.SignedLimits`).
* The summed block gaps are exact for a window of up to 292 years (`BlockTimes.SumIsSpan`), and the adaptive
  timeout is the one intended exactly when that fits a duration (`BlockTimes.TimeoutIsIdeal`).
* "A 5 Letter Word" is a test on bytes. An accepted word has five letters exactly when it is ASCII
  (`Game.FiveLettersIffAscii`); three letters can be enough (`Game.ThreeLettersAccepted`).
* The right guess may be repeated: a creator is paid up to six times a day (`Game.SixPayouts`,
  `Game.SixPayoutsReached`).
* A fee transaction divides by zero exactly when it is simulated or stands at height 0 or below, has no gas,
  and can pay a required fee above zero (`Fees.VerdictMeaning`, with an input in `Fees.SimulationCanDivideByZero`).

## Assumptions

* `int` is 64 bits wide, and lengths of Go slices are at most 2^63 - 1. Lemmas about encodings ask that the
  encoded size stays in that range. Nil and empty slices, strings and maps are one value, except for the
  data of a packet, where validation tells them apart.
* The loops that the generated code repeats in place for each varint, tag and length are one method each.
* Unspecified map iteration is `StateCodec.IterationOrder`, which may return any order.
* One channel pass is an atomic step: the goroutines of `ProcessPackets` share the handler's maps without a
  lock of their own. The relay function and the cancellation of the context are given, per packet and
  attempt, by `Relay.Net`.
* Converting a float64 of 2^63 to an integer yields what the platform makes of it, an input of
  `BlockTimes.AdaptiveTimeout`.
* The day, SHA-256 as an injective function, bech32 decoding and the letters of Unicode beyond Latin-1 are
  inputs (`Game.World`). A message that fails or panics is reverted as a whole.
* The codec of wordles, guesses and parameters is an input that decodes what it encoded (`Genesis.Codec`).
  Parameters are of any type: the message the source has is still empty.
* Fees are amounts of the bond denomination. Whether a granter's allowance covers a fee is an input.

## Model

| member | source | states |
|---|---|---|
| Varints.EncodeVarint | x/wordle/types/state.pb.go:413-423 | writes exactly the varint of v, sovState(v) bytes, just below the offset, and leaves every other byte of the buffer alone |
| Varints.DecodeVarint | x/wordle/types/state.pb.go:506-519 | the reading loop yields the number denoted by the bytes, cut to the 64 or 32 bits of the variable, or the first of the two failures it meets, and then leaves the digits read so far |
| Varints.OrAdds | x/wordle/types/state.pb.go:516 | the bitwise or with a shifted digit adds it, in 64 and in 32 bits, also where the digit sticks out of the word |
| Varints.VarintLength | x/wordle/types/state.pb.go:494-496 | the bit-length formula of sovState is the number of bytes written |
| Varints.Uint64Fits | x/wordle/types/state.pb.go:413-423 | every uint64 takes 1 to 10 bytes |
| Varints.VarintReadBack | x/wordle/types/state.pb.go:413-423 | the loop reads back every uint64, whatever stands before and after it |
| Varints.PaddedReadBack | x/wordle/types/state.pb.go:506-519 | a number of up to ten digits is read however it is padded, and cut to 64 bits |
| Varints.ReadIsPadded | x/wordle/types/state.pb.go:506-519 | and nothing else is read: the bytes taken are a number in digits |
| Varints.BrokenDigits | x/wordle/types/state.pb.go:506-519 | a number that breaks off is an unexpected end, or an overflow after ten digits, and its first digits are kept |
| Varints.VarintIsShortest | x/wordle/types/state.pb.go:494-496 | no byte string that reads as v is shorter than sovState(v) |
| Varints.SignedFieldsReadBack | x/wordle/types/state.pb.go:929-973 | int32 and int64 fields survive sign extension and cutting; a negative height takes ten bytes |
| Wire.StepFrom | x/wordle/types/state.pb.go:503-742 | each turn of an Unmarshal loop advances the cursor strictly, never past the end, and keeps the kind of message |
| Wire.SkipFrom | x/wordle/types/state.pb.go:995-1072 | skipping advances strictly and its result fits an int |
| Wire.SkipField | x/wordle/types/state.pb.go:729-741 | a skipped field ends no later than the limit of the caller |
| WireLaws.SkipOfPrefix | x/wordle/types/state.pb.go:995-1072 | a field skipped in an input is skipped the same way when more bytes follow |
| WireLaws.EntryWithin | x/wordle/types/state.pb.go:614-694 | a map entry that parses within an input parses the same with any bytes around it |
| WireLaws.StepWithin | x/wordle/types/state.pb.go:503-742 | so does any field of any of the three messages |
| WireLaws.ConcatenationIsMerge | x/wordle/types/state.pb.go:500-749 | once x parses, parsing x followed by y is parsing y on top of the result: accepted or refused alike, with the same message left, and a record past the end ending further right by the length of x |
| WireLaws.FailureKindMoves | x/wordle/types/state.pb.go:571-577 | the kind of an error changes exactly when the end of the record that runs past the input is below 2^63 counted from y and not below it counted from x |
| RoundTrip.FailureKindCanMove | x/wordle/types/state.pb.go:571-577 | an input for which it does change |
| EntryBounds.EntryCut | x/wordle/types/state.pb.go:614-694 | an accepted entry reads the same when the input stops where it ends, if its last field ends there; else it is refused for want of bytes |
| EntryBounds.EntryConfined | x/wordle/types/state.pb.go:614-694 | an entry is accepted on its own exactly when it is accepted where it stands and no field of it ends past it |
| EntryBounds.VotesRecordConfined | x/wordle/types/state.pb.go:580-694 | the same for the whole votes record of a block |
| RoundTrip.EntryCanOverrun | x/wordle/types/state.pb.go:614-694 | an entry that leaves its record: the same bytes are refused alone and accepted with more behind them |
| RoundTrip.ChangeReadBack | x/wordle/types/state.pb.go:343-373 | every StateChange survives the trip |
| RoundTrip.InfoReadBack | x/wordle/types/state.pb.go:390-411 | every ConsensusInfo survives the trip, negative numbers included |
| RoundTrip.ValidatorsReadBack | x/wordle/types/state.pb.go:311-319 | repeated validators append in order |
| RoundTrip.VotesReadBack | x/wordle/types/state.pb.go:289-310 | votes written in any order are added to the map, the last writer winning |
| RoundTrip.BlockMerges | x/wordle/types/state.pb.go:270-326 | parsing an encoded BlockState on top of any other appends lists, overrides votes and a nonzero height |
| RoundTrip.BlockRoundTrip | x/wordle/types/state.pb.go:255-373 | a fresh BlockState reads back exactly what was marshalled, for every iteration order of its votes |
| FieldLaws.NumbersAreRead | x/wordle/types/state.pb.go:500-994 | every number field of the three messages by its tag byte, on any message: the flag is whether the number is not zero, the others are cut to their width, zero included |
| FieldLaws.FlagIsRead | x/wordle/types/state.pb.go:847-866 | the deletion flag for padded numbers too |
| FieldLaws.HeightIsRead | x/wordle/types/state.pb.go:527-546 | the height for padded numbers too |
| FieldLaws.InfoIsRead | x/wordle/types/state.pb.go:917-973 | the three numbers of a tally for padded numbers too |
| FieldLaws.LastValueWins | x/wordle/types/state.pb.go:500-994 | scalars take the last value present |
| FieldLaws.Conversions | x/wordle/types/state.pb.go:929-973 | conversions keep a number modulo 2^64 or 2^32, in the signed range |
| FieldLaws.ChangeBytesAreRead | x/wordle/types/state.pb.go:779-846 | key and value of a change are replaced, by an empty payload too |
| FieldLaws.ValidatorIsRead | x/wordle/types/state.pb.go:547-579 | a validator is appended, an empty one too |
| FieldLaws.VoteIsRead | x/wordle/types/state.pb.go:580-694 | a votes record sets the vote of the key its entry yields, or is refused for the reason of the entry |
| FieldLaws.EmptyEntry | x/wordle/types/state.pb.go:611-694 | an empty entry stands for the empty key and a vote against |
| FieldLaws.EntryFields | x/wordle/types/state.pb.go:634-680 | field 1 of an entry is its key and field 2 its vote, whatever their wire types |
| FieldLaws.EntryThen | x/wordle/types/state.pb.go:614-694 | an entry is read field by field, the last key and the last vote counting |
| FieldLaws.UnknownInEntry | x/wordle/types/state.pb.go:681-693 | any other field of an entry is skipped whole |
| FieldLaws.ChangeIsNested | x/wordle/types/state.pb.go:695-728 | a nested change is parsed into a new last element, and stays in part when it is refused |
| FieldLaws.WrongTypeRefused | x/wordle/types/state.pb.go:525-698 | a known field of another wire type is refused and the message stays |
| FieldLaws.IllegalTagsRefused | x/wordle/types/state.pb.go:520-527 | end-group tags, field number 0 and illegal wire types are refused |
| FieldLaws.TagIsRead | x/wordle/types/state.pb.go:506-527 | a tag in any form: three bits of wire type, and 32 bits of field number read as a signed number |
| FieldLaws.BrokenNumbers | x/wordle/types/state.pb.go:527-546 | a number that breaks off leaves its first digits in the field, but not in the deletion flag |
| FieldLaws.ShortRecords | x/wordle/types/state.pb.go:566-577 | a record that announces more than there is is refused, with the kind of error its length calls for |
| FieldLaws.ShortUnknownRecords | x/wordle/types/state.pb.go:729-741 | and so is one of an unknown field |
| FieldLaws.CutFieldRefused | x/wordle/types/state.pb.go:729-741 | an unknown field cut short anywhere is refused and the message stays |
| WireForm.BlockFields | x/wordle/types/state.pb.go:270-326 | a block is written with its fields in ascending order, a zero height left out, one record for each element |
| WireForm.ChangeFields | x/wordle/types/state.pb.go:343-373 | a change is written as key, value and flag, empty or unset ones left out |
| WireForm.InfoFields | x/wordle/types/state.pb.go:390-411 | a tally is written as its three numbers in order, zeros left out |
| WireForm.EntryForm | x/wordle/types/state.pb.go:289-310 | a votes entry always holds both its key and its vote |
| UnknownFields.WholeFieldSkipped | x/wordle/types/state.pb.go:995-1072 | skipState takes in exactly one field of any wire type, however deep its groups nest and whatever numbers end them |
| UnknownFields.GroupEnds | x/wordle/types/state.pb.go:1052-1062 | an end-group tag of any number is accepted exactly when a group is open, and closes the innermost |
| UnknownFields.MismatchedGroupAccepted | x/wordle/types/state.pb.go:1052-1062 | a message with a group that ends with another number than it begins with is accepted |
| UnknownFields.UnknownFieldsAreIgnored | x/wordle/types/state.pb.go:729-741 | inserting an unknown field, mismatched groups included, changes neither acceptance nor the message left nor the reason of a refusal |
| UnknownFields.WellFormedIsUnknown | x/wordle/types/state.pb.go:729-741 | which covers every well-formed field with a number the message does not know |
| StateCodec.SkipState | x/wordle/types/state.pb.go:995-1072 | the loop computes the skipping specification on every input, in bounds and to an end |
| StateCodec.DecodeEntry | x/wordle/types/state.pb.go:614-694 | the inner loop computes the entry specification and ends although it may run past the entry |
| StateCodec.BlockState.Size | x/wordle/types/state.pb.go:424-454 | the size is that of the encoding for every order of the votes |
| WireLengths.VotesSizeOfOrders | x/wordle/types/state.pb.go:439-446 | two iteration orders of one map take the same space |
| StateCodec.BlockState.MarshalToSizedBuffer | x/wordle/types/state.pb.go:270-326 | fills exactly the bytes below the given end with the encoding, returns their number, touches nothing else and never goes below the buffer |
| StateCodec.BlockState.Marshal | x/wordle/types/state.pb.go:255-263 | the result is the encoding for the iteration order that occurred, and reads back as the same block |
| StateCodec.BlockState.Unmarshal | x/wordle/types/state.pb.go:500-749 | on every input the error is the one the parse says, and the object holds what the parse leaves, in part when it fails |
| StateCodec.BlockState.AppendChange | x/wordle/types/state.pb.go:724-727 | a nested change is parsed from its own slice into a new last element, which stays when the parse fails |
| StateCodec.StateChange.Size | x/wordle/types/state.pb.go:456-474 | the length of the encoding |
| StateCodec.StateChange.MarshalToSizedBuffer | x/wordle/types/state.pb.go:343-373 | exact fill for StateChange |
| StateCodec.StateChange.Unmarshal | x/wordle/types/state.pb.go:750-887 | agrees with the parse on every input, error and contents |
| StateCodec.ConsensusInfo.Size | x/wordle/types/state.pb.go:476-492 | the length of the encoding |
| StateCodec.ConsensusInfo.MarshalToSizedBuffer | x/wordle/types/state.pb.go:390-411 | exact fill for ConsensusInfo |
| StateCodec.ConsensusInfo.Unmarshal | x/wordle/types/state.pb.go:888-994 | agrees with the parse on every input; a number that breaks off leaves its first digits in the field |
| RelayLaws.AcceptanceMeaning | pkg/ibc/relay/handler.go:163-198 | in an ordered state a well-formed packet is accepted exactly when its limits have not elapsed and its number is above every pending one |
| RelayLaws.AnswerReasons | pkg/ibc/relay/handler.go:131-198 | which answer each packet gets, by its number, its fields, its limits and the queue of its channel |
| RelayLaws.WithoutChainsRefused | pkg/ibc/relay/middleware.go:27-36 | packets without chain identifiers are refused |
| RelayLaws.QueuedAsGiven | pkg/ibc/relay/handler.go:193-197 | a queued packet keeps its number, ends, data, limits and retries, and nothing else changes |
| RelayLaws.SignedLimits | pkg/ibc/relay/handler.go:368-387 | limits below 2^63 mean what they say, larger ones have always elapsed |
| Relay.RelayHandler.QueuePacket | pkg/ibc/relay/handler.go:163-198 | the answer for every packet, and the queue extended by it exactly when accepted |
| Relay.RelayHandler.RelayWithRetry | pkg/ibc/relay/handler.go:292-311 | success and the number of relay calls |
| Relay.RelayHandler.ProcessChannelPackets | pkg/ibc/relay/handler.go:220-290 | the queue is sorted in place, and then one pass over it, cancelled or completed, changes queue and logs; an increasing queue stays as it is |
| Relay.RelayHandler.ProcessPackets | pkg/ibc/relay/handler.go:200-218 | every channel that has a queue is passed over once, its queue sorted first, an error is returned exactly when some pass is cancelled, and the relay calls add up over the channels; ordered queues stay as they are |
| Relay.SortIsIdentity | pkg/ibc/relay/handler.go:223-226 | sorting a strictly increasing queue, by any algorithm, changes nothing |
| RelayLaws.AttemptsMeaning | pkg/ibc/relay/handler.go:292-311 | the retry loop succeeds exactly when some attempt does before a cancellation is seen, with at most six calls |
| RelayLaws.AttemptsCounted | pkg/ibc/relay/handler.go:292-311 | the relay calls end with the first success, before the check that finds the context cancelled, or after six |
| RelayLaws.FateMeaning | pkg/ibc/relay/handler.go:236-276 | an expired packet is timed out at once; another is acked when relayed, and else kept as it was with one retry more, or given up after five |
| PassMeaning.ProcessMeaning | pkg/ibc/relay/handler.go:200-290 | one call, as it shows on a channel: which packets stay, which are acked and which are timed out, in order, with the context cancelled or not |
| PassMeaning.PassInFull | pkg/ibc/relay/handler.go:228-287 | a pass that is not cancelled, by limits, attempts and retries alone |
| PassMeaning.CancelledPass | pkg/ibc/relay/handler.go:228-234 | a cancelled pass logs what the packets before the cancellation call for |
| RelayLaws.PassConserves | pkg/ibc/relay/handler.go:228-287 | a completed pass puts every packet in exactly one of kept, acked and timed out |
| RelayLaws.PassKeepsOrder | pkg/ibc/relay/handler.go:223-276 | what a pass keeps and logs is strictly increasing |
| RelayLaws.AckedInTime | pkg/ibc/relay/handler.go:236-276 | no packet is acked whose height or time limit has elapsed, or for which no attempt succeeded |
| RelayLaws.LogsAreExact | pkg/ibc/relay/handler.go:236-276 | a completed pass acks exactly the unexpired packets that are relayed, and times out exactly the expired ones and those not relayed after five retries |
| RelayLaws.ChannelsIndependent | pkg/ibc/relay/handler.go:200-218 | any two orders of the channels give the same queues and logs |
| RelayLaws.FinishedMeaning | pkg/ibc/relay/handler.go:228-234 | a pass gets to its end exactly when no packet of the queue finds the context cancelled before it |
| RelayLaws.NothingLogged | pkg/ibc/relay/handler.go:228-276 | a pass logs nothing exactly when every packet it deals with is kept |
| RelayLaws.PassConservesIff | pkg/ibc/relay/handler.go:228-287 | a pass conserves what is held for its channel exactly when it gets to its end or logs nothing |
| RelayLaws.HoldingsOverRun | pkg/ibc/relay/handler.go:163-290 | over every run, what is held is what was held, plus what was accepted, plus what cancelled passes logged of packets left in the queue |
| RelayLaws.NothingLost | pkg/ibc/relay/handler.go:163-290 | so every accepted sequence number is still pending, acked or timed out |
| RelayLaws.AckedTwice | pkg/ibc/relay/handler.go:228-287 | a packet acked by a cancelled pass is acked again by the next |
| RelayLaws.Conservation | pkg/ibc/relay/handler.go:163-290 | over every run, accepted equals pending plus acked plus timed out exactly when each pass gets to its end or logs nothing |
| RelayLaws.RunKeepsOrder | pkg/ibc/relay/handler.go:171-196 | in every reachable state each queue is non-empty and strictly increasing |
| RetryLaws.CallsBounded | pkg/ibc/relay/handler.go:262-273 | in one queue the calls made and the budget left never exceed the budget at the start |
| RetryLaws.RunPays | pkg/ibc/relay/handler.go:163-311 | over every run of completed passes, arrivals included, the relay calls on all channels and the budget left never exceed the budget at the start and what accepted packets bring |
| RetryLaws.CancelledPassesRepeat | pkg/ibc/relay/handler.go:228-287 | without completion there is no bound: any number of cancelled passes may each relay and log the same packet |
| RetryLaws.QueueOverRun | pkg/ibc/relay/handler.go:200-281 | with no arrivals each queue of the handler evolves by the passes over it alone |
| RetryLaws.CallsOverRun | pkg/ibc/relay/handler.go:200-281 | and the calls of the run are those of the single queues, summed up |
| RetryLaws.RetryBound | pkg/ibc/relay/handler.go:262-311 | after as many completed calls of ProcessPackets as any packet has passes left, nothing is pending on any channel |
| RetryLaws.SixPassesEmptyAll | pkg/ibc/relay/handler.go:262-311 | six completed calls without arrivals are enough |
| RetryLaws.CallsPerPacket | pkg/ibc/relay/handler.go:292-311 | wherever a packet stands in its queue, it costs at most 36 relay calls over any completed rounds |
| RetryLaws.BoundIsReached | pkg/ibc/relay/handler.go:262-311 | a packet that is never relayed stays for six passes, at six calls each |
| RetryLaws.BoundIsReachedByHandler | pkg/ibc/relay/handler.go:200-311 | and the handler makes 36 calls for it |
| RetryLaws.RoundsSplit | pkg/ibc/relay/handler.go:228-281 | packets of one queue do not affect each other: rounds over a queue are the rounds over its parts, calls added up |
| BlockTimes.BlockTimeMonitor.AddBlockTime | pkg/ibc/relay/handler.go:40-58 | the new window, and as average the truncated quotient of its summed gaps, which saturate one by one and wrap in sum |
| BlockTimes.GapsTelescope | pkg/ibc/relay/handler.go:51-56 | the summed gaps are the newest time minus the oldest, modulo 2^64 |
| BlockTimes.SumIsSpan | pkg/ibc/relay/handler.go:51-56 | for times that never go back they are exact if and only if the window spans at most the largest duration |
| BlockTimes.GapOfTwo | pkg/ibc/relay/handler.go:54 | a single gap is cut to the range of a duration |
| BlockTimes.AverageIsSpan | pkg/ibc/relay/handler.go:50-57 | within that range the average is newest minus oldest, divided by the number of gaps and rounded down |
| BlockTimes.WindowIsLatest | pkg/ibc/relay/handler.go:44-48 | after any additions the window is the last 100 of them |
| BlockTimes.WindowHoldsHundred | pkg/ibc/relay/handler.go:44-48 | it holds a hundred |
| BlockTimes.AverageWithinGaps | pkg/ibc/relay/handler.go:50-57 | for times that never go back, within that span, the average lies between the smallest and the largest gap |
| BlockTimes.RoundFloatShape | pkg/ibc/relay/handler.go:354 | taking the distance through a float64 keeps order and is exact up to 2^53 |
| BlockTimes.TimeoutIsIdeal | pkg/ibc/relay/handler.go:346-357 | the timeout is symmetric, and free of wrap-around exactly when the ideal one fits a duration |
| BlockTimes.TimeoutShape | pkg/ibc/relay/handler.go:346-357 | the ideal timeout is at least the slower average plus the minimum, tight exactly for equal averages, and monotone |
| Consensus.ExactWithinRange | x/wordle/types/state.go:8-14 | without wrap-around the test is 100 * yes >= 66 * total |
| Consensus.ExactIffNoWrap | x/wordle/types/state.go:8-14 | for given yes votes it is right for all totals exactly when 100 * yes fits an int32 |
| Consensus.TallyPasses | x/wordle/types/state.go:8-14 | a tally passes exactly when at least 66% voted yes and 100 times their number fits an int32 |
| Consensus.TestMeaning | x/wordle/types/state.go:8-14 | the test on every tally, negative numbers included, as a comparison of the wrapped product |
| Consensus.PassingIsEnough | x/wordle/types/state.go:8-14 | for tallies that are not negative a passing test means that at least 66% voted yes, whatever wraps |
| Consensus.NegativeTalliesPass | x/wordle/types/state.go:8-14 | negative tallies that pass without enough votes |
| Consensus.WrapHidesMajority | x/wordle/types/state.go:8-14 | beyond the int32 range no tally passes |
| Consensus.QuorumsIntersect | x/wordle/types/state.go:8-14 | two passing yes-sets of any size share at least 32% of the validators |
| Keys.KeysInjective | x/wordle/types/keys.go:31-39 | no two heights share a tracking key, no two indices a record key |
| Keys.KindsDisjoint | x/wordle/types/keys.go:17-39 | keys of different kinds never coincide |
| Keys.KeyBytes | x/wordle/types/keys.go:15-39 | the keys byte by byte |
| Keys.HeightBytes | x/wordle/types/keys.go:31-39 | heights stand in them most significant byte first |
| Tables.HeightsSort | x/wordle/types/keys.go:31-39 | so that the records of heights stand in the store in their order |
| UndoLog.Keeper.SaveBlockState | x/wordle/keeper/state_tracking.go:12-21 | stores the encoding under the height the record carries |
| UndoLog.Keeper.GetBlockState | x/wordle/keeper/state_tracking.go:23-33 | loads what the stored bytes parse to, in part along with an error, or the zero value |
| UndoLog.Keeper.TrackStateChange | x/wordle/keeper/state_tracking.go:58-70 | the loaded record, filled in part if it does not parse, is saved under its own height with one more change |
| UndoLog.TrackingIsVisible | x/wordle/keeper/state_tracking.go:58-70 | the change reaches the log of the height exactly when the loaded record carries that height |
| UndoLog.TrackingKeepsRecord | x/wordle/keeper/state_tracking.go:58-70 | the record keeps its height, validators, votes and earlier changes, with the reported change behind them, and no other key is written |
| UndoLog.Keeper.RollbackState | x/wordle/keeper/consensus.go:24-45 | the logged changes are undone from last to first |
| UndoLog.Keeper.CommitState | x/wordle/keeper/consensus.go:48-58 | removes the two tracking records and nothing else |
| UndoLog.Keeper.CheckConsensus | x/wordle/keeper/consensus.go:11-22 | true exactly when the stored tally parses and passes |
| UndoLog.DecidedMeaning | x/wordle/keeper/consensus.go:11-22 | a stored tally decides its height exactly when 66 percent of its validators voted yes and 100 times their number fits an int32; none stored does not |
| UndoLog.Keeper.BeginBlock | x/wordle/module/module.go:146-162 | stores a tally without votes |
| UndoLog.Keeper.FinalizeBlock | x/wordle/module/module.go:164-181 | commits with consensus, rolls back without |
| UndoLog.RollbackKeepsTheRest | x/wordle/module/module.go:164-181 | without consensus it writes only keys of the log |
| UndoLog.CommitDropsTwo | x/wordle/module/module.go:164-181 | with consensus it deletes the two tracking records and nothing else |
| UndoLog.UndoTwice | x/wordle/keeper/consensus.go:24-45 | rolling back once more changes nothing |
| UndoLog.UndoneIffUndoable | x/wordle/keeper/consensus.go:35-43 | a reported edit is undone exactly when it is a fresh insert or a delete of a present key |
| UndoLog.UndoneAlike | x/wordle/keeper/consensus.go:35-43 | two stores undo alike exactly when they agree on every key the log does not mention |
| UndoRuns.RollbackUndoesRun | x/wordle/keeper/consensus.go:24-45 | with a record of its height, a run of any edits is undone exactly when the first edit of each key outside the log adds an absent key or deletes a present one, the tracking record aside |
| UndoRuns.UndoableRunIsDescribable | x/wordle/keeper/consensus.go:24-45 | as it is when every edit adds an absent key or deletes a present one |
| UndoRuns.Overwriting | x/wordle/keeper/consensus.go:35-43 | an overwrite of a key that was there is not undone, one of a key the run has added is |
| UndoRuns.LastChangeSurvives | x/wordle/keeper/state_tracking.go:58-70 | without a record of the height only the last change of a run is found, under the other height |
| UndoRuns.UnrecordedRun | x/wordle/keeper/state_tracking.go:58-70 | and the run leaves the store as it was exactly when the last edit of each key restores its value |
| UndoRuns.UndoneIffRestorable | x/wordle/keeper/state_tracking.go:58-70 | the two cases together: when rolling back after any run gives what rolling back before it would |
| UndoRuns.UndoneIffRecorded | x/wordle/keeper/state_tracking.go:58-70 | for edits that add absent keys or delete present ones: exactly when the record carries the height or the run has changed no key outside the log |
| UndoRuns.OneUndoneIffRecorded | x/wordle/keeper/state_tracking.go:58-70 | for a single such edit, when its key stands in the log |
| UndoRuns.UnrecordedInsertStays | x/wordle/keeper/state_tracking.go:58-70 | an insert that rolling back leaves in place |
| UndoRuns.FinalizeAfterRun | x/wordle/module/module.go:164-181 | after any run FinalizeBlock keeps the store without the two tracking records, or restores it exactly when the run is restorable, or reports that the record does not parse |
| UndoRuns.UnvotedBlockRollsBack | x/wordle/module/module.go:146-181 | a block whose tally is only what BeginBlock wrote is never committed, and is rolled back as far as its run is restorable |
| Bank.MovedConserves | x/wordle/keeper/msg_server_submit_wordle.go:50-56 | moving tokens conserves the total and touches the two accounts only |
| Decimal.ItoaReadBack | x/wordle/keeper/msg_server_submit_guess.go:52-70 | parsing a printed count gives the count |
| Decimal.ItoaDigits | x/wordle/keeper/msg_server_submit_guess.go:70 | the digits as they are printed |
| Game.MsgServer.IsLetter | x/wordle/keeper/msg_server_submit_wordle.go:60-67 | whether every rune of the UTF-8 reading is a letter |
| Runes.LettersAndBytes | x/wordle/keeper/msg_server_submit_wordle.go:60-67 | a string of letters has as many runes as bytes exactly when all its bytes are below 0x80 |
| Runes.AsciiWords | x/wordle/keeper/msg_server_submit_wordle.go:60-67 | for such strings the letters are those of the English alphabet |
| Runes.RuneReadBack | x/wordle/keeper/msg_server_submit_wordle.go:60-67 | a rune in UTF-8 of one to four bytes is read back in any surroundings |
| Runes.OnlyRunesAreRead | x/wordle/keeper/msg_server_submit_wordle.go:60-67 | and nothing else is read as one |
| Game.FiveLettersIffAscii | x/wordle/keeper/msg_server_submit_wordle.go:19-26 | an accepted word has two to five letters, and five exactly when it is ASCII |
| Game.ThreeLettersAccepted | x/wordle/keeper/msg_server_submit_wordle.go:19-26 | a word of three letters that is accepted |
| Game.MsgServer.RunSubmitWordle | x/wordle/keeper/msg_server_submit_wordle.go:16-58 | the reply, and on success the new records and balances |
| Game.MsgServer.RunSubmitGuess | x/wordle/keeper/msg_server_submit_guess.go:16-90 | the reply, and on success the new records and balances |
| Game.MsgServer.Deliver | x/wordle/keeper/msg_server_submit_guess.go:16-90 | a message as a transaction: a failing one changes nothing |
| GameRecords.AnswerConditions | x/wordle/keeper/msg_server_submit_guess.go:16-90 | when each answer is given: five bytes, letters, the word of the day, six guesses, the right word, 100 tokens |
| GameRecords.RecordsStored | x/wordle/keeper/msg_server_submit_guess.go:58-75 | what an accepted message stores, field by field, and that no other record changes |
| GameRecords.WordleStored | x/wordle/keeper/msg_server_submit_wordle.go:36-49 | an accepted word stands at the end of any run under its day, with its hash and its submitter |
| GameRecords.LastGuessStored | x/wordle/keeper/msg_server_submit_guess.go:58-75 | at the end of any run the record of a day and creator holds the creator, the hash of the last accepted guess and the count |
| GameRecords.MoneyMoves | x/wordle/keeper/msg_server_submit_guess.go:76-89 | 100 tokens go from the creator of an accepted word to the module account, and back to the creator of a right guess |
| Game.Solvency | x/wordle/keeper/msg_server_submit_guess.go:76-89 | over every run tokens are conserved and the module account holds its start plus 100 per escrow minus 100 per reward, so rewards are covered |
| Game.WordStays | x/wordle/keeper/msg_server_submit_wordle.go:42-49 | once the word of a day is set no later message changes it |
| Game.GuessIsJudged | x/wordle/keeper/msg_server_submit_guess.go:33-89 | an accepted guess is correct exactly when it is the word set for its day, however many messages lie between |
| Game.SixGuesses | x/wordle/keeper/msg_server_submit_guess.go:38-75 | the stored count is the decimal of the guesses accepted for that day and creator, never above six |
| Game.SixPayouts | x/wordle/keeper/msg_server_submit_guess.go:38-89 | a creator is paid at most six times a day, repeated right guesses included |
| Game.SixPayoutsReached | x/wordle/keeper/msg_server_submit_guess.go:38-89 | and six times are reached |
| Tables.PutRefines | x/wordle/keeper/wordle.go:13-21 | setting a record in the byte store updates the typed map at its index |
| Tables.RemoveRefines | x/wordle/keeper/wordle.go:43-54 | removing one removes it from the typed map |
| Tables.WritesKeepTidy | x/wordle/keeper/wordle.go:13-54 | every set and remove, and every set and delete outside the table, leaves nothing but records under their own index |
| Tables.OtherWrites | x/wordle/keeper/guess.go:13-54 | writes under keys of another kind leave the typed map alone |
| Genesis.TrackingIsNoRow | x/wordle/types/keys.go:31-39 | tracking records never show up among wordles or guesses |
| Tables.ListingUnique | x/wordle/keeper/wordle.go:56-71 | there is one ascending listing of a set of keys |
| Tables.LessMeaning | x/wordle/keeper/wordle.go:56-71 | the order is decided at the first byte that differs |
| Tables.ReadAll | x/wordle/keeper/wordle.go:56-71 | every value under the prefix, decoded, in key order; for a tidy table the records of the typed map, each once |
| Tables.ListsDetermined | x/wordle/keeper/wordle.go:56-71 | a typed map has one listing in key order |
| Genesis.GenesisKeeper.GetWordle | x/wordle/keeper/wordle.go:23-41 | the typed map's entry, or none |
| Genesis.GenesisKeeper.GetAllWordle | x/wordle/keeper/wordle.go:56-71 | what is stored under the wordle prefix, in key order, and for a tidy table exactly the wordles |
| Genesis.GenesisKeeper.RemoveWordle | x/wordle/keeper/wordle.go:43-54 | removes one wordle and no guess |
| Genesis.GenesisKeeper.GetGuess | x/wordle/keeper/guess.go:23-41 | the typed map's entry, or none |
| Genesis.GenesisKeeper.GetAllGuess | x/wordle/keeper/guess.go:56-71 | the same for guesses |
| Genesis.GenesisKeeper.GetParams | x/wordle/keeper/params.go:12-21 | the stored parameters, or none |
| Genesis.GenesisKeeper.RemoveGuess | x/wordle/keeper/guess.go:43-54 | removes one guess and no wordle |
| Genesis.Validate | x/wordle/types/genesis.go:22-46 | accepts exactly the states without a duplicate index in either list |
| Genesis.GenesisKeeper.InitGenesis | x/wordle/module/genesis.go:11-24 | writes the lists one after another, then the parameters |
| Genesis.LastOfListWins | x/wordle/module/genesis.go:11-24 | of several records with one index the last of a list counts |
| Genesis.OthersStay | x/wordle/module/genesis.go:11-24 | and records of other indices stay |
| Genesis.GenesisKeeper.ExportGenesis | x/wordle/module/genesis.go:26-36 | both tables in key order and the stored parameters |
| Genesis.ExportDetermined | x/wordle/module/genesis.go:26-36 | a store has one export |
| Genesis.ExportAfterImport | x/wordle/module/genesis.go:11-36 | exporting a valid genesis imported into empty tables gives permutations of its lists, in key order, and its parameters |
| Genesis.ImportAfterExport | x/wordle/module/genesis.go:11-36 | an export is valid, importing it into an empty store reproduces wordles, guesses and parameters, and exporting those gives the same export |
| Fees.FeeShape | app/ante/fee_handler.go:37-53 | for a sensible calculator a larger transaction never costs less and splitting one never costs more in total |
| Fees.FeePerByte | app/ante/fee_handler.go:37-53 | each byte up to the threshold costs the base rate, each beyond it the multiple |
| Fees.ChainRates | app/ante/fee_handler.go:204 | the rates the chain is built with |
| Fees.FeeDecorator.Deduct | app/ante/fee_handler.go:116-170 | the first obstacle in the order of the source, changing nothing, or none and the fee moved |
| Fees.RefusalMeaning | app/ante/fee_handler.go:116-170 | refuses exactly in the listed cases, with the reason that comes first, in the fields of the transaction |
| Fees.GranterPays | app/ante/fee_handler.go:131-170 | a granter pays in place of the payer, whose balance stays; without a granter the payer does |
| Fees.FeeDecorator.AnteHandle | app/ante/fee_handler.go:80-114 | the verdict on every transaction, with the fee taken exactly for those that pass or divide by zero |
| Fees.VerdictMeaning | app/ante/fee_handler.go:80-114 | exactly which transactions pass and at what priority, and which are refused, panic or divide by zero |
| Fees.PriorityMeaning | app/ante/fee_handler.go:231-249 | the priority is the gas price rounded down, capped; for gas limits of 2^63 and more it is positive only by falling out of range |
| Fees.SimulationCanDivideByZero | app/ante/fee_handler.go:84-111 | a simulated transaction that does |
| Fees.FeeMoves | app/ante/fee_handler.go:217-229 | the fee leaves the payer or granter, reaches the collector and touches no one else |

## Left out

- UndoLog.Keeper.TrackStateChange: asks that the encoding stays below 2^63 bytes, the length of a Go slice.
- Relay.RelayHandler.ProcessChannelPackets: the adaptive timeout handed to the relay function, the metrics and the latency are not part of the pass.
- Relay.RelayHandler.ProcessPackets: no interleaving of the goroutines, and a cancellation caused by another channel's error is one of the outcomes given by `Relay.Net`.
- Aliasing of byte slices: `Key`, `Value` and the log slices are values.
- The SDK store's refusal of empty keys and nil values.
- The IBC middleware, whose packets carry no chain identifiers and are all refused by validation.
- The pulsar code, the other generated messages, the gRPC and command-line layers and the application wiring, which would add only easy members.
- Multi-denomination fees, the measuring of a transaction's size, fee-grant bookkeeping and signature decorators.
- Events, logging, pagination and simulation.

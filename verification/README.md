# silentjson: a verified model of its scanners, readers and codecs

silentjson is a Go library that reads and writes JSON quickly. This project models the parts of it on which everything
else rests, in the form the source gives them, and proves what they promise:

* the 32-byte-block array splitter and the byte-wise loop it must agree with;
* the strict grammar of RFC 8259, the unchecked skipper and the key lookup on top of it;
* the serial array readers, strict and tolerant, with their resumable windows;
* the parallel array reader as a step system of one producer and any number of workers, and its path for one processor;
* the stream decoder over a reader that cuts the bytes as it likes, call by call and over whole runs;
* the channel readers as step systems over ring buffers;
* strings, integers, floats and the key index.

Each routine that the source writes as a loop over mutable state is a method, with the fields and buffers it changes,
proved against a function; the theorems are about those functions, so they hold of the methods. Decoding one element
into a struct is a pair of arbitrary functions, `accepts` and `decode`, of the element's bytes. Hash functions and the
rounding of reals are arbitrary functions too. The reader of a stream is an object that hands out any non-empty part
of what is left on each read. `dafny verify dfyconfig.toml` checks everything.

## Findings

What the proofs show about the code where it does not do what its documentation or its other half promises. Each comes
with the condition under which it happens, proved for all inputs.

* A stream that is cut off behind its last element loses that element if any whitespace follows it: on `[1 ` the strict
  decoder answers with a torn fragment and an error, and the tolerant one drops the record and ends cleanly
  (stream.go:220-258, 702-715). Without that whitespace the element is delivered. See `StreamTheorems.CutStream`,
  `StreamTheorems.SpaceLosesLast`, `MixedRuns.AllDeliveredIff`, `MixedRuns.SpaceLosesAll`.
* Every block that `NextChanParallel` hands to a worker loses its last element. The worker splits the block's text
  again, that text ends before the terminator of its last element, and the splitter stores a chunk at a terminator only;
  the flag that would salvage a value without one is never set (stream.go:463, 468-494, 535-540, 684-685). The item is
  delivered all the same, with what its slot held before: on `[1]` the one item that arrives was never parsed. An item
  that is received was written if and only if it is not the last one of its batch. See
  `ChannelBlocks.EveryBlockLosesLast`, `ChannelBlocks.OneIsLost`, `ParallelRing.ReceivedInOrder`.
* Whether a strict stream decoder rejects a trailing comma depends on how the reader cuts the bytes, and nothing else
  does (stream.go:183-193): with `,]` still to come it fails if both bytes are buffered, and ends cleanly if only the
  comma is. See `StreamTheorems.CutsMatterAtTrailingComma`, `StreamTheorems.BothCutsHappen`,
  `StreamRuns.NextAtTrailingComma`.
* With one processor `UnmarshalArrayParallel` accepts arrays that are cut off: it never looks for the closing bracket,
  so of `[1,2` it returns the first element as the whole array, without an error (parallel.go:384-390, 448-452). It does
  so if and only if the elements that have their comma parse and fit, and what is left of the last one leaves no bracket
  open or the last batch is full. With more processors the same inputs are always refused. See
  `SingleTheorems.CutAlone`, `SingleTheorems.TruncatedIsAccepted`, `CutPlans.CutIsPlanned`.
* After an error nobody takes the batches of `NextChanParallel` any more: its producer queues at most twice as many
  further batches as there are workers, and then waits for ever if the stream holds more (stream.go:501-504, 540-547).
  Without an error it never waits for ever. See `RingProgress.HaltedStays`, `RingProgress.WaitsMeansDone`.
* `partialFloat` reads its table of powers by index, and the bound that its comment gives is wrong: `0.` followed by 23
  zeros and `e` gives index 23, and the program stops. The index is in range exactly if the fraction has at most 22
  digits; with a nonzero integer part it always is (primitives.go:349-366). See `Floats.PartialValueIff`,
  `Floats.PartialValueLeavesTable`.
* The serial readers accept a doubled comma when the first of the two commas fills the chunk buffer, for every buffer
  length, because each window checks only its own gaps (parallel.go:154-168). Neighbouring elements are separated by
  exactly one comma if and only if no window that is followed by another one with elements ends in an empty chunk. See
  `SeparatorTheorems.OneCommaIff`, `SeparatorTheorems.DoubledCommaAccepted`, `DoubledCommas.DoubledCommaRefused`.
* The tolerant array reader reports wrong numbers: the record of a damaged element is its number, as the documentation
  has it (tolerant.go:27-28), if and only if as many elements were kept before it as stand in earlier windows. In the
  first window that means that nothing was kept: if of `[1,2]` only the first element parses, the second one is reported
  as record 2 (parallel.go:289-302). And it takes a comma of a well-formed array for a bad separator if and only if the
  chunk buffer is filled by elements none of which parses (parallel.go:269-275). What it keeps is right in both cases.
  See `TolerantArrays.RecordRightIff`, `TolerantArrays.SecondTakenForThird`, `TolerantArrays.CommaBlamedIff`.
* The portable splitter stops with depth -1 at a closing brace at depth 0, where the vector routine goes on, and a full
  buffer does not stop it, so that it can answer another depth (scalar.go:237-258). See
  `ScalarSplitter.FindArrayElementsScalar`, `ScalarSplitter.SameAsBlocks`, `ScalarSplitter.FewerThanBlocks`.
* The unchecked skipper's guard lets the length of the data through as an index, and the program stops when it reads
  that byte (parser.go:11-15). See `RawSkip.SkipValueUnchecked`.
* The parallel reader accepts 1024 commas in front of the first element: they fill the first window, and the second one
  expects a comma. Only whitespace stands before the first element if and only if the array does not begin so
  (parallel.go:529-545). With one processor the same input is refused (parallel.go:424-429). See
  `LeadingCommas.LeadingIff`, `LeadingCommas.CrowdedAccepted`, `SingleTheorems.CrowdedIsRefused`.
* In a registry of more than 16 fields a key whose length is a multiple of 256 is never found, because its stored
  length marks an empty slot (registry.go:474-477, parser.go:655-658). A long key whose length modulo 256 is between 1
  and 8 is taken for a short key of that many zero bytes where the probe meets it first. For every key whose length is
  no multiple of 256 the answer is right if and only if no such entry stands in the way; and where a long key has the
  hash of an absent one, the absent one is found. In registries of keys of 1 to 255 bytes the lookup is right. See
  `KeyTable.FindField`, `KeyTable.Table.Lookup`, `KeyTable.LongNameLost`, `KeyTable.LongNameFound`.
* `appendIntScalar` writes the smallest int64 as `-0` (scalar.go:67-86). See `Integers.ScalarInvertedUnlessMinimum`.
* Taking the address of slot 0 stops the serial readers on an empty destination (parallel.go:127, 245), while the
  parallel reader answers with success before it has checked anything (parallel.go:359-361). The error `Panic` of
  `Slices` and `PipelineTheorems.Begin` model this.

## Model

| member | source | states |
|---|---|---|
| `Avx2Splitter.FindArrayElementsAVX2` | find_quote_amd64.s:1433-1867 | for every input and every chunk buffer, the block splitter (nibble tables, prefix XOR of the quotes, backslash path, escape carry across blocks and into the tail) stores exactly the chunks, and returns the count and the depth, of the byte-wise automaton run over the whole input |
| `Avx2Splitter.FindArrayElementsBytewise` | find_quote_amd64.s:1757-1867 | the tail loop alone, entered at the first byte, computes the same automaton, so the two agree on all inputs |
| `Avx2Splitter.FastBlock` | find_quote_amd64.s:1574-1638 | a block without backslashes, walked by its structural bits outside strings, moves the automaton over exactly its 32 bytes |
| `Avx2Splitter.SlowBlock` | find_quote_amd64.s:1639-1752 | a block with backslashes does the same and hands on the escape of its last byte |
| `Splitter.TailLoop` | find_quote_amd64.s:1768-1855 | the byte loop, entered in any state of the registers with an escape carry, finishes the automaton's run |
| `Simd.NibblesClassify` | find_quote_amd64.s:1439-1480 | the two 16-entry tables and one AND select exactly the structural bytes among all 256 |
| `Simd.ProductIsPrefixXor` | find_quote_amd64.s:1548-1573 | bit k of the carry-less product with all ones is the parity of the bits up to k |
| `Simd.FindQuoteOrEscapeAVX2` | find_quote_amd64.s:1873-1950 | finds the first quote or backslash and says which it is, or that there is none |
| `ScalarSplitter.FindArrayElementsScalar` | scalar.go:206-272 | it stores, with trimmed starts, the chunks that the reference stores with room for one more, as far as there is room, and answers its depth; at the first closing brace at depth 0 it stops with -1 and the chunks found before |
| `ScalarSplitter.SameAsBlocks` | scalar.go:206-272 | without such a brace it stores exactly what the block splitter stores, up to leading whitespace, for every buffer, and answers the same depth unless the buffer is full |
| `ScalarSplitter.FewerThanBlocks` | scalar.go:237-248 | in every case it stores a beginning of what the block splitter stores, and it answers -1 if and only if it meets such a brace |
| `Splitter.RunExactRoom` | find_quote_amd64.s:1707-1752 | a buffer with room for exactly what was found receives the same chunks |
| `Splitter.SplitPrefix` | find_quote_amd64.s:1433-1867 | what is found in the bytes that have arrived is a beginning of what is found in all bytes |
| `Grammar.ValueAtText` | parser.go:396-401 | a value stands at an index if and only if its text does: the two readings of the grammar agree |
| `StrictSkip.SkipValueStrict` | parser.go:402-514 | the recursive skipper, with its token, string and literal loops, returns what the specification function gives, and terminates |
| `StrictGrammar.AcceptsExactlyValues` | parser.go:402-514 | the strict skipper accepts with end j exactly if one value of the RFC 8259 grammar stands at i, ends at j and, if it is a number, is followed by a delimiter or the end of input |
| `StrictGrammar.SkippedIsValue` | parser.go:402-514 | soundness: from a success the syntax tree of the value is built |
| `StrictGrammar.ValueIsSkipped` | parser.go:402-514 | completeness: every value in front of a delimiter or the end is accepted with its end |
| `StrictErrors.EndCanBeContinued` | parser.go:402-514 | whenever the skipper fails with the unexpected end, some continuation of the input is skipped to its end as one value |
| `StrictErrors.CutCompositeEnds` | parser.go:412-494 | an object or array that is cut off behind its bracket, behind an item or behind a comma fails with the unexpected end |
| `StrictErrors.StringEndIff` | parser.go:407-414 | a string fails with the unexpected end if and only if it is cut off before its closing quote |
| `StrictErrors.UnfinishedNumber` | parser.go:496-511 | a token at the end of the input that some continuation makes a number fails with the unexpected end, and with a delimiter behind it with the type mismatch |
| `StrictErrors.LiteralMismatch` | parser.go:377-393 | a literal is accepted exactly as spelled and fails with the type mismatch otherwise, cut off or not |
| `RawSkip.SkipValueUnchecked` | parser.go:10-68 | the unchecked skipper's loops return the end that one kind of bracket and the strings decide; an index outside the data gives its length, and the length itself stops the program |
| `RawSkip.UncheckedAgrees` | parser.go:10-68 | wherever the strict skipper accepts a value in front of a delimiter or the end, the unchecked one returns the same end |
| `RawSkip.CutRunsOut` | parser.go:10-68 | of a value that is cut off, everything up to the end of the input is skipped |
| `RawSkip.FindValueTop` | raw.go:65-126 | the loop over members returns what the walk over the object finds, or that it finds nothing |
| `RawSkip.FindsFirstMember` | raw.go:65-126 | on every valid object the walk finds the first member whose decoded name is the key, with the exact range of its value, and nothing if there is none |
| `ArrayElements.RunValue` | find_quote_amd64.s:1768-1855 | running over a complete value at any depth leaves the splitter's state as it was, whatever the bracket kinds inside |
| `ArrayElements.SplitArray` | find_quote_amd64.s:1433-1867 | on every well-formed array body the splitter stores exactly the elements, in order, up to the buffer's length |
| `ArrayElements.SplitResumed` | parallel.go:139-157 | a window that resumes at a comma gives one empty chunk and then the next elements |
| `ArrayElements.ElementsHoldValues` | parser.go:402-514 | each of those chunks holds exactly one value that the strict skipper recognises, with nothing but whitespace around it |
| `Windows.ArrayTailClosed` | parallel.go:36-48 | true exactly if only whitespace surrounds one closing bracket |
| `Windows.ValidArrayGap` | parallel.go:57-72 | true exactly if the gap is whitespace with one comma where one is expected |
| `Windows.EmptyArrayRemnant` | parallel.go:74-87 | true exactly if what is left is whitespace around one closing bracket |
| `Windows.SeparatesIff` | parallel.go:57-72 | a gap passes the check if and only if it is whitespace with one comma in it, or whitespace where no comma is expected |
| `Windows.ClosesIff` | parallel.go:36-48 | a tail passes the check if and only if it is whitespace with one closing bracket in it |
| `Slices.UnmarshalSlice` | parallel.go:98-220 | succeeds exactly if the window-by-window specification accepts; then slot k holds what range k decodes to, and no slot behind the last one is written |
| `TolerantSlices.UnmarshalSliceTolerant` | parallel.go:222-339 | for every input, damaged or not: exactly the ranges and the problems of the window-by-window specification, salvage of the last element included; the ranges are increasing and slot k holds what range k decodes to |
| `TolerantTheorems.NoProblemIffAccepted` | parallel.go:222-339 | it reports no problem if and only if the strict reader accepts, for the same input, destination and chunk buffer, and then it reads the same ranges |
| `TolerantArrays.WellFormedTolerated` | parallel.go:248-308 | on every well-formed array that fits, whichever elements parse: what is kept and every report, with its offset, record and kind |
| `TolerantArrays.HealthySurvive` | parallel.go:222-339 | the elements that parse are kept, in order, and no others; each of the others is reported once, in order, with the position at which it starts |
| `TolerantArrays.RecordRightIff` | parallel.go:289-302 | a reported record is the number of its element if and only if as many elements were kept before it as stand in earlier windows |
| `TolerantArrays.SecondTakenForThird` | parallel.go:297-299 | `[1,2]` with a damaged second element reports record 2 |
| `TolerantArrays.CommaBlamedIff` | parallel.go:269-275 | a comma of a well-formed array is reported as a bad separator if and only if the first window is followed by another and none of its elements parses |
| `TolerantRoom.RoomDecides` | parallel.go:283-287 | on every well-formed array and for every destination: if some window has more elements, parsing or not, than slots are left, nothing is kept, and the problems up to it end with the lack of room at the end of the element in front; otherwise all that parse are kept |
| `CutArrays.CutTolerated` | parallel.go:311-337 | on every array that is cut off inside its last element or in front of it, whichever elements parse: the terminated elements that parse are kept, and then the last one if what is left of it begins with a value and parses; the array is reported as unterminated once, last, at the end of the last terminated element |
| `CutArrays.OnlyBracketMissing` | parallel.go:317-335 | if only the closing bracket is missing, the last element is kept if and only if it parses, whatever whitespace stands around it |
| `CutArrays.TornIsLost` | parallel.go:328-335 | a last string, literal, array or object that is torn is not kept |
| `CutArrays.SplitCut` | find_quote_amd64.s:1433-1867 | of an array that is cut off the splitter stores exactly the terminated elements, as far as there is room |
| `SliceTheorems.AcceptedMeansCovered` | parallel.go:123-219 | on every success the input begins with a bracket, the ranges are increasing and disjoint, all are accepted and fit, and every other byte is whitespace, a comma between two ranges, or the one closing bracket |
| `SliceTheorems.InsideIff` | parallel.go:109-114 | the reader finds an opening bracket if and only if one stands behind nothing but whitespace, and goes on behind it |
| `SliceTheorems.NotAnArrayIff` | parallel.go:98-127 | it refuses an input as no array if and only if it is not empty and has no such bracket, and stops the program if and only if it has one and the destination is empty |
| `SeparatorTheorems.OneCommaIff` | parallel.go:154-168 | neighbouring accepted ranges are separated by exactly one comma if and only if every window that is followed by one with elements ends in an element |
| `SeparatorTheorems.OneWindowOneComma` | parallel.go:154-168 | in particular they are if the array fits one scan of the chunk buffer |
| `SeparatorTheorems.DoubledCommaAccepted` | parallel.go:139-168 | for every chunk buffer of n + 1 entries, n elements, two commas and one more element are accepted |
| `DoubledCommas.DoubledCommaRefused` | parallel.go:154-168 | with a larger chunk buffer the same array is refused for its separator, whatever the destination |
| `DoubledCommas.DoubledCommaPlanned` | parallel.go:529-545 | and so it is by the producer of the pipeline, as long as it fits one batch |
| `DoubledCommas.DoubledCommaAlone` | parallel.go:404-423 | and by the reader with one processor |
| `DoubledCommas.DoubledCommaReported` | parallel.go:269-275 | and the tolerant reader keeps all its elements and reports one bad separator, at the element behind the two commas |
| `SeparatorTheorems.NothingLeft` | parallel.go:139-153 | when a scan did not fill its buffer, the next window holds nothing but an empty chunk |
| `WellFormedArrays.WellFormedIsAccepted` | parallel.go:123-219 | for every chunk buffer of at least two entries and a destination with room, a well-formed array whose elements are accepted is read completely: its elements, each once, in order |
| `StrictArrays.WellFormedVerdict` | parallel.go:123-219 | on every well-formed array, whichever elements parse and however small the destination: all elements, or the lack of room, or the element error, decided by which window comes first |
| `StrictArrays.CutVerdict` | parallel.go:123-219 | on every array that is cut off inside its last element or in front of it: never success; the same errors for the terminated elements, and otherwise malformed, or unterminated if nothing follows the bracket |
| `ParallelPlan.ScanBatch` | parallel.go:482-564 | one batch of the producer decides what the specification says: leave, refuse, or go on with these elements |
| `ParallelPlan.CheckGaps` | parallel.go:529-545 | the producer's separator loop accepts exactly if every gap of the batch is good |
| `ParallelTheorems.ScansAreSound` | parallel.go:496-564 | each batch moves on, lies inside the input and fits the destination, as the step system requires |
| `ParallelTheorems.CompleteMeansSeparated` | parallel.go:529-572 | when the producer finds no fault, exactly one comma and whitespace stand between any two neighbouring elements, across batches too, and only the closing bracket and whitespace behind the last |
| `ParallelTheorems.WellFormedIsPlanned` | parallel.go:482-572 | a well-formed array has a complete plan, its elements in order, if it fits the destination, and otherwise the plan ends with the lack of room |
| `CutPlans.CutIsPlanned` | parallel.go:496-572 | the plan of every array that is cut off inside its last element or in front of it breaks off, with exactly this reason: open brackets in a last batch that is not full, the lack of room, or the missing bracket |
| `SingleWorker.UnmarshalArrayAlone` | parallel.go:347-453 | with one processor, for every input: success, slots and untouched slots, or the error, as the batch-by-batch specification says |
| `SingleTheorems.WellFormedAlone` | parallel.go:377-453 | on every well-formed array it answers what the serial reader answers with a chunk buffer of 1024 entries |
| `SingleTheorems.PlannedIsReadAlone` | parallel.go:377-453 | on every input: where the plan of the pipeline is complete and its elements parse, it returns the same elements, or refuses the input as malformed |
| `SingleTheorems.CrowdedIsRefused` | parallel.go:424-429 | it refuses the 1024 leading commas that the pipeline accepts |
| `SingleTheorems.CutAlone` | parallel.go:384-390 | on every array that is cut off it succeeds if and only if the terminated elements parse and fit, and the rest leaves no bracket open or the last batch is full; the last element is then missing |
| `SingleTheorems.TruncatedIsAccepted` | parallel.go:384-390 | `[1,2` without its bracket is accepted as an array of one element, and the pipeline refuses it |
| `LeadingCommas.LeadingIff` | parallel.go:529-545 | only whitespace stands before the first element if and only if the array does not begin with 1024 commas |
| `LeadingCommas.CrowdedAccepted` | parallel.go:508-564 | 1024 commas, one element and a bracket are accepted |
| `Pipeline.InvKept` | parallel.go:455-587 | every step of producer and workers keeps the invariant: no sent element is lost, a written slot holds its own element, an error is in the channel or was taken |
| `PipelineTheorems.RunsAreSafe` | parallel.go:455-587 | the invariant and the exclusive ownership of slots hold in every state of every run, for every interleaving |
| `PipelineTheorems.EveryRunDecides` | parallel.go:359-587 | every run that returns succeeds exactly if the destination is empty, or the producer's checks pass and every element parses; on success exactly the slots of the elements are written, each with its own |
| `PipelineTheorems.SuccessIff` | parallel.go:566-586 | at the return: success if and only if the plan is complete and every planned element parses; no error is lost by the channel that drops what does not fit |
| `PipelineTheorems.ExclusiveKept` | parallel.go:464-479 | tasks under way share no slot, and a written slot belongs to no task |
| `PipelineTheorems.WrittenOnce` | parallel.go:465-476 | the slot that a worker writes has not been written before |
| `PipelineTheorems.NoDeadlock` | parallel.go:455-587 | until the producer returns, some step can be taken |
| `PipelineTheorems.RunsAreBounded` | parallel.go:455-587 | no run is longer than the work it begins with, so every run ends |
| `StreamDecoder.Reader.Read` | stream.go:89-97 | any non-empty part of what is left, or the end; the end may come with the last bytes |
| `StreamDecoder.Decoder.Fill` | stream.go:69-99 | sliding, doubling and reading change nothing about the bytes that are still to be consumed |
| `StreamDecoder.Decoder.NextChunk` | stream.go:104-267 | answer, flags, undelivered bytes and reports after the call are the function of those before it and of one boolean, whatever the reader does; in front of a trailing comma that is buffered that boolean says whether the closing bracket is buffered too |
| `StreamDecoder.Decoder.NextRawBlock` | stream.go:562-721 | the same for a block call, with the same boolean: as one text the elements among the first n chunks, with their count, an error, or the end; n is what the splitter finds, up to the limit, in all the bytes that have arrived when a block is handed out; and a limit from 1 to 10000 is never exceeded, nor is 10000 |
| `StreamSpec.TurnKeepsAnswer` | stream.go:117-194 | every turn of the loop keeps the answer that the call will give |
| `StreamTheorems.CutsMatterAtTrailingComma` | stream.go:183-193 | a strict call has the same outcome for both values of that boolean if and only if it does not stand in front of a trailing comma |
| `StreamTheorems.CutsDecide` | stream.go:183-193 | in front of a trailing comma that is buffered, the answer is the error if the closing bracket is buffered too, and otherwise the clean end |
| `StreamTheorems.BothCutsHappen` | stream.go:183-193 | with `,]` to come behind an element: the error if both bytes are buffered, the end if only the comma is |
| `StreamTheorems.TolerantCutsAgree` | stream.go:104-267 | a tolerant call gives the same answer, flags and bytes for all cuts |
| `StreamTheorems.WellFormedStream` | stream.go:104-267 | a complete well-formed stream gives its elements in order and then the end, in both modes, for all cuts, without a report |
| `StreamTheorems.CutStream` | stream.go:215-262 | a stream cut off behind its last element gives all its elements and then the truncation if and only if no whitespace follows the last one; otherwise all but the last, and the torn text or a clean end |
| `TornStreams.TornStream` | stream.go:104-267 | a stream cut off inside an element, or behind a comma, gives all complete elements, and what is left of the next one if and only if it is a whole value; then the truncation, reported once in tolerant mode, and in strict mode with the torn bytes |
| `StreamTheorems.NotAnArrayIff` | stream.go:138-155 | the first call fails for a missing bracket if and only if another byte stands behind the leading whitespace |
| `StreamTheorems.SpaceLosesLast` | stream.go:228-258 | `[1 ` gives no element: the strict decoder answers with the torn text, the tolerant one with a clean end |
| `StreamTheorems.TruncationSticks` | stream.go:108-115 | however many calls follow a truncation, each fails with it, or ends cleanly in tolerant mode, and none reports or moves |
| `StreamTheorems.ReportedAtMostOnce` | stream.go:43-52 | over any number of calls a truncation is reported at most once |
| `StreamTheorems.CleanEndMeansClosed` | stream.go:104-267 | when a strict run of element calls ends cleanly, the bytes are the opening bracket, elements at depth 0 with exactly one comma between any two, and the closing bracket; only in front of the bracket a comma may have passed unseen |
| `StreamRuns.ForEach` | stream.go:310-332 | the callback gets the items of the run that the bytes determine, up to the one that it declines or, in strict mode, the first that does not parse; in tolerant mode those are noted and skipped; otherwise the loop ends with the last answer of the run, and the reports are those of the run |
| `StreamRuns.TolerantVisits` | stream.go:310-332 | a callback that never declines gets from a tolerant decoder all items that parse, and the run goes on to its end |
| `StreamRuns.StrictVisits` | stream.go:310-332 | from a strict decoder the callback gets a beginning of the items; the run goes on to its end if and only if all of them parse and it declines none |
| `StreamRuns.ForEachElement` | stream.go:310-332 | on a complete stream those items are exactly the elements, in order, and the last answer is the end |
| `StreamRuns.ForEachBeforeCut` | stream.go:310-332 | on a stream cut off behind its last element they are all elements, or all but the last if whitespace follows that one |
| `StrayCommas.TolerantSpread` | stream.go:164-193 | on a stream whose elements have any number of commas around them, a tolerant decoder delivers all elements in order and ends cleanly; it reports one leading comma for each comma in front of the first element and one duplicate comma for each comma beyond the first behind an element, in order, and a comma in front of the bracket if it is seen |
| `StrayCommas.StrictSpread` | stream.go:164-193 | a strict decoder delivers the elements in front of the first stray comma and fails with its error |
| `StrayCommas.DrainSpread` | stream.go:164-193 | draining a tolerant decoder over such a stream hands all elements to the callback and leaves exactly those reports |
| `StreamRuns.NextAtTrailingComma` | stream.go:183-193 | a call of the decoder in front of a buffered trailing comma fails if the closing bracket is buffered too, and otherwise ends the stream cleanly |
| `BlockTheorems.BlockInStream` | stream.go:562-721 | a block call at any place of a complete or cut stream: a block of the next elements, its count, and where the decoder then stands |
| `BlockTheorems.BlockHoldsAll` | stream.go:628-690 | a block holds every element that is complete in the bytes that have arrived, up to the limit; if they do not fill it, a larger limit gives no more |
| `BlockTheorems.TakeBlocks` | stream.go:496-547 | the producer's loop takes the elements in order, each element in exactly one block of at most maxCount elements for a limit from 1 to 10000 and of at most 10000 in any case, and then meets the end or the truncation |
| `MixedRuns.Serve` | stream.go:562-568 | a client that mixes both kinds of calls as it likes makes a run of the model |
| `MixedRuns.EveryRunServes` | stream.go:104-267 | every such run over a complete or cut stream takes the elements in order, each once, and then meets the end or the truncation |
| `MixedRuns.AllDeliveredIff` | stream.go:702-715 | with enough calls all elements are delivered if and only if the stream is complete, empty, or has nothing behind its last element |
| `MixedRuns.SpaceLosesAll` | stream.go:702-715 | on `[1 ` no call of either kind delivers anything |
| `MixedRuns.EndMeansClosed` | stream.go:601-604 | in every run of strict calls of both kinds, also behind errors, the end is answered only at the closing bracket at element level |
| `MixedRuns.TruncationSticks` | stream.go:566-568 | in every such run each call behind a torn element, a truncation error or a salvaged last element fails with the truncation |
| `MixedRuns.EndsStick` | stream.go:563-568 | from any state that has seen the end or the truncation, every later call answers with it and delivers nothing |
| `StreamLevels.SeekStops` | stream.go:570-626 | the search for an element consumes whitespace, the opening bracket and legal commas, and nothing else |
| `StreamLevels.KeptAtTop` | stream.go:684-690 | the bytes up to the end of a block leave all strings and brackets closed |
| `Rings.RunsAreSafe` | stream.go:364-397 | in every state of every run of the one-producer ring, a live item keeps its slot |
| `Rings.DeliveredInOrder` | stream.go:364-397 | the n-th item received is item n and intact, and no write hits the slot of an item that waits, is buffered, or was received last |
| `Rings.AllReceived` | stream.go:364-397 | a run that cannot be continued has received every item that it has written |
| `ParallelRing.RunsAreSafe` | stream.go:413-555 | the invariant of producer, workers, submitter and ring holds in every state of every run |
| `ParallelRing.WriteIsSafe` | stream.go:413-555 | a worker never writes the slot of another item that is queued, buffered, or the last one received |
| `ParallelRing.DeliveredInOrder` | stream.go:413-555 | in every run the n-th item delivered is item n, from a batch that was finished without error; that all of them are delivered is RingProgress.AllReceived |
| `ParallelRing.ReceivedIff` | stream.go:468-494 | the item received next was written by a worker, and its slot still holds it, if and only if it is not the last one of its batch; the slot stays untouched until the next one is asked for |
| `ParallelRing.ReceivedInOrder` | stream.go:413-555 | in every run the n-th item received is item n, and its slot holds it if and only if it is not the last one of its batch |
| `RingProgress.WaitsMeansDone` | stream.go:413-555 | in every reachable state some step can be taken, even if the stream has no end, unless everything is received, or an error has stopped the submitter and everything before it is received |
| `RingProgress.StuckMeansDone` | stream.go:413-555 | when no step can be taken at all, the producer has ended, and everything, or everything in front of the first error, is received |
| `RingProgress.HaltedStays` | stream.go:501-504 | behind an error nothing more is sent, and the producer queues at most as many further batches as the queue holds |
| `RingProgress.RunsGoOn` | stream.go:413-555 | a run can be continued, even if the stream has no end, until everything is received or an error has stopped the submitter |
| `RingProgress.AllReceived` | stream.go:496-555 | a run without errors that cannot be continued has received as many items as the batches it queued hold together |
| `RingProgress.ReceivedBeforeError` | stream.go:501-508 | with errors, it has received all items, or exactly those of the batches in front of the first one that failed |
| `RingProgress.RunsAreBounded` | stream.go:413-555 | no run is longer than its number of batches and items allows, so every run ends |
| `ChannelBlocks.Resplit` | stream.go:449-473 | the ranges that a worker parses are those of the specification |
| `ChannelBlocks.Produce` | stream.go:513-547 | the producer asks for 64 elements; the step that follows is enabled as soon as the batch queue has room, so no batch holds more elements than the ring has slots for |
| `ChannelBlocks.SalvageNeedsFlag` | stream.go:459-473 | the block of a complete last value is parsed if its batch carries the flag of a truncation, and lost without it |
| `ChannelBlocks.LastIsNotFound` | stream.go:455-473 | of the text of any block of n elements, however it came about, the worker finds n - 1: those before the last |
| `ChannelBlocks.EveryBlockLosesLast` | stream.go:449-494 | in every run of strict calls, on any stream, this is so of every block that is handed out |
| `ChannelBlocks.WellFormedLosesLast` | stream.go:684-690 | of the text of the first n elements of a well-formed stream it finds exactly the first n - 1 |
| `ChannelBlocks.OneIsLost` | stream.go:455-473 | the block of `[1]` counts one element, and the worker finds none |
| `StringEncoder.AppendStringAVX2` | find_quote_amd64.s:98-273 | writes the quoted text, or stops at a control byte with everything before it escaped, or reports that the capacity does not suffice; nothing below the start changes, and nothing is written past the capacity |
| `StringEncoder.AppendStringScalar` | scalar.go:88-103 | appends the quoted text, or everything before the first byte that needs an escape |
| `StringEncoder.AppendJSONStringGo` | registry.go:588-619 | appends the quoted text |
| `StringEncoder.MarshalString` | registry.go:539-579 | with either routine, for every string and every capacity, the result is the same quoted text |
| `StringEncoder.RoundTrip` | registry.go:539-619 | decoding the body of the quoted text gives back the string and consumes all of it and the quote |
| `StringEncoder.QuotedIsStrict` | registry.go:588-619 | the quoted text is a string of RFC 8259 section 7 without raw control bytes |
| `StringDecoder.DecodeEscapedString` | primitives.go:564-629 | the in-place loop with its buffer of initial capacity computes the decoding, and never grows past it |
| `StringDecoder.ReadJSONString` | primitives.go:638-655 | the quote scan and the escape path together compute the same decoding |
| `StringDecoder.BodyIsDecoded` | primitives.go:564-655 | every string body of the grammar is decoded up to its quote |
| `StringDecoder.DecodedIsBody` | primitives.go:564-655 | whatever is decoded is a string body of the grammar |
| `StringEscapes.EscapeDenotes` | primitives.go:598-620 | at every position: four digits of either case that spell a code unit other than a surrogate are decoded to one well-formed character with that value, in front of the rest |
| `StringEscapes.PairDenotes` | primitives.go:608-616 | the two escapes of the UTF-16 pair of a supplementary code point are decoded to one character with that value, and 12 bytes are consumed |
| `StringEscapes.LoneSurrogate` | primitives.go:608-620 | a surrogate without its mate is decoded to the three bytes of U+FFFD, and what follows it on its own |
| `StringEscapes.SimpleDenotes` | primitives.go:581-597 | the eight simple escapes are decoded to these bytes |
| `StringEscapes.PlainDenotes` | primitives.go:625-627 | every other byte is copied as it stands |
| `StringEscapes.BadEscape` | primitives.go:598-623 | any other escape, and one whose four digits are cut off or are no digits, is a type mismatch |
| `StringEscapes.CutIff` | primitives.go:564-578 | the decoding fails with the unexpected end if and only if the body is cut off: before its quote, or behind a backslash |
| `StringDecoder.DecodePreservesUtf8` | primitives.go:564-629 | well-formed UTF-8 (RFC 3629 section 3) is decoded to well-formed UTF-8 |
| `Strings.ParseHex4` | primitives.go:543-559 | accepts exactly four hexadecimal digits, with their value |
| `Strings.CombineInvertsUtf16` | primitives.go:606-614 | combining a surrogate pair inverts the UTF-16 split of every supplementary code point |
| `Strings.Utf16InvertsCombine` | primitives.go:606-614 | and splitting inverts combining, for every pair of a high and a low surrogate |
| `Strings.RuneRoundTrip` | primitives.go:606-620 | the UTF-8 form of every scalar value is read back as that value, with its length |
| `Integers.ReciprocalDivides` | find_quote_amd64.s:1025-1048 | multiplying by the reciprocal and shifting the high word by 3 divides every uint64 by 10 |
| `Integers.AppendIntAVX2` | find_quote_amd64.s:995-1073 | with 20 free bytes writes the decimal form of every int64, and otherwise nothing |
| `Integers.AppendIntScalar` | scalar.go:67-86 | appends the decimal form, with the negation of the minimum wrapping around |
| `Integers.ParseJSONInt` | primitives.go:100-143 | accepts exactly the decimal integers that fit an int64, with their value |
| `Integers.DecimalIsParsed` | primitives.go:100-143 | the decimal form of every int64 is parsed to that number |
| `Integers.ParsedIsDecimal` | primitives.go:100-143 | a parsed text other than `-0` is the decimal form of its number |
| `Integers.ScalarInvertedUnlessMinimum` | scalar.go:67-86 | the scalar text is parsed to the number if and only if it is not the smallest int64 |
| `Numbers.ValidJSONNumber` | primitives.go:147-192 | true exactly for the numbers of RFC 8259 section 6 |
| `Numbers.IncompleteNumber` | primitives.go:377-423 | true exactly if the token is no number and some continuation makes it one |
| `Floats.ParseFloatFast` | primitives.go:228-347 | the validating pass answers what the grammar's own scan of the whole token decides |
| `Floats.AcceptsExactlyTheEnvelope` | primitives.go:204-227 | it accepts exactly the numbers with a mantissa up to 2^53 a written exponent up to 100000 and a decimal exponent between -22 and 22, and computes with their own digits |
| `Floats.FastPathRoundsOnce` | primitives.go:216-222 | both operands are exact, so for every rounding the result is the literal's exact value rounded once |
| `Floats.TruncatedIsExtensible` | primitives.go:207-212 | every token that is flagged as truncated can be completed to a number |
| `Floats.CutForms` | primitives.go:207-212 | it is a minus sign, or a number cut off behind its point, its exponent mark or that mark's sign |
| `Floats.PartialValueIff` | primitives.go:349-366 | the partial value is the rounded value of what was read if and only if the fraction has at most 22 digits, and always with a nonzero integer part; otherwise the table index is out of range |
| `Floats.PartialValueLeavesTable` | primitives.go:353-361 | `0.`, 23 zeros and `e` has no partial value |
| `KeyIndex.PackInjective` | registry.go:150-171 | keys of the same length with the same little-endian number are equal |
| `KeyIndex.PackKey` | parser.go:599-623 | the overlapping loads of all lengths up to 8 give that number |
| `KeyIndex.ScanFields` | parser.go:625-640 | the scan of small registries finds the first field with the key |
| `KeyIndex.MaskIsRemainder` | registry.go:463 | masking with a power of two less one is the remainder |
| `KeyTable.InsertKeeps` | registry.go:465-483 | inserting at the first empty slot keeps every field reachable from its home and earlier duplicates nearer |
| `KeyTable.Table.Fill` | registry.go:454-485 | filling always ends, for arbitrary hash functions, with every storable field in its place |
| `KeyTable.Table.Lookup` | parser.go:641-678 | the probe always ends; a key that is not storable is never found, and for every other key the answer is the first field with the key if and only if no entry that passes for it stands in the way |
| `KeyTable.FindField` | parser.go:625-678 | registry size and all collisions included: the lookup is the first match of a linear scan for keys of 1 to 255 bytes; unless a long key passes for the key it differs exactly for a present key whose length is a multiple of 256; and where a long key passes for it and shares its hash, something is found, be the key present or not |
| `KeyTable.LongNameLost` | registry.go:474-477 | among 17 fields the one with a name of 256 bytes is not found, whatever the hash functions |
| `KeyTable.LongNameFound` | parser.go:655-678 | a field with a name of 257 bytes is found for the name of one zero byte, which no field has, if their hashes agree |

## Left out

- Decoding of fields into structs through unsafe pointers and reflection: `accepts` and `decode` are arbitrary functions
  of an element's bytes, because the claims are about byte ranges, slots and order.
- Returned slices are copies: that they alias the input or the stream buffer, and become invalid with the next read, is
  not modelled; neither are buffer pools.
- Choice of routine by CPU features, and the disabled NEON routines.
- Errors of a reader other than the end of its bytes; texts and offsets of errors.
- The checks of the raw input before the parallel pipeline starts, parallel.go:347-355: the pipeline begins behind the
  opening bracket. SingleWorker.UnmarshalArrayAlone models the same checks in front of the path with one processor.
- The second scan of NextRawBlock for an element of more than 1 MB, stream.go:646-648: it stores nothing that the first
  scan has not stored. Its argument maxSize is not used by the code.
- ParallelRing.RunsAreSafe: models slot indices, order and reuse of slots; a slot holds the number of the item that was
  parsed into it, not its value. How many items a worker finds is the number that ChannelBlocks.EveryBlockLosesLast
  gives; the salvage of a worker is modelled by ChannelBlocks.Resplit alone, because no batch reaches it.
- Goroutines and channels themselves: the pipeline and the channel readers are step systems on values, and one step is
  one send, receipt or write.
- StreamDecoder.Decoder.NextRawBlock: which of two errors a doubled comma gives depends on how many bytes have arrived;
  the contract leaves that open.
- StreamRuns.ForEach: the callback and the parser are functions, of all elements handed out so far and of an element's
  bytes; the object that is reused for every element is not modelled.
- TolerantSlices.UnmarshalSliceTolerant: a parse that fails is taken to leave its slot alone, and a later one to fill it
  completely.
- Slices.UnmarshalSlice: the compaction loops of the two serial readers are one method with a flag.
- StringEncoder.AppendStringAVX2: the block loop and the byte loop of the source share one invariant; the vector
  comparison is a predicate on the 32 bytes.
- The case-insensitive fallback of the key lookup, the width of field numbers, and the definitions of the hash
  functions.
- `escapeJSONString`, `findValueDeep`, the in-place unescaping routines, and the insertion of fields into raw objects:
  they would add easy members or are not on the parse path.
- The rounding inside strconv, and the sign of a zero result: reals have one zero.
- Raw control bytes in strings are accepted by the grammar of the model, as by the code.

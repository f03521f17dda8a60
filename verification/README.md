# Verification of stateless-executor

stateless-executor fetches Ethereum blocks with their execution witnesses, encodes each as an SSZ
`SszStatelessInput` for a zkVM guest, runs the guests and reports what they said. This project
models its encoders, its batch runner, its live pipeline and its reporting rules in Dafny, and
proves what they promise. `dafny verify dfyconfig.toml` checks all of it.

## What is modelled

**The guest input** (`Bytes`, `SszContainer`, `SszLists`, `SszRequests`, `SszUint`, `SszPayload`,
`SszInput`, `SszLayout`, `SszEncoders`, `Framing`). The encoders compute every offset by hand, in four nested
containers, with uint32 running sums. They are written as methods that append to a buffer as the
Go code does, wrap-around included, and each is proved equal to one reference definition of SSZ
(`SszContainer.Serialize`, from the consensus-specs' ssz/simple-serialize.md, sections
"Serialization" and "Deserialization"). The repository has no reader, so the project contains a
strict one and proves that it returns a value for exactly one byte string, the one the encoder
emits, and exactly when no offset wraps. Which inputs those are is stated as sums over the lengths
of the input's own fields, without the slack of "the total is below 2^32". The fixture and the
live implementation are compared byte for byte, and the file framing and the legacy binary layout have the same kind
of round trip.

**The batch runner** (`Runner`, `Schedules`, `Verdicts`). `runAll` is a transition system in which the main
goroutine and one worker per file interleave at every access to shared state: the semaphore, the
wait group, the `done` and `total` counters, the result slots. The read of `total` after
`done.Add` is a step of its own, so that the printed pair is not atomic. Results are proved for
all schedules; what is printed and returned is also given as a function of the schedule alone.

**The live pipeline** (`Pool`, `Store`, `Live`, `LiveRuns`). The poller, the bounded channel of heads, the
block loop with one goroutine per guest and the ring buffer are first proved one by one against
what they mean, then composed into one system whose `/results` snapshot is proved ordered at every
moment of every run, and complete: it shows every fetched block, once per guest, up to what the
buffer has dropped and what is still being verified. The block loop always gets back to its
`select`: from every state reached without a shutdown the queue can be drained, however the fetches
and the guests turn out.

**Forks and reports** (`Forks`, `Order`, `Stats`, `Suites`). The two fork resolvers against the
definition "highest active index" and against each other, the report comparator, the cost
statistics and the grouping by suite.

Conventions: `Option` stands for Go's `(value, error)`; buffers and slices are sequences that are
reassigned; a node's answer, a fetch, a guest run, `expand`, `Encode`, the emulator, `MarshalBinary`
and the header hash are parameters or free choices of a step, so the theorems hold whatever they
return. Go's 32- and 64-bit arithmetic is written out with its wrap-around; `len` is taken to be
exact.

## Where the code does not keep a promise, and what it does keep

Each failure has its exact condition and an input at which it shows; the last two points are about comments.

- Offsets are right exactly under three sums over the lengths in the input
  (`SszInput.ReadsBackIff`; they fail in `SszLists.ListCanWrap` and `SszInput.InputCanWrap`).
  Lengths at the end of a container do not matter: the last header of a witness may have any size.
- The fixture encoder copies four hash fields from hex of any length. The input reads back exactly
  when all four are 32 bytes (`SszEncoders.FixtureReadsBackIff`, `SszEncoders.ShortHashIsLost`);
  the bloom is copied into a fixed array and cannot be the wrong size.
- The two implementations emit the same bytes exactly when the raw hash fields, written one after
  the other, are the bytes of the parsed header, as they are when each is 32 bytes, and Shanghai is
  not the newest active fork: `forkDefs` has no Shanghai entry, so the live side falls back to
  Amsterdam (`SszEncoders.FixtureMatchesLiveIff`, `SszEncoders.ShanghaiMismatch`).
- Without any configuration the two sides differ: a fixture means Amsterdam, `main` takes the
  mainnet schedule, which has no Amsterdam. They part at mainnet's Cancun
  (`SszEncoders.NoConfigMatchesIff`).
- The resolved fork can decrease once over time, when the first fork activates on a chain that had
  none, because the fallback is the newest fork (`Forks.MonotoneIff` for fixtures,
  `Forks.GenesisMonotoneIff` for live blocks; `Forks.FallbackCanDrop`,
  `Forks.LiveFallbackCanDrop`).
- bench and cmd/zkevm-runner judge the same ZisK run differently when there is no expected output,
  when the emulator printed no cost table (bench demands one, zkevm-runner does not), and when only
  one of their step caps was reached (`Verdicts.RunnersAgreeIff`, `Verdicts.RunnersCanDisagree`).
- On lists that mix the two formats the report comparator need not be an order. It is one exactly
  when every zkevm row separates the corpus rows around it (`Order.StrictWeakOrderIff`,
  `Order.MixedCanCycle`).
- The average is wrong exactly when the uint64 sum overflows (`Stats.AverageExactIff`,
  `Stats.AverageCanOverflow`).
- Round robin stays balanced across a wrap of its 64-bit counter exactly when the number of nodes
  divides 2^64 (`Pool.AlwaysBalancedIff`).
- The comment on `activeForks` in fixture/genesis.go says a fork also needs a blob schedule entry;
  the code asks only for a time, and so does the model.
- The comment on `progress` in bench/run.go says the denominator grows; a file that expands to no
  unit lowers it. `done <= total` holds all the same (`Runner.ProgressCounters`).

## Model

| member | source | states |
|---|---|---|
| Bytes.OffsetSurvives | fixture/encode_ssz.go:414-418 | an offset written as four bytes reads back as itself exactly when it is below 2^32 |
| Bytes.WrapIsInvisible | fixture/encode_ssz.go:336-341 | an offset sum that wrapped on the way is written as the same bytes as the unbounded sum |
| SszContainer.DeserializeExactly | fixture/encode_ssz.go:166-187 | the strict container reader returns given parts for exactly one byte string, their serialization, and only if no offset wraps |
| SszContainer.ShortFits | fixture/encode_ssz.go:249-254 | no offset of an encoding shorter than 2^32 bytes wraps |
| SszLists.EncodeByteListList | fixture/encode_ssz.go:330-343 | the wrapping uint32 loop over two buffers yields the SSZ serialization of the list, for lists of any size |
| SszLists.TableStep | fixture/encode_ssz.go:337-341 | one loop iteration: the offset written, the data appended and the wrapped running sum belong to the list extended by one item |
| SszLists.DecodeListExactly | fixture/encode_ssz.go:327-343 | the offset-table reader returns a list for exactly the bytes the encoder emits, and only if none of its offsets wraps; empty lists and empty elements included |
| SszLists.ListRoundTripIff | fixture/encode_ssz.go:334-341 | a list reads back iff four bytes per item plus the lengths of all items but the last are less than 2^32 |
| SszLists.ListCanWrap | fixture/encode_ssz.go:336-341 | a list of two items, the first of 2^32 bytes, does not read back |
| SszLists.ListLength | fixture/encode_ssz.go:334-342 | an encoded list has four bytes and its own length per item |
| SszLists.AcceptedIffUniqueEncoding | fixture/encode_ssz.go:327-343 | a byte string is accepted iff it encodes some list that fits, and no two such lists share an encoding |
| SszLists.EncodeWithdrawalList | fixture/encode_ssz.go:347-357 | the loop writes every withdrawal as 44 bytes, in order |
| SszLists.DecodeWithdrawalsExactly | fixture/encode_ssz.go:345-357 | a reader of 44-byte records recovers exactly the withdrawals that were written, and accepts nothing else |
| SszLists.WithdrawalsLength | fixture/encode_ssz.go:345-357 | 44 bytes per withdrawal |
| SszLists.EncodeVersionedHashes | fixture/encode_ssz.go:361-371 | the nested loop writes the blob hashes of all blob transactions, in order, and of no others |
| SszLists.HashesOfEach | fixture/encode_ssz.go:363-369 | wherever a transaction stands, it contributes its blob hashes at its place if its type is 0x03, and nothing otherwise |
| SszLists.DecodeHashesExactly | fixture/encode_ssz.go:359-371 | the hashes read back, from exactly that byte string |
| SszLists.HashesLength | fixture/encode_ssz.go:359-371 | 32 bytes per hash |
| SszRequests.EncodeExecutionRequests | fixture/encode_ssz.go:384-410 | succeeds iff every entry has two bytes or more, a type below 5, and types strictly increase; then emits the five lists as a container |
| SszRequests.EncodeRequestLists | fixture/encode_ssz.go:399-409 | the two loops yield one offset per type, then the lists |
| SszRequests.RequestsRoundTrip | fixture/encode_ssz.go:378-397 | dropping empty lists and restoring type bytes inverts the split by type, both ways: valid request lists and choices of five lists correspond one to one |
| SszRequests.RequestsEncodedLength | fixture/encode_ssz.go:399-409 | a valid list has at most five entries and encodes to 20 bytes plus each entry without its type byte |
| SszUint.SszUint256 | fixture/encode_ssz.go:421-430 | reversing the big-endian bytes into an array gives 32 bytes that read back, little-endian, as the number itself if positive; nil, zero and negative give zero |
| SszPayload.PayloadWritten | fixture/encode_ssz.go:249-295 | the nineteen writes with three wrapping offset sums and the four variable sections are the payload's encoding |
| SszPayload.PayloadShape | fixture/encode_ssz.go:257-287 | with hash-sized hashes the fixed region has the payload's layout and is 540 bytes |
| SszPayload.PayloadLength | fixture/encode_ssz.go:249-295 | with hash-sized hashes the encoding is 540 bytes, the extra data, the transaction list, 44 bytes per withdrawal and the access list |
| SszPayload.SamePayloadIff | fixture/encode_ssz.go:257-262 | payloads that differ only in the four raw hash fields encode alike iff the first six fields written one after the other are alike |
| SszPayload.DecodePayloadExactly | fixture/encode_ssz.go:215-296 | all nineteen fields read back, from exactly that byte string, iff the four raw hashes are 32 bytes and no offset wraps |
| SszInput.WitnessLayout | fixture/encode_ssz.go:318-324 | three sections behind a 12-byte fixed region, and when their offsets fit |
| SszInput.RequestLayout | fixture/encode_ssz_live.go:57-65 | three sections and the beacon root in a 44-byte fixed region, and when their offsets fit |
| SszInput.InputLayout | fixture/encode_ssz.go:169-187 | two sections and the chain id in a 16-byte fixed region, and when their offsets fit |
| SszInput.DecodeWitnessExactly | fixture/encode_ssz_live.go:143-155 | state, codes and headers read back, from exactly one byte string, iff no offset at either level wraps |
| SszInput.DecodeRequestsExactly | fixture/encode_ssz.go:384-410 | the five-section container reads back to the original request list, iff that list is valid and fits |
| SszInput.DecodeRequestExactly | fixture/encode_ssz_live.go:46-66 | payload, versioned hashes, beacon root and requests all read back, from exactly one byte string |
| SszInput.DecodeInputExactly | fixture/encode_ssz_live.go:30-155 | full nested round trip and canonicity: fork, chain id and every field at every level read back from exactly one byte string, iff the input is valid and no offset at any level wraps |
| SszInput.ReadsBackIff | fixture/encode_ssz_live.go:30-155 | for every input: its encoding reads back iff the four raw hashes are 32 bytes, the requests are valid and three sums over the lengths of its fields are below 2^32 |
| SszInput.WitnessFitsClosedForm | fixture/encode_ssz.go:318-324 | the witness offsets at both levels are right iff 12 bytes plus the sizes of states and codes, and the sizes of the headers without the last, are below 2^32; sizes are four bytes and its own length per item |
| SszInput.InputFitsClosedForm | fixture/encode_ssz.go:169-187 | for every input that is valid at all, every offset of every level is right iff the request size and the two witness sums, computed from the lengths of the fields, are below 2^32 |
| SszInput.RequestLength | fixture/encode_ssz_live.go:57-65 | the encoded request is 44 bytes, the payload, 32 bytes per versioned hash, 20 bytes and each execution request without its type byte |
| SszInput.InputCanWrap | fixture/encode_ssz.go:318-324 | any input given a witness node of 2^32 bytes does not read back |
| SszInput.SameRequestIff | fixture/encode_ssz_live.go:57-65 | requests that differ only in the payload encode alike iff the payloads do |
| SszInput.SameInputIff | fixture/encode_ssz.go:169-187 | inputs that differ only in fork and request encode alike iff the forks are equal and the requests encode alike |
| SszInput.ShortInputRoundTrip | fixture/encode_ssz.go:136-187 | every valid input whose encoding is shorter than 2^32 bytes reads back |
| SszLayout.PayloadStands | fixture/encode_ssz.go:256-295 | wherever a hash-sized payload stands, its nineteen fields and four sections stand at the byte positions the source comments give, offsets included |
| SszLayout.RequestPositions | fixture/encode_ssz_live.go:57-65 | the positions of the three offsets, the beacon root and the three sections in a request |
| SszLayout.InputPositions | fixture/encode_ssz.go:166-187 | the positions of schema id (revision 0x01), offsets, chain id and sections in an input |
| SszLayout.NestedPositions | fixture/encode_ssz.go:136-187 | in the whole input the beacon root stands at byte 26 and the payload at byte 62 |
| SszEncoders.MarshalAll | fixture/encode_ssz.go:226-233 | fails iff some transaction does not marshal; otherwise item i is the envelope of transaction i |
| SszEncoders.SchemaIdBytes | fixture/encode_ssz.go:65-67 | the big-endian schema id is the fork index, then the revision |
| SszEncoders.EncodeStatelessInputContainer | fixture/encode_ssz.go:169-187 | schema id, then the SSZ container of the two sections and the chain id |
| SszEncoders.EncodeExecutionWitness | fixture/encode_ssz_live.go:143-155 | the SSZ container of the three encoded lists |
| SszEncoders.EncodeRequestContainer | fixture/encode_ssz.go:202-210 | the SSZ container of the three sections and the beacon root |
| SszEncoders.EncodeExecutionPayloadFromBlock | fixture/encode_ssz_live.go:70-137 | fails iff a transaction does not marshal; otherwise the SSZ encoding of the payload, in which every header field stands at its byte position as it is in the header, absent optional fields as 0 |
| SszEncoders.EncodeNewPayloadRequestFromBlock | fixture/encode_ssz_live.go:46-66 | fails iff a transaction does not marshal or the requests are invalid; otherwise the encoding of the request, the beacon root at byte 8 and the header's fields from byte 44 |
| SszEncoders.ZesuInputSSZFromBlock | fixture/encode_ssz_live.go:21-44 | the whole live path: byte 0 is the fork (0 as 0x15), byte 1 the revision 0x01, the chain id (0 as 1) at byte 10, the beacon root (absent as zeros) at byte 26, the header's fields from byte 62 |
| SszEncoders.LiveStands | fixture/encode_ssz_live.go:97-135 | wherever a live payload stands, each field stands at its position with the header's own value |
| SszEncoders.EncodeSszExecutionPayload | fixture/encode_ssz.go:215-296 | fails iff a transaction does not marshal; otherwise the encoding of the fixture's payload, raw hash fields as they are; if those are 32 bytes, every field stands at its byte position as it is in the fixture |
| SszEncoders.FixtureStands | fixture/encode_ssz.go:256-295 | the same for a hash-sized fixture |
| SszEncoders.ZesuInputSSZPlain | fixture/encode_ssz.go:96-164 | the whole fixture path: schema id, chain id and beacon root at bytes 0, 10 and 26, and for 32-byte hashes the fixture's fields from byte 62 |
| SszEncoders.ZesuInputSSZ | fixture/encode_ssz.go:116-122 | the fixture path in the file framing, for 32-byte hashes with the fixture's fields from byte 70 |
| SszEncoders.GuestReadsExactly | fixture/encode_ssz.go:116-187 | a guest that unframes a file and decodes it gets an input from exactly one file, the framed encoding of that input |
| SszEncoders.FixtureReadsBackIff | fixture/encode_ssz.go:257-262 | a fixture's encoding reads back iff its four raw hash fields are 32 bytes and three sums over its field lengths are below 2^32 |
| SszEncoders.LiveReadsBackIff | fixture/encode_ssz_live.go:21-44 | a live block's encoding reads back iff three sums over its field lengths are below 2^32 |
| SszEncoders.FixtureMatchesLiveIff | fixture/encode_ssz.go:148-164 | for every fixture and the same chain, with hash fields of any length, the two implementations emit identical bytes iff the first six header fields run together to the same bytes raw and parsed (always so for 32-byte hashes) and Shanghai is not the newest active fork |
| SszEncoders.TwinMatchesIff | fixture/encode_ssz_live.go:21-44 | with equal chain ids, whatever the fork schedules, the bytes are identical iff the first six fields run together alike and the resolved forks are equal |
| SszEncoders.NoConfigMatchesIff | main.go:38-50 | a fixture without chain config and a live run without genesis file emit identical bytes iff the first six fields run together alike and the block is older than mainnet's Cancun |
| SszEncoders.FieldsAgree | fixture/encode_ssz.go:257-262 | the first six fields agree raw and parsed if the four hashes are 32 bytes each, and never if they do not add up to 128 |
| SszEncoders.SameChainFromFile | pipeline/pipeline.go:197-202 | a genesis file that parses and has the fixture's chain id and times is the same chain |
| SszEncoders.ShortHashIsLost | fixture/encode_ssz.go:257 | with an empty parent hash the encoding neither reads back nor matches the live one |
| SszEncoders.ShanghaiMismatch | fixture/encode_ssz_live.go:39-41 | Shanghai at 0, Cancun at 100, block time 50: the genesis file parses and the two implementations emit different bytes |
| Framing.CopyInto | fixture/encode_ssz.go:132 | the copied range changes, the rest of the buffer does not |
| Framing.ZkvmFrame | fixture/encode_ssz.go:129-134 | the rounded-up allocation yields header, payload and padding to a multiple of 8 |
| Framing.FrameByLoop | fixture/encode_binary.go:66-75 | the append-zero loop yields the same frame as the closed form |
| Framing.UnframeExactly | fixture/encode_ssz.go:124-134 | the header recovers the payload, from exactly one file, for lengths below 2^64; frames are 8-byte aligned with less than 8 bytes of padding |
| Framing.WriteBinaryArray | fixture/encode_binary.go:107-113 | appends the count and every length-prefixed item |
| Framing.ZesuInputBinary | fixture/encode_binary.go:57-76 | the frame of the root placeholder, the block and the four arrays |
| Framing.ArrayExactly | fixture/encode_binary.go:107-113 | a counted array in front of any other bytes parses to its items and leaves those bytes |
| Framing.ParseContentExactly | fixture/encode_binary.go:57-64 | the parser recovers block and arrays from exactly one content and consumes all of it |
| Forks.ActiveProtocolFork | fixture/encode_ssz.go:72-93 | the newest-to-oldest table walk finds the last active entry, or Amsterdam |
| Forks.ParseGenesis | fixture/genesis.go:60-87 | keeps exactly the forks with a usable time, oldest first; fails iff there is none; unusable chain id is 0 |
| Forks.GenesisKeys | fixture/genesis.go:16-26 | by literal key and number: a file parses iff one of the six keys has a time, and then lists fork 0x10 to 0x15 at time t iff the key of that fork says t |
| Forks.ForksByName | fixture/encode_ssz.go:46-93 | the fork of a fixture, of a live block, and without configuration, by key names and literal fork numbers, newest first |
| Forks.MainnetSchedule | fixture/genesis.go:97-108 | the built-in schedule resolves by its five literal times, for chain id 1 |
| Forks.GenesisActiveFork | fixture/genesis.go:116-123 | the backward scan by index finds the last entry whose time has come, or 0 |
| Forks.ResolversFindHighest | fixture/encode_ssz.go:69-93 | both resolvers return the highest-index active fork, for any activation times, in any order |
| Forks.GenesisFindsLastActive | fixture/genesis.go:66-88 | dropping forks without a time does not change which fork is found |
| Forks.ResolversAgreeIff | fixture/encode_ssz_live.go:39-41 | with equal times the resolvers agree, 0 mapped to Amsterdam, iff Shanghai is not the newest active fork |
| Forks.MonotoneIff | fixture/encode_ssz.go:88-92 | from an earlier to a later time the fork of a fixture does not decrease iff one was active before, none is active after, or Amsterdam is |
| Forks.GenesisMonotoneIff | fixture/genesis.go:113-123 | the same exact condition for live blocks, for every genesis file that parses |
| Forks.FallbackCanDrop | fixture/encode_ssz.go:92 | a concrete chain on which the fork decreases |
| Forks.LiveFallbackCanDrop | fixture/genesis.go:113-123 | a genesis file with Cancun at 100 only: the fork of live blocks decreases there |
| Forks.MainnetIsAmsterdamIff | fixture/genesis.go:90-108 | the built-in mainnet schedule resolves to Amsterdam only before Cancun, by the default |
| Forks.GenesisOfFixture | fixture/genesis.go:16-26 | a genesis file whose six named times and chain id are a fixture's parses iff one of the times is set, and then to the fixture's forks from Cancun on |
| Verdicts.VerifyEEST | bench/units.go:247-293 | skip, error, unverified and pass each iff their condition; pass iff no run error and a non-empty expected output is a prefix of the output, and then the success reported is the one predicted |
| Verdicts.VerifyCorpus | bench/units.go:315-336 | error iff the run failed; pass iff success is as the fixture says |
| Verdicts.NormalisesSpelling | bench/units.go:222-224 | any spelling of hex digits, in either case and with or without 0x, normalises to the lower-case form |
| Verdicts.SuccessIsByte32 | bench/units.go:226-231 | the success flag is byte 32 of the output not being zero; a shorter output counts as success |
| Verdicts.RunnersAgreeIff | cmd/zkevm-runner/main.go:149-173 | on the same ZisK process outcome, outside dump mode, both tools agree on a pass iff encoding or process failed, the output does not match, or zkevm-runner's step cap was reached exactly when bench has its cap, a missing cost table or a missing expected output against it |
| Verdicts.DefaultCapAgreeIff | cmd/zkevm-runner/main.go:246-273 | with bench on the default step cap, a bench pass is a zkevm-runner pass, and the converse holds iff nothing passes or there are both a cost table and an expected output |
| Verdicts.RunnersCanDisagree | emu/emu.go:129-142 | three concrete disagreements: no expected output, no cost table with a matching output, a lower step cap |
| Verdicts.RunUnit | bench/run.go:76-132 | each verdict of a corpus and of a zkevm unit iff its own condition on errors, success flag and output; `Err` is set iff the verdict is an error, then there are no costs; otherwise costs are the emulator's; only `Elapsed` depends on time |
| Verdicts.Bucket | bench/main.go:151-171 | the loop selects the good and failed results in order and counts the skipped and unverified |
| Verdicts.BucketsConserve | bench/main.go:146-171 | every result is in exactly one of good, skipped and errored, none lost or doubled; good splits into passed, failed and unverified |
| Runner.InvStep | bench/run.go:40-64 | every step of every goroutine keeps the invariant over workers, counters, slots and wait group |
| Runner.ScheduleIndependence | bench/run.go:27-72 | under every interleaving the returned results are, up to elapsed time, those of running all files one by one in discovery order |
| Runner.ReportConserves | bench/main.go:141-171 | under every interleaving each unit that ran is in exactly one bucket of the report |
| Runner.ProgressCounters | bench/run.go:20-25 | at every moment 0 <= done <= total; every printed pair has n <= total and no n is printed twice; at the end done == total and all slots and wait counts are returned |
| Schedules.ProgressIsTrue | bench/run.go:134-136 | in every schedule `done` is the number of `done.Add` calls, `total` the number of files plus units - 1 per successful expansion, and each printed line has the worker's own call number and the total of that moment, all read off the steps before it |
| Schedules.ReturnedExactly | bench/run.go:58-71 | what is returned, elapsed times included, is each file's units in order with the time its own run took, files in discovery order |
| Schedules.FollowsStep | bench/run.go:43-65 | every step keeps counters, printed lines and each worker's results equal to what the schedule says |
| Runner.NumbersStep | bench/run.go:134-136 | every step keeps the numbers of `done.Add` unique among those printed and those about to be |
| Runner.BoundedParallelism | bench/run.go:40-48 | at every moment at most `parallelism` files are in flight |
| Runner.StepsRunOut | bench/run.go:43-65 | a natural-number measure strictly decreases with every step |
| Runner.SchedulesAreFinite | bench/run.go:43-65 | no schedule is longer than that measure |
| Runner.CanMove | bench/run.go:43-65 | a run with a slot that has not returned always has an enabled step |
| Runner.CanReturn | bench/run.go:43-72 | from every reachable state some continuation returns |
| Runner.NeverStuckIff | bench/main.go:84-86 | no schedule hangs iff `--jobs` is at least 1 or there are no files |
| Store.RingBuffer.constructor | store/store.go:26-31 | the zero value is the empty ring |
| Store.RingBuffer.Add | store/store.go:34-42 | the new state of all three fields as a function of the old |
| Store.RingBuffer.All | store/store.go:45-54 | copies the slots in window order, every modular index in range |
| Store.AddHolds | store/store.go:34-42 | `Add` keeps every retained entry at its history index modulo the capacity |
| Store.HoldsIsWindow | store/store.go:45-54 | what `All` reads is the end of the history |
| Store.AllIsLastThousand | store/store.go:23-54 | after any sequence of `Add`, `All` is the last 1000 results, oldest first |
| Pool.Pool.constructor | pool/pool.go:61-65 | a new pool has an empty queue and counters at zero |
| Pool.Pool.Next | pool/pool.go:138-146 | picks by the old counter and advances it by one modulo 2^64; an empty pool picks nothing and counts nothing |
| Pool.Pool.Pick | pool/pool.go:149-151 | the same, on the same counter |
| Pool.Pool.Poll | pool/pool.go:117-135 | asks the node whose turn it is and advances the counter; a larger number raises `seen` and is queued unless 32 wait; an error or anything else changes neither |
| Pool.Pool.ReceiveHead | main.go:111 | takes the oldest head from the queue |
| Pool.HeadStream | pool/pool.go:117-135 | over every run `seen` is the maximum polled, at most 32 heads wait, received heads strictly increase, and each new maximum is received, waiting or dropped exactly once; each event drops its number iff it is a new maximum reported while 32 wait, and a run where that never happens delivers exactly the new maxima in order |
| Pool.DropStep | pool/pool.go:127-134 | one event of a run adds to the dropped heads iff a new maximum meets a full queue |
| Pool.PollInv | pool/pool.go:127-134 | a poll keeps the queue bounded, ordered and accounted for |
| Pool.CounterWraps | pool/pool.go:144 | after k calls the counter has advanced by k modulo 2^64 |
| Pool.RoundRobinBalanced | pool/pool.go:138-151 | k consecutive calls choose every node floor(k/n) to ceil(k/n) times while the counter does not wrap |
| Pool.AlwaysBalancedIff | pool/pool.go:144-145 | that holds for all counters and all k iff n divides 2^64 |
| Live.GuestResult | runner/runner.go:64-122 | on every path the result names its block, guest, node and gas; it is valid iff the guest ran and said so, and its error is that of the failed run or empty |
| Live.LiveStep | main.go:103-157 | every poll, receive, fetch, guest report, join and shutdown keeps the system invariant |
| Live.ReachedInv | main.go:88-157 | in every reachable state the snapshot is the end of an ordered history, and the block loop is where the received heads say |
| Live.ResultsAlwaysConsistent | main.go:103-157 | at every moment of every run `/results` is ordered by block; every block in it has exactly one result per guest, except the oldest of a full buffer and the one being verified, which if present is the newest |
| Live.FetchedIsReported | main.go:103-157 | in every run a block has results only if its fetch succeeded, and such a block was a received head and, unless it is being verified, has exactly one result per guest; `/results` shows them all unless the buffer is full and starts at that block or later |
| Live.NeverTooMany | main.go:130-156 | at no moment has a block more results than there are guests, not even a cut-off or active one |
| LiveRuns.RunTellsAll | main.go:103-157 | in every run the heads are those of the pool alone under the same polls and receives, the results are the guests' outcomes on the head received last with what its fetch said, `/results` shows the last 1000 of them, and the loop has stopped iff there was a shutdown |
| LiveRuns.CanDrain | main.go:103-156 | from every state that is not stopped, for any outcome of fetches and guests, a continuation without poll or shutdown empties the queue and ends at the `select`; every waiting head is received in order and exactly those fetched are verified |
| LiveRuns.EveryHeadIsServed | main.go:103-156 | a run without shutdown is never stopped, and has a continuation after which every waiting head was received, fetched and reported on by every guest |
| LiveRuns.PollsNeverWait | pool/pool.go:117-135 | any polls are possible in any state and touch only the head stream |
| LiveRuns.StoppedForGood | main.go:105-109 | after a shutdown nothing more is received or reported |
| Order.StrictWeakOrderIff | bench/main.go:244-257 | the comparator is a strict weak order on a list iff every zkevm row separates the corpus rows on its two sides by block number |
| Order.SingleFormatIsOrdered | bench/main.go:237-246 | it always is on lists of one format |
| Order.MixedCanCycle | bench/main.go:247-255 | three concrete rows of mixed formats that go round in a circle |
| Order.StableSortIsUnique | bench/main.go:241-245 | where the comparator is an order there is exactly one stably sorted arrangement, so rows come out the same on every run |
| Order.ReportOrder | bench/main.go:235-257 | in a stably sorted report corpus rows ascend by block number, zkevm rows by suite, label and block number, and equal rows keep their order |
| Order.StringLessIff | bench/main.go:249-252 | the string order is lexicographic: after a common beginning one string ends or has the smaller character |
| Stats.ComputeStats | bench/main.go:386-403 | the sort and the wrapping uint64 sum yield the specified statistics, zeros for no values |
| Stats.SortIsUnique | bench/main.go:390-392 | two ascending arrangements of the same values are equal, whatever algorithm made them |
| Stats.StatsIgnoreOrder | bench/main.go:386-403 | permuting the values changes no statistic |
| Stats.OrderStatistics | bench/main.go:397-400 | minimum, median and maximum characterised by how many of the original values lie below |
| Stats.AverageExactIff | bench/main.go:393-401 | the average is the true one iff the sum fits 64 bits, and then at least the minimum; it never exceeds the maximum, and the median lies between the extremes |
| Stats.AverageCanOverflow | bench/main.go:393-401 | two costs of 2^63 average to 0, below their minimum |
| Suites.SuiteMedians | bench/main.go:623-638 | names are the suites present, strictly ascending, each with the median of exactly its own costs |
| Suites.GroupBySuite | bench/main.go:624-627 | the map loop collects each suite's costs in result order |
| Suites.NamesDetermined | bench/main.go:628-632 | the sorted names do not depend on map iteration order |
| Suites.GroupsConserve | bench/main.go:623-638 | each unit's cost is in exactly one suite's group |

## Left out

- JSON loading, hex parsing, transaction and withdrawal building (`fixture/fixture.go`, most of `fixture/encode.go`): models start at decoded bytes, and decoding errors that come before them are not represented.
- RLP, Keccak, header hashing and `MarshalBinary`: foreign code; the hash is an arbitrary function of the header, an envelope or its failure is part of the transaction.
- Network traffic: probing, JSON-RPC, JWT, the engine API and the fetch of witnesses and access lists. A poll yields any number or an error, a fetch succeeds or fails.
- Process handling in `emu.Run`, `runHost` and `runner.Run`, temporary files, timeouts and the cost-report parser of `emu/emu.go`: a run yields any result. Of `emu.Run` only the error rule is modelled, for the comparison of the two tools, which is for the ZisK target.
- SszUint.SszUint256: base fees of 2^256 and more are excluded; the Go code panics on them.
- Order.StableSortIsUnique: `sort.SliceStable` itself is library code; proved is that it has one possible outcome. The same holds for `sort.Slice` and `sort.Strings` in `Stats` and `Suites`.
- Verdicts.RunUnit: the `Mode` and `Reason` texts, including the guest's panic message, and the progress line's wording.
- Goroutines, channels and mutexes as such: `Runner` and `Live` are transition systems over values whose steps are the accesses to shared state; the Go memory model is taken to be sequentially consistent for them.
- Aliasing of Go slices: buffers are values here, so `append` sharing a backing array is not visible.
- `int64` wrap-around of the progress counters and `len` beyond `int`: no file list is that long.
- The one-shot and dump modes of `main.go`, `partitionByGas` and `unitCell`: short branches without state.
- Fixture discovery, format sniffing, HTML and CSV reports, log lines, Prometheus metrics, command-line flags.

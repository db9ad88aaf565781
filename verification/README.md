# A verified model of a CPU miner's core

This project models, in Dafny 4.11, the parts of the miner whose correctness is hardest to see from
the code: the protocol that switches algorithms while the miner runs, the allocation of nonces to
threads, the scan loops, the address and framing codecs, the Merkle loops, the emulated vector
arithmetic, and the stateful containers of the API and the stratum client. It proves what each of them
is for, for every input, every interleaving or every run.

`dafny verify dfyconfig.toml` checks all of it. Nothing here executes the miner; hash functions are
uninterpreted functions throughout.

| file | what it models |
|---|---|
| `Control.dfy`, `ControlGate.dfy`, `ControlPark.dfy`, `ControlCalls.dfy`, `ControlAnswers.dfy` | `api_control.c` and the control part of `miner_thread`: a transition system over any number of mining threads and API callers, one shared-memory access per step; then the gate and buffer theorems; what a pause stops; then what a client of the API sees: the accounting, and what each answer means |
| `Nonces.dfy` | nonce ranges, extranonce2 and the part of `miner_thread` between them, as a transition system |
| `Target.dfy`, `Scan.dfy` | the 256-bit comparisons and the scalar, 4-way and 8-way scan loops |
| `Clmul.dfy`, `Aes.dfy`, `BitVectors.dfy` | the emulated carryless multiply and the two AES rounds, on bit sequences |
| `Radix.dfy`, `Base58.dfy`, `ConvertBits.dfy`, `Bech32.dfy`, `Bech32Decode.dfy`, `Bech32Field.dfy` | the address codecs, and what the bech32 checksum is |
| `Merkle.dfy` | both in-place Merkle loops and the branch fold |
| `History.dfy` | the history rings and their merge |
| `LinkedList.dfy`, `ThreadQueue.dfy` | the intrusive list and the thread queue |
| `ShareRing.dfy` | share accounting |
| `StratumLine.dfy` | the stratum line buffer |
| `HttpParse.dfy`, `HttpServe.dfy`, `HttpFields.dfy`, `HttpRefusals.dfy`, `HttpRoundTrip.dfy` | the HTTP request parser, its receive loop, what an accepted request says, why one is refused, and what comes back of a request that is written down |
| `Bytes.dfy`, `Words.dfy`, `Wrappers.dfy` | searching a sequence, the 32-bit word, optional values |

## Results that are not what one might expect

* A failed switch can leave threads hashing with no buffers, or with another gate's. It can fail in three
  places. When the new algorithm is refused and was sent without parameters, the call skips the second
  `switch_algo` (`api_control.c:715`; `ControlGate.StrandedThread` is such a run), and when only the wait for
  the buffers times out the gate is never touched (`ControlGate.LateFreeStrands`): either way a thread goes
  on to hash with no buffer. As long as no init wait has timed out since the last completed handover,
  `ControlGate.BufferInScan` says which threads are affected: those that have answered a request for their
  buffers later than that handover have none, the others hold the buffer of the gate in force unless their
  own `miner_thread_init` failed; `ControlGate.FailedSwitchOutcome` says what each failed profile leaves.
  When the init wait times out (`api_control.c:544-551`) that no longer holds, and the condition cannot be
  dropped: a thread may still serve that init after giving its buffer up to the rollback, so it can be
  inside `miner_thread_init` while the gate is rewritten (`ControlGate.InitMeetsRewrite`) and, if the
  rollback's init wait times out too, hash with a buffer of the wrong gate (`ControlGate.ForeignBuffer`).
  That no thread hashes while the gate changes, and that a switch which succeeds leaves every thread
  initialised under the new gate, holds whatever times out.
* A pause can be answered with success while a thread goes on to hash until the state changes
  (`ControlPark.PausedMinerHashes`): paused, resumed and paused again, the thread has read that it may run
  but not yet lowered the flag that the second pause counts. `ControlPark.PauseStopsHashing` and
  `ControlPark.PauseFailsIff` say exactly which threads escape: those whose flag was still up, with the
  thread already past the park request, when the request was raised.
* A profile that sends parameters only re-registers the algorithm that was in force when it was sent,
  which is read before the lock is taken (`ControlAnswers.SuccessfulCall`, `ControlAnswers.SentForTheCurrent`).
* The parameter `r` is checked as a long and stored as an int: 2^32 passes the check and is stored as 0
  (`ControlAnswers.LargeRIsStoredAsZero`); `ControlAnswers.StoredAsSent` says what is stored as it was sent.
* Each time a thread asks for work it still has, it leaves out one nonce, so at least one between any two
  scans of the same work (`Nonces.NextScanOfWork`).
* A restart flag raised for any reason but new work, met by a thread whose range is used up, makes it
  hash the same nonces again. `Nonces.NudgeRepeats` is such a run; `Nonces.NoPairTwice` allows such
  flags as long as no thread meets one in that position, and `Nonces.RereadRepeats` that a thread
  which scans from there hashes a nonce again once a scan of that work began at the start of its range.
* With a `max_nonce` below its lane count a scan's `last_nonce` wraps round, and without a restart the
  loop may never end: `Scan.EndsWithoutRestart` says exactly when it does. Such a scan walks into other
  threads' ranges (`Nonces.ShortScanOverlaps`), so `Nonces.NoPairTwice` excludes it; only thread 0 can meet
  one, at its first eight nonces (`Nonces.ShortScanIsRare`).
* `b58dec` with a size divisible by four has a mask over the whole first word, so it holds only
  256^(size - 4) values (`Base58.LimitInBytes`).
* After an empty stratum line the line after the next is lost: `StratumLine.RecvAllIsLines` says the
  lines come out right if and only if no line is empty. A call whose time runs out in the middle of a
  line returns the part it has as a line (`StratumLine.TimeoutBreaksLine`).
* The verdict of the HTTP receive loop depends on how bytes arrive exactly for the streams
  `HttpServe.Ambiguous` names (`HttpServe.SplittingIrrelevant`, `HttpServe.SplittingMatters`).
* With eight shares outstanding a ninth overwrites the oldest record and the next reply is credited to
  the newcomer instead of the oldest submitter (`ShareRing.OverflowMiscredits`).

## Model

| member | source | states |
|---|---|---|
| `ControlGate.NoScanWhileGateChanges` | api_control.c:460-571 | in every run, with any number of threads and callers and any timeouts, while a caller is inside `register_algo_gate` no thread is inside `scanhash`, and from that call to the end of the mutation none is in it or about to enter it |
| `ControlGate.RewritingLasts` | api_control.c:460-571 | the "gate is being rewritten" interval of that theorem ends only with the step that ends the mutation |
| `ControlGate.FreeMeetsItsOwnGate` | api_control.c:68-86 | while no init wait has timed out, a thread inside `miner_thread_free` holds no buffer or one allocated under the gate in force, and one inside `miner_thread_init` is inside the init of the gate in force |
| `ControlGate.InitBeforeNextScan` | api_control.c:541-571 | whatever times out, before or since: after a successful switch and until the next request for buffers the gate stays the one registered, and every thread found in `scanhash` has run `miner_thread_init` under it; if that init succeeded its buffer is of that gate |
| `ControlGate.BufferInScan` | api_control.c:68-86 | as long as no init wait has timed out since the last completed handover, a thread in `scanhash` that has answered a later request for buffers holds none, and one that has not has run `miner_thread_init` under the gate in force and, if it succeeded, holds its buffer; if no init wait has ever timed out, one whose init failed holds none, so the two conditions decide exactly |
| `ControlGate.FailedSwitchOutcome` | api_control.c:712-729 | what a failed profile leaves to a thread in `scanhash` until the next request for buffers, gate touched or not, as long as no init wait has timed out since the last completed handover: it holds no buffer if it has answered a request later than that handover, and otherwise, if its init succeeded, one of the gate in force; a completed rollback gives every thread whose init succeeds its buffer; with the gate touched and no completed rollback none has a buffer; if no init wait has ever timed out these conditions are exact, and without parameters the threads are whole only if they were before and the call asked for nothing |
| `ControlGate.BareUntilHandover` | api_control.c:74-78 | a thread that has given its buffer up, or answers a pending request however old, hashes without one until a handover completes or an init wait times out |
| `ControlGate.StrandedThread` | api_control.c:712-729 | a concrete run, with no init timeout, that ends with a thread in `scanhash` holding no buffer |
| `ControlGate.LateFreeStrands` | api_control.c:465-472 | a concrete run in which only the wait for the buffers times out, the gate is never touched, and the thread ends in `scanhash` holding no buffer |
| `ControlGate.InitMeetsRewrite` | api_control.c:544-551 | a concrete run with one init timeout in which the rollback is inside `register_algo_gate` while the thread is inside `miner_thread_init` of the gate being replaced |
| `ControlGate.ForeignBuffer` | api_control.c:544-551 | that run continued with the rollback's init wait timed out as well: the thread has answered a request later than the last handover and ends in `scanhash` under the second registration with the buffer of the first |
| `ControlGate.OneMutationAtATime` | api_control.c:205-260 | at most one caller mutates, the state reads SWITCHING from its start to its decision, and SWITCHING implies a mutation |
| `ControlGate.SafeInvStep` | api_control.c:68-162 | the safety invariant (owner, generations and acknowledgements, parked threads, buffers, outcome) is kept by every step of every thread and caller |
| `ControlGate.SafeInvRun` | api_control.c:68-162 | that invariant in every state of every run |
| `ControlGate.QuietStep` | api_control.c:68-86 | while the park request stands a thread that has acknowledged the free stays outside `scanhash`, and acknowledging is what takes it there: the barrier is the acknowledgement, not the parked count |
| `ControlGate.GateInvSwitch` | api_control.c:460-552 | every step of `switch_algo` keeps the barrier: the gate is rewritten only once every thread has acknowledged the free generation |
| `ControlGate.HandoverStep` | api_control.c:68-86 | a freed thread stays freed until an init is asked for, an initialised one stays so until a free is asked for, and each acknowledgement means what it says |
| `ControlGate.ProgressRun` | api_control.c:55-57 | along a run generations, acknowledgements and init timeouts never go back, and no gate is registered and no handover completed except after a request for the buffers |
| `ControlPark.HaltedMinerDoesNotHash` | api_control.c:116-127 | while the miner is paused, or stopped, a thread that has not already read its way past the control words is neither in `scanhash` nor about to enter it until the state changes |
| `ControlPark.HaltedMinerHashesIff` | api_control.c:116-127 | that is exact: for any state, a thread can come to `scanhash` without the paused or stopped state changing if and only if it has |
| `ControlPark.RunningMinerIsNotHeld` | api_control.c:116-127 | while the state is running and no park request is up, a thread that is not parked does not park |
| `ControlPark.FlagTellsWhereItWas` | api_control.c:121-126 | in every run a thread in `scanhash` has its parked flag down, and one in service has it up |
| `ControlPark.PauseStopsHashing` | api_control.c:142-157 | over every run: a call that raises the park request, succeeds and leaves the miner paused or stopped has stopped every thread whose flag was not stale when the request went up, from its success until the state changes |
| `ControlPark.PauseFailsIff` | api_control.c:129-157 | with every flag up when a pause or stop raises the request, the run can go on to its success and then to thread i in `scanhash` with the state unchanged if and only if i's flag is stale: up, and the thread past the request |
| `ControlPark.PausedMinerHashes` | api_control.c:129-157 | a concrete run that ends with the miner paused, no call under way and the thread in `scanhash` |
| `ControlCalls.EpochCountsChanges` | api_control.c:242-259 | the epoch is the number of decided calls that changed something, the switch counter the number of successful profiles |
| `ControlCalls.FailedCallRestores` | api_control.c:712-733 | a failed call leaves control state, epoch, switch count, last switch time and stored parameters as they were when it took the lock |
| `ControlCalls.SnapshotIsTheStart` | api_control.c:616-632 | the values in that theorem are those at the step that began the mutation |
| `ControlCalls.RefusedCallChangesNothing` | api_control.c:585-628 | a call answered without a mutation changes nothing; it reports success only for the state already in force |
| `ControlCalls.ProfilesAreSpaced` | api_control.c:621-628 | any two successful profiles complete at least the minimum interval apart, under a monotone clock |
| `ControlCalls.CallInvStep` | api_control.c:580-746 | the invariant tying the control values to the log of decided calls and to the running call's snapshot is kept by every step |
| `ControlCalls.CallInvRun` | api_control.c:580-746 | that invariant in every state of every run |
| `ControlAnswers.SuccessfulCall` | api_control.c:231-259 | what a success has brought about: the state asked for, or the one `run` asks for, or the one before; the algorithm named, or with parameters only the one it was sent for, or else the same; the parameters stored on top of the old ones, every other algorithm's untouched; epoch and switch counter one on |
| `ControlAnswers.SentForTheCurrent` | api_control.c:594-597 | a profile that names no algorithm takes its parameters to be for the one in force when it is sent |
| `ControlAnswers.LastEntryDecides` | api_control.c:392-424 | of several entries of the same name the last one is stored |
| `ControlAnswers.UnnamedStays` | api_control.c:392-424 | a parameter no entry names keeps its value |
| `ControlAnswers.StoredAsSent` | api_control.c:365-424 | a valid entry is stored as it was sent, exactly if an `r` is a 32-bit integer and a text fits its field; `n` is 1 to 4194304 |
| `ControlAnswers.LargeRIsStoredAsZero` | api_control.c:365-408 | an `r` of 2^32 passes the check and is stored as 0 |
| `ControlAnswers.StoredParametersFit` | api_control.c:348-424 | in every run, whatever is stored for an algorithm is a parameter it takes, `n` in 1 to 4194304, `r` a 32-bit integer, text within its field |
| `ControlAnswers.RefusalsAreJust` | api_control.c:207-222 | over every run each answer is given only for its reason: disabled, malformed, another mutation under way, a profile completed less than the interval ago, a failed mutation, a slow parameter |
| `ControlAnswers.LetInRightly` | api_control.c:205-226 | and a call begins its mutation only if none of those reasons is there |
| `Nonces.NoPairTwice` | cpu-miner.c:2794-2840 | in every run in which no thread re-reads used-up work, none scans with a `max_nonce` below its lane count and no job's extranonce2 comes round, no (work, nonce) pair is in two scans, of one thread or of two |
| `Nonces.FlagsFromNewWorkSuffice` | cpu-miner.c:2800-2817 | where restart flags come only from new work, no thread re-reads used-up work |
| `Nonces.NudgeRepeats` | cpu-miner.c:2800-2838 | a concrete run, with no other guard of that theorem broken, in which one other restart flag makes a thread scan the same range of the same work twice |
| `Nonces.ShortScanOverlaps` | algo-gate-api.c:139-182 | a concrete run, with no such flag and nothing re-read, in which thread 0 at nonce 0 with an estimate of 1 and four lanes walks through the range of thread 1, which scans it too |
| `Nonces.ShortScanIsRare` | cpu-miner.c:2906-2922 | in a state of the invariant only thread 0 can be about to make such a scan, and only at its first eight nonces |
| `Nonces.RereadRepeats` | cpu-miner.c:2412-2442 | the guard is no stronger than it must be: a thread that re-reads used-up work and goes on to scan, whatever the others do in between, hashes the first nonce of its range again if a recorded scan of that work began there |
| `Nonces.InvStep` | cpu-miner.c:2421-2442 | every step keeps: no work issued twice, every thread's nonce in its range, every recorded scan behind its thread's nonce, no two scans overlapping |
| `Nonces.RangesApart` | cpu-miner.c:2412-2438 | for 1 to 9999 threads and any span cap the ranges are disjoint, inside 32 bits, and end at least 0x20 before the next |
| `Nonces.RangesCover` | cpu-miner.c:2405-2438 | the ranges begin at 0 and leave out fewer nonces than there are threads, besides the last 0x20 of each: without a cap a range ends 0x20 before the next, with one it is the shorter of the cap and that |
| `Nonces.NonceMoves` | cpu-miner.c:2421-2442 | while a thread keeps its work and makes no scan, its nonce moves one on each time it asks for work |
| `Nonces.FirstScanOfWork` | cpu-miner.c:2432-2438 | over every run: the first scan of a work begins at the start of the thread's range, moved on by one for each time it asked again before |
| `Nonces.NextScanOfWork` | cpu-miner.c:2440-2442 | over every run: the next scan of the same work begins where the last one ended, moved on by one for each time the thread asked in between, which is at least once |
| `Nonces.OnlyUsedUpRangesAsk` | cpu-miner.c:2800-2817 | over every run only a thread that has used up its range generates new work, or waits for it where extranonce2 may not be stepped |
| `Nonces.ScanLength` | cpu-miner.c:2906-2922 | a scan passes its estimate and the end of the range only by its first batch, and without a restart it comes within a batch of one of them |
| `Nonces.ScanStaysInRange` | cpu-miner.c:2906-2922 | with `max_nonce` at least the lane count a scan passes the end of its range by at most one batch of eight, which stays inside the thread's range, and no nonce of it wraps |
| `Nonces.LoopIsScanStep` | cpu-miner.c:2916-2935 | the scans of the model are exactly those of the loops, a wrapped `last_nonce` included: a loop can end after so many batches, for some run of restart flags, if and only if the model has that step |
| `Nonces.NoNonceWraps` | cpu-miner.c:2916-2935 | every scan of a run as in `NoPairTwice` meets the scan loops' own demands: no nonce of it wraps |
| `Nonces.NoncesAreWords` | cpu-miner.c:2412-2442 | in every run, whatever happens in it, a thread's nonce and end are 32-bit words |
| `Nonces.StepXnonce2` | cpu-miner.c:2593-2596 | the in-place increment loop is `Stepped` on the bytes |
| `Nonces.SteppedCounts` | cpu-miner.c:2590-2596 | `Stepped` is plus one modulo 256^size on the little-endian value |
| `Scan.ScanGeneric` | algo-gate-api.c:101-129 | for every first nonce and max_nonce for which the loop ends: it ends the first time it may, submits exactly the good nonces from first to there in order, with 32-bit wrap-around, and reports `hashes_done` and the next nonce modulo 2^32 |
| `Scan.Scan4Way` | algo-gate-api.c:139-182 | the same for four lanes |
| `Scan.Scan8Way` | algo-gate-api.c:195-238 | the same for eight lanes, with the strict comparison |
| `Scan.ScanVector` | algo-gate-api.c:139-182 | for any lane count the vector loop submits what the scalar definition `Shares` says of the same positions, so it refines the scalar scan |
| `Scan.NoWrapInRange` | algo-gate-api.c:101-238 | with max_nonce at least the lane count and room for one batch no nonce wraps: the scan covers [first, final), passes max_nonce only by its first batch, reports final - first, and without a restart ends no sooner than its comparison says |
| `Scan.EndsWithoutRestart` | algo-gate-api.c:139-182 | without a restart a scan of 1, 4 or 8 lanes ends if and only if max_nonce is at least the lane count or the last nonce of its residue class lies past the wrapped `last_nonce` |
| `Scan.SharesAreExact` | algo-gate-api.c:113-125 | `Shares` lists exactly the good nonces that were hashed, one for each position, in order |
| `Scan.NoNonceTwice` | algo-gate-api.c:113-125 | over at most 2^32 positions no nonce comes twice |
| `Scan.GoodMeansSolved` | algo-gate-api.c:162-173 | "good" is "hash at most target as 256-bit integers" under either `valid_hash`, and looking at word 7 first loses nothing |
| `Scan.Bswap32Involution` | algo-gate-api.c:169-170 | the submitted word determines the nonce |
| `Target.FullTest` | util.c:1195-1212 | is the comparison of 256-bit integers |
| `Target.ValidHashIsComparison` | util.c:1306-1348 | both forms of `valid_hash` are that comparison |
| `Target.PrefilterLosesNothing` | algo-gate-api.c:162-163 | a hash that meets the target has word 7 at most the target's |
| `Target.ValueIsDigits` | util.c:1195-1212 | the 256-bit integer is the one whose digits to base 2^32 the words are, least significant first |
| `Clmul.EmuIsProduct` | simd-utils/simd-neon-clmul.h:43-56 | for all 64-bit a and b, `v128_pmull_emu` is their product in GF(2)[x] |
| `Clmul.ColumnIsExact` | simd-utils/simd-neon-clmul.h:24-31 | a column is the exact product of a by one byte: no bit is lost or doubled in the byte packing |
| `Clmul.ShiftedColumnBit` | simd-utils/simd-neon-clmul.h:35-39 | shifting a column by its byte number loses no bit off the top |
| `Clmul.ProductFits` | simd-utils/simd-neon-clmul.h:43-56 | the product has no bit from 127 on, so 128 bits hold it |
| `Clmul.EmuSmall` | simd-utils/simd-neon-clmul.h:69-77 | computes the product by the low five bits of c |
| `Clmul.SmallIsProductIffBelow32` | simd-utils/simd-neon-clmul.h:58-77 | that is the product by c, for every operand, if and only if c is below 32 |
| `Clmul.ShlBitsIsShift` | simd-utils/simd-neon-clmul.h:62-67 | the two-lane shift is a 128-bit left shift |
| `Clmul.SmallProductFits` | simd-utils/simd-neon-clmul.h:62-63 | with only the low half populated nothing is lost |
| `Aes.EmuIsRound` | simd-utils/simd-neon-aes.h:177-196 | the emulated rounds are the rounds of section 5.1 of FIPS 197, for every state, key and S-box |
| `Aes.EmuMixIsMixColumn` | simd-utils/simd-neon-aes.h:166-188 | the factored xtime form is MixColumns plus the key |
| `Aes.XtimeIsDouble` | simd-utils/simd-neon-aes.h:140-147 | the masked shift is multiplication by x modulo 0x11b |
| `Aes.DoubleIsTimesX` | simd-utils/simd-neon-aes.h:140-147 | multiplication by x bit by bit, with x^8 = x^4 + x^3 + x + 1 (section 4.2.1 of FIPS 197) |
| `Aes.Rotations` | simd-utils/simd-neon-aes.h:158-164 | the shift-and-insert and the half-word reversal rotate a column by one and two bytes |
| `Aes.TilesCoverTheTable` | simd-utils/simd-neon-aes.h:44-60 | the four 64-entry lookups with wrapping indices are one 256-entry lookup |
| `Aes.TableIsRound` | compat/aes_helper.c:91-128 | `AES_ROUND_LE` is the same round for any S-box its tables are built from, `AES_ROUND_NOKEY_LE` the same without the key |
| `Aes.TableColumnIsMix` | compat/aes_helper.c:91-95 | four lookups and three xors are MixColumns of SubBytes |
| `Aes.RoundsAgree` | compat/aes_helper.c:91-108 | the two implementations agree on every state and key |
| `Base58.B58Dec` | util.c:904-952 | true exactly for Base58 strings whose value is below the limit; then the first binsz bytes are that value, big-endian; on failure nothing is written |
| `Base58.LimitInBytes` | util.c:911-928 | the limit is 256^binsz, or 256^(binsz - 4) where binsz is a multiple of four |
| `Base58.MulAddWords` | util.c:922-926 | the in-place carry loop is `MulAdd` |
| `Base58.MulAddIsExact` | util.c:922-926 | words and carry together are the old value times 58 plus the digit |
| `Base58.FitsIffBelowLimit` | util.c:927-928 | no carry and nothing under the mask is exactly "below the limit" |
| `Base58.PrefixIsSmaller` | util.c:927-928 | the value never shrinks with further digits, so the early exit rejects no string that fits |
| `Base58.FindDigit` | util.c:919-921 | finds the least index of the character, or runs off the alphabet exactly if it is not in it |
| `Base58.AlphabetIs` | util.c:902 | the alphabet is strictly ascending and holds exactly the digits and letters other than 0, O, I and l |
| `Base58.PutWords` | util.c:931-945 | the written bytes have the value of the words |
| `Radix.DigitsUnique` | util.c:931-945 | length and value determine the digits, so the bytes are the only ones of that value |
| `ConvertBits.Convert` | util.c:1071-1091 | with padding the output is the input's bits and fewer than outbits zeros; without, it is accepted exactly if the input is the output's bits and too few zeros for a symbol; despite the 32-bit accumulator |
| `ConvertBits.ShiftInLow` | util.c:1076 | bits dropped off the top of the accumulator do not matter below |
| `ConvertBits.BytesRoundTrip` | util.c:1071-1101 | bytes to 5-bit symbols and back is accepted and is the identity |
| `ConvertBits.SymbolsRoundTrip` | util.c:1071-1101 | whatever symbols are accepted, encoding the output again gives them back |
| `ConvertBits.DecodeOfEncode` | util.c:1071-1091 | the first round trip for any two widths, the symbols' no wider than the input's |
| `ConvertBits.EncodeOfDecode` | util.c:1071-1091 | the second for any two widths |
| `ConvertBits.NoOtherOutput` | util.c:1087-1090 | a refusal is right: no other output would match the input exactly |
| `Bech32.SubstitutionDetected` | util.c:1014-1069 | if a string is accepted, replacing any data character by one of another value makes it rejected |
| `Bech32.ErrorDetected` | util.c:1003-1069 | the same for the character table the program has |
| `Bech32.StepInjective` | util.c:993-1001 | the polymod step is injective on 30-bit registers |
| `Bech32.PolymodInjective` | util.c:1059 | so is absorbing any further values |
| `Bech32.OneValueMatters` | util.c:1059-1068 | changing one value changes the checksum |
| `Bech32.CharsetIsTable` | util.c:1003-1012 | the reverse table has values below 32 or -1, and none for the separator |
| `Bech32Field.StepIsTimesX` | util.c:993-1001 | the polymod step is multiplication by x in GF(32)[x], a^5 = a^3 + 1, modulo x^6 + {29}x^5 + {22}x^4 + {20}x^3 + {21}x^2 + {29}x + {18} (BIP 173, section "Checksum") |
| `Bech32Field.AbsorbAddsSymbol` | util.c:1040-1059 | absorbing a value multiplies by x and adds the value to the constant term |
| `Bech32Field.ConstantIsGenerator` | util.c:996-1000 | the constant for bit j is a^j times the generator, coefficient by coefficient |
| `Bech32Field.OneChecksum` | util.c:1059-1068 | from every register exactly one sequence of six symbols leads to 1 |
| `Bech32Field.CharsetIsBip173` | util.c:1003-1012 | the reverse table gives each of the 32 characters of BIP 173 its place, upper case standing for lower case, and no other character a value |
| `Bech32Field.OneIsOne` | util.c:1015-1069 | the register starts and must end at the polynomial 1 |
| `Bech32Field.CaseIsSomewhere` | util.c:1040-1068 | the two case flags say whether a letter of that case occurs |
| `Bech32Field.EveryAddressHasOneChecksum` | util.c:1014-1069 | every lower-case prefix and data part short enough has exactly one lower-case checksum with which the whole string is accepted |
| `Bech32Decode.Decode` | util.c:1014-1069 | accepts exactly the strings of `Accepts` (BIP 173: length, last separator, ranges, case, checksum) and hands out the lower-cased prefix and the data without checksum |
| `Bech32Decode.DecodeAddress` | util.c:1003-1069 | the same with the character table the program has |
| `Bech32Decode.FindSeparator` | util.c:1023-1026 | counts the characters after the last '1' |
| `Bech32Decode.HrpHigh` | util.c:1032-1045 | the first loop refuses exactly the out-of-range prefixes and absorbs the high bits of the lower-cased characters |
| `Bech32Decode.HrpPart` | util.c:1032-1050 | both prefix loops absorb high bits, a zero and low bits in that order |
| `Bech32Decode.DataLoop` | util.c:1051-1065 | absorbs every data value, stores all but the last six, and has seen every letter's case |
| `Merkle.WitnessRoot` | cpu-miner.c:945-953 | leaves the recursive root of the tx_count + 1 leaves in slot 0, within tx_count + 2 slots |
| `Merkle.WitnessCommitment` | cpu-miner.c:945-955 | the commitment is the hash of that root and the reserved value |
| `Merkle.TxidRoot` | cpu-miner.c:1059-1070 | the same root by the other loop, within (tx_count + 2) & ~1 slots |
| `Merkle.LevelInPlace` | cpu-miner.c:951-952 | overwriting node i with the hash of 2i and 2i+1 from the left gives the level above |
| `Merkle.PaddingKeepsRoot` | cpu-miner.c:948-950 | writing the last node of an odd level once more leaves the root as it is |
| `Merkle.FoldBranch` | cpu-miner.c:2353-2361 | the loop is `Fold` |
| `Merkle.FoldIsRoot` | cpu-miner.c:2353-2361 | folding any leaf through the branch of leaf 0 is the root of the tree with that leaf |
| `Merkle.BranchIgnoresLeaf0` | cpu-miner.c:2353-2361 | the branch does not depend on leaf 0 |
| `History.Rings.Get` | api_model.c:367-410 | up to 64 threads: exactly the max newest records of the union of the last 50 of each thread asked for, strictly newest first, all since the last reset; otherwise nothing |
| `History.NewestIsUnique` | api_model.c:363-366 | there is only one such list |
| `History.MergeStep` | api_model.c:380-407 | taking the newest head keeps: what is out is newer than all that is pending |
| `History.BestIsNewest` | api_model.c:386-403 | what is pending once the best head is taken is older than it |
| `History.Rings.FindBest` | api_model.c:386-403 | the inner loop finds an open thread with the newest head, or that there is none |
| `History.Rings.Add` | api_model.c:337-361 | appends a record with the next id to its thread's log, allocating on first use; other threads' records are untouched; out-of-range threads are ignored |
| `History.Rings.Reset` | api_model.c:327-335 | empties every log and starts ids at 1 |
| `History.AddRepresents` | api_model.c:348-360 | writing slot count modulo 50 keeps every thread's last 50 records in the ring |
| `History.AddedKeepsInv` | api_model.c:350 | ids stay distinct over all threads and rising in each |
| `LinkedList.NextPrevInverse` | elist.h:14-16 | next and prev undo each other all round a circle |
| `LinkedList.InsertBetween` | elist.h:33-41 | inserts into the circle at that place |
| `LinkedList.ListAdd` | elist.h:51-54 | inserts right after the head |
| `LinkedList.ListAddTail` | elist.h:64-67 | inserts last |
| `LinkedList.Unlink` | elist.h:76-80 | closes the circle around the entry |
| `LinkedList.ListDel` | elist.h:87-92 | removes the entry and clears its links |
| `LinkedList.ListDelInit` | elist.h:98-102 | removes the entry and leaves it a circle of its own |
| `LinkedList.ListMove` | elist.h:109-113 | removes from one list, inserts first into another |
| `LinkedList.ListMoveToFront` | elist.h:109-113 | the same within one list |
| `LinkedList.ListMoveTail` | elist.h:120-125 | removes from one list, inserts last into another |
| `LinkedList.ListMoveToBack` | elist.h:120-125 | the same within one list |
| `LinkedList.ListEmpty` | elist.h:131-134 | true exactly if the head is alone |
| `LinkedList.ListSplice` | elist.h:136-159 | concatenates one list's entries in front of another's; the emptied head keeps its links |
| `LinkedList.ListSpliceInit` | elist.h:168-175 | the same, and the emptied head is an empty list |
| `ThreadQueue.Fifo` | util.c:3021-3079 | over every run of push, take, freeze and thaw, what was queued and accepted is what was taken followed by what is queued, in order; `After` and `Answer` are what the methods are proved to do |
| `ThreadQueue.PerformAll` | util.c:3002-3079 | the same of the linked list itself: any run of calls on a queue, whatever it held |
| `ThreadQueue.Queue.Push` | util.c:3022-3047 | is `After` on the queue's items and flag: appends; while frozen or out of memory it fails and changes nothing |
| `ThreadQueue.Queue.Take` | util.c:3049-3079 | is `After` and `Answer`: returns and removes the first item, or finds nothing |
| `ThreadQueue.Queue.SetFrozen` | util.c:3002-3020 | is `After`: changes only the flag |
| `ShareRing.KthReplyKthSubmitter` | cpu-miner.c:1477-1491 | in every run with at most eight outstanding, the k-th reply is credited to the k-th submitter |
| `ShareRing.OverflowMiscredits` | cpu-miner.c:2184-2205 | after every run in step with anything outstanding, one more submission and a reply credit the oldest outstanding submitter if fewer than eight were outstanding, and otherwise the newcomer |
| `ShareRing.Accounts.Submit` | cpu-miner.c:2184-2205 | for any thread id and time: puts the record, counts the submission in the total and for that thread alone, and says exactly when a record is lost; every count stays the number of what it counts |
| `ShareRing.Accounts.Reply` | cpu-miner.c:1477-1593 | credits the thread of the record found, or nobody when there is none; the totals are the numbers of replies with each verdict, and every thread's own counts the numbers of its submissions and of the accepted and rejected replies credited to it |
| `ShareRing.ReplyKeepsCounts` | cpu-miner.c:1513-1593 | submitted plus replies without a record equals accepted plus rejected plus stale plus outstanding, and the threads' counts and what went astray add up to the totals, also after a reply |
| `ShareRing.SubmitKeepsCounts` | cpu-miner.c:2188-2193 | the same after a submission |
| `ShareRing.SubmitCounted` | cpu-miner.c:2188-2193 | a submission keeps every total and every thread's own count the number of what it counts |
| `ShareRing.ReplyCounted` | cpu-miner.c:1513-1593 | so does a reply, with any verdict and whether it found a record or not |
| `ShareRing.TakeRepresents` | cpu-miner.c:1479-1484 | taking a record removes exactly the oldest |
| `StratumLine.RecvAllIsLines` | util.c:1493-1569 | for every chunking, repeated calls return exactly the stream's lines in order if and only if no line is empty |
| `StratumLine.SessionIsLines` | util.c:1493-1569 | the same of the calls as they are, with blocking reads and NUL bytes, as long as no call's time runs out in the middle of a line: a read that comes late but completes a line does no harm |
| `StratumLine.RecvIsFirstLine` | util.c:1493-1569 | one call returns the first line of what is pending, and the rest stays pending |
| `StratumLine.EmptyLineLosesNext` | util.c:1551-1564 | after an empty line the line after the next is lost |
| `StratumLine.TimeoutBreaksLine` | util.c:1505-1569 | one timeout in the middle of a line, all else prompt: the line comes out in two parts, and what comes out is not the stream's lines |
| `StratumLine.LateReadSplitsLine` | util.c:1537-1564 | a call whose time runs out returns the pending text without newline as a line, or nothing if there is none |
| `StratumLine.Buffer.Append` | util.c:1480-1491 | appends, and keeps strlen + 1 below the buffer size |
| `StratumLine.Buffer.TakeLine` | util.c:1551-1564 | strtok and memmove are `Cut`, and every access stays inside the buffer |
| `StratumLine.Buffer.DropToken` | util.c:1561-1564 | the memmove, which reads one byte past the terminator, stays inside the buffer and leaves the rest as the string |
| `StratumLine.Buffer.RecvLine` | util.c:1493-1569 | the whole call is `RecvTimed` on text and reads: the first wait, blocking reads, the 60 seconds, failed reads and NUL bytes included |
| `HttpServe.ServerVerdict` | api_http.c:410-429 | for every stream whose header block ends within the bound, or that has none, and that is no POST body without Content-Length, every split into reads gives the verdict and request of parsing the whole (framing of sections 3 and 6.3 of RFC 9112) |
| `HttpServe.SplittingIrrelevant` | api_http.c:410-429 | the same for every stream that is not `Ambiguous`, whatever parses the header block |
| `HttpServe.SplittingMatters` | api_http.c:106-112 | for every `Ambiguous` stream some split gives another verdict |
| `HttpServe.WholeIsParse` | api_http.c:405-421 | within the header bound the buffer is never too small: the verdict of the whole is the parser's |
| `HttpServe.PrefixParse` | api_http.c:94-235 | once the header block is in, a prefix is incomplete or parses like the whole |
| `HttpServe.PrefixHeaderEnd` | api_http.c:98-105 | a prefix shows the whole stream's header end, or none yet |
| `HttpServe.Serve` | api_http.c:401-429 | the receive loop is `ServeFrom`, and never writes past its buffer |
| `HttpServe.AcceptedIsSafe` | api_http.c:132-235 | an accepted request has an absolute path without "..", without trailing slash and within its field, and a body of the declared length taken from right after the header block |
| `HttpServe.PercentDecodeInPlace` | api_http.c:61-81 | the in-place loop is `PercentDecode`, and never reads past the terminator |
| `HttpServe.DecodeOfEncode` | api_http.c:61-81 | every NUL-free byte string survives percent encoding and decoding, whatever is escaped as long as the percent sign is |
| `HttpServe.EncodeOfDecode` | api_http.c:61-81 | escaping only what has to be is shortest: whatever decodes to a string is at least as long |
| `HttpServe.FindHeaderEnd` | api_http.c:98-105 | the search loop is `HeaderEnd` |
| `HttpFields.AcceptedMeans` | api_http.c:83-212 | the verb of an accepted request by the characters before its first space, in any mixture of cases, and each field by the last header line that sets it |
| `HttpFields.AcceptedBody` | api_http.c:214-234 | its body is as long as its last Content-Length line says, and a POST with bytes after the header block has such a line |
| `HttpFields.LineSets` | api_http.c:184-210 | what a header line of each name sets, for every value, and that the other fields keep what they have; only a Content-Length that is no whole number, or negative, is refused |
| `HttpFields.HeaderIsLines` | api_http.c:168-212 | an accepted header block is its lines applied one after the other, at most 32 of them and 8192 bytes |
| `HttpFields.VerbByCharacters` | api_http.c:83-90 | the verb of a method name by its characters, in any mixture of cases |
| `HttpRefusals.RefusedForReason` | api_http.c:94-234 | every refusal has its reason: too large is no header end in 10240 bytes, a request line over 2048 bytes, a path or query of 512, more than 32 header lines or 8192 bytes in them, or a length over 8192; bad is a malformed request line, target or length, or a POST body without Content-Length; unsupported is a chunked body |
| `HttpRefusals.AcceptedForNoReason` | api_http.c:94-234 | and no accepted request has any of these reasons, so the limits are exact |
| `HttpRefusals.IncompleteMeans` | api_http.c:106-112 | more is waited for only while there is no header end and at most 10240 bytes are in, or the body is shorter than its Content-Length |
| `HttpRefusals.AcceptedTarget` | api_http.c:122-166 | the path and query of an accepted request are those sent, percent-decoded, the path without its trailing slashes, and it asks for pretty output exactly if `pretty=1` is part of the query |
| `HttpRefusals.DropSlashesIs` | api_http.c:150-156 | only slashes are dropped, all at the end but a first character |
| `HttpRefusals.ContainsIsPart` | api_http.c:159-163 | `Contains` is being a part of |
| `HttpRefusals.HexValIs` | api_http.c:53-59 | the hexadecimal digits in either case have their values, and nothing else has one |
| `HttpRefusals.NumberIsRead` | api_http.c:184-192 | white space, a sign or none, and decimal digits are read as that number, capped at the largest long |
| `HttpRefusals.NumberForm` | api_http.c:184-192 | and nothing else is, but the empty string, which is read as 0 |
| `HttpRoundTrip.ParseOfRender` | api_http.c:94-235 | every method name, path, query and body that the parser could itself have produced, written down with the escapes it needs and a Content-Length, is parsed back to exactly itself, with the verb its characters spell |
| `HttpRoundTrip.AcceptedIsRenderable` | api_http.c:94-235 | the method name, path, query and body of every accepted request are among those |
| `HttpRoundTrip.AcceptedSurvives` | api_http.c:94-235 | so every accepted request, written down again, is read as the same method name, path, query and body |
| `HttpRoundTrip.DeliveredHoweverSplit` | api_http.c:410-429 | and the receive loop delivers it however its bytes arrive |
| `HttpRoundTrip.NumberIsRead` | api_http.c:184-192 | the Content-Length of every allowed body is read back from its decimal digits |

## Assumptions

* Steps on shared memory are sequentially consistent; generation counters, ids, share counters and
  record counts do not wrap. Clocks, timeouts, allocation failures, registration failures and reads
  from the network are arbitrary inputs.
* In `Nonces`, different (job, extranonce2) pairs give different headers, and threads start once there is
  work.
* In `Scan`, each lane of the N-way hash is the hash of that lane's nonce, or the gate declines the
  whole batch.
* In `Aes`, the four tables are described by how they come from an S-box; the S-box itself is arbitrary.

## Left out

- Sockets, curl, JSON, logging, command line and configuration, the PHP pages.
- Difficulty arithmetic, hash rates and the memory estimate: long double rounding.
- The hash algorithms, the algorithm registration table, CPU probing, the SIMD wrapper macros.
- The S-box constants and the tower-field S-box.
- The pool part of a profile (`api_control.c:668-694`, 720-726), the error text, the elapsed-time test
  behind 202, and loading stored parameters into globals.
- Veil SHA256Dv, RandomX and getwork/GBT work paths; the extranonce-less wait is modelled.
- Route lookup, response writing, WebSocket handshake and the IP access list: easy beside the parser.
- History.Rings.Get: ids and counts are unbounded, so the 32-bit wrap of `hist_next_id` and `hist_count` is not modelled.
- HttpServe.Serve: a prefix longer than the buffer (answered 413 at once) is not modelled; shorter prefixes are a first read.
- HttpServe.AcceptedIsSafe: the header loop is a recursive function over the block, not a loop.
- Base58.B58Dec: a size of zero is excluded, since the source then looks at a word outside its allocation.
- The reset of the share ring and counters on an algorithm switch.
- ThreadQueue.Queue.Take: one critical section of `tq_pop`; the wait between its two tries is other callers' steps.
- ShareRing.Accounts.Reply: the verdict is an argument; how a refusal is told stale from its reason text is not modelled.
- Scan.ScanGeneric: a scan that never ends has no result, so the inputs on which the loop does not end are excluded; `Scan.EndsWithoutRestart` says which they are.
- HttpRoundTrip.AcceptedSurvives: the other header fields are not written down again, and a method name with a NUL byte in it is read as the part before.

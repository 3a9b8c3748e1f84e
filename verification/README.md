# A verified model of the car's real-time core

The repository drives a model car. Its hard logic sits in the bundled `lgpio` daemon library (pulse
scheduling, edge alerts, scripts, handles, line claims, I2C and permissions) and in one state machine
of the car's own hardware layer. This project models those parts in Dafny and proves what they
promise, or says exactly when they keep the promise.

| part | files | the main results |
|---|---|---|
| PWM and wave transmitter | `TxModel`, `TxScheduler`, `TxLife`, `TxWave`, `TxRuns`, `TxWrites`, `TxWaveRuns`, `TxTiming`, `TxRoom` | In every run of passes and calls, with any mix of records, a PWM record's edges lie on the drift-free timeline from its first due time and its cycles are those of a reference player (first in first out, exact counts, endless entries yield); a wave record's pulses are conserved and on time, and all sent exactly if none was queued behind an empty wave that was not the record's first; and the writes of the run are those edges and pulses. One active record per key. An answered room is exactly how many more requests are taken. No deadline of the run is passed over exactly if each pass finds the list head in use or the others with 20 ms to spare. |
| streaming MD5 | `Md5Spec`, `Md5Body`, `Md5Stream`, `Md5Vectors` | The unrolled, optimised compression equals the table-driven one of section 3.4 of RFC 1321, and any splitting of a message into updates gives the digest of the padded concatenation, printed so that it reads back; and the digest of "abc" is the one section A.5 gives. |
| alerts | `Alerts`, `AlertPlain`, `AlertQueue`, `AlertThread` | The online debouncer reports exactly the edges its written rules ask for, exactly when no edge comes too late; without debounce every edge is reported at once; the watchdog reports exactly the silences it is for. Levels never repeat. Reports are conserved, sorted and emitted exactly when due. |
| scripts | `ScriptBits`, `ScriptModel`, `ScriptLaws`, `ScriptLoops`, `ScriptProof`, `ScriptSafety`, `ScriptAsm`, `ScriptVm` | The label-resolving assembler accepts exactly the meaningful scripts, its output simulates the source in both directions, and stays inside its program, stack and registers exactly if it never returns to a negative address. The commands obey the laws of arithmetic, bits, registers, comparisons and counted loops. |
| handles | `HandleModel`, `Handles` | The doubly linked chains represent one allocation-ordered list per type under every operation. |
| line claims | `ClaimModel`, `Claims` | The claim table is a partition that agrees with what the kernel holds open. |
| I2C zip | `I2cZip`, `I2cMeaning`, `I2cLoop` | Decoding undoes encoding, for every list of operations, exactly when the reads leave a byte over; and for any bytes each segment sent is the read or write they spell, with the direction flag set for reads alone. |
| permissions | `Matcher` | The one-pass matcher answers what a pattern means, exactly for patterns whose ranges ascend. |
| rotary encoder | `Encoder` | The counter is the clamped winding number of the shaft. |

Each part has a value-level model with the theorems about it and, where the source works in place, the
methods that do so on classes and arrays, proved to make the model's steps: records in a linked list
with in-place queues, the 64-byte buffer, the shared alert buffer, the tag table and jump patching, the
stack and register arrays, the slot array with its chains, the line records with their shared arrays.

## What the code does that its documentation does not say

- Deleting the head of the transmit list ends the walk early and sets the delay to 20 ms
  (`lgpio/lgPthTx.c:165-168`). `PassPunctual` gives the exact condition under which a pass stays
  punctual and `RunPunctual` that for a run; `HeadDeletionBreaksTheClock` reaches a negative delay and
  a negative `tv_nsec` from an empty list by three calls and two passes.
- An endless PWM entry always starts a cycle before it yields, unless it is the entry a record was
  created with: that one plays if and only if nothing is queued before its first edge
  (`FirstEndlessEntry`).
- A line can fall for no time at all: exactly where a record was created with an endless entry of no
  on-time and that entry is skipped for one of no off-time (`NoGlitchExactly`, `Glitch`).
- A wave with no pulses queued behind another one loses the waves after it: a record that stops by
  itself has sent everything if and only if no wave with pulses stands behind an empty one that was
  not its first (`StopsAfterAll`). `EmptyWaveLosesPulses` reaches such a loss from an empty list by
  three calls and three passes.
- A debounced edge must be stable for more than the debounce period; the comment says at least
  (`ExactlyDebounceIsTooSoon`).
- An edge that is delivered only after a poll beyond its predecessor's debounce period comes too late
  to cancel it. With edges at distinct times this is the one way in which the reports differ from the
  rules (`DebounceRulesExactly`, `LateEdgeSpoils`).
- `tscomp` truncates to 32 bits. It orders two different times correctly if and only if the later
  minus the earlier, modulo 2^32, is at least 1 and less than 2^31, or exactly 2^31 with the earlier
  as the first argument (`TsCompExact`). Times far apart can go in a circle, and then no arrangement is sorted
  (`TsCompCycles`); reports are conserved all the same.
- A script that returns to data it pushed can set the program counter to -1 (`ReturnToData`). An
  accepted script with a command in it leaves its program if and only if a RET pops a negative number
  (`StaysInsideExactly`). A script of tags alone is fetched from all the same (`EmptyScriptFetchesAnyway`).
- After CMP, JLT, JGE, JGT and JLE go by the order of A and the operand only where their difference fits
  32 bits; further apart they go the other way (`CompareAndJump`). A loop counted with DCR and JNZ turns
  as often as its register says, and 2^32 more often than a count that is not positive (`LoopTurns`).
- An endless PWM request that waits takes a place of the answered room but gives it up to the next
  request (`AnswerIsRoom`).
- I2C reads must leave one byte of the receive buffer unused and a final write needs an END after it
  (`RoundTrip`, `WithoutEnd`). Where `char` is signed, parameter bytes of 128 and more are misread
  (`ParIsRead`).
- A descending range in a permission pattern still matches its first number (`AnswerIsMeaning`).
- With a negative step the rotary counter leaves its limits (`WithinExactly`).
- `xClaim` lets a request name the line just past the last one; no such line is ever claimed, because
  the kernel grants none (`Claim`).

## Model

| member | source | states |
|---|---|---|
| TxScheduler.TxRec.ForPwm | lgpio/lgPthTx.c:248-261 | a new record transmits one entry, cycles 0 standing for ever, high first if it has an on-time |
| TxScheduler.TxRec.ForWave | lgpio/lgPthTx.c:291-303 | a new wave record starts at the first pulse of its one wave |
| TxScheduler.TxRec.ShiftPwm | lgpio/lgPthTx.c:77-86 | the in-place shift drops exactly the head of the queue; the slot read past the live part never reaches it |
| TxScheduler.TxRec.ShiftWave | lgpio/lgPthTx.c:117-129 | the same for waves, and the position returns to the first pulse |
| TxScheduler.TxRec.StartCycle | lgpio/lgPthTx.c:88-106 | a cycle boundary: stop at a used-up count, otherwise the right edge, the time to the next, and the count-down that keeps endless entries endless |
| TxScheduler.TxRec.FireAsPwm | lgpio/lgPthTx.c:71-114 | one due PWM event changes the record and writes as the model's step does |
| TxScheduler.TxRec.FireAsWave | lgpio/lgPthTx.c:115-140 | one due wave event does the same |
| TxScheduler.TxRec.Tick | lgpio/lgPthTx.c:57 | the delay comes off the record's countdown and nothing else changes |
| TxScheduler.TxRec.ServeIt | lgpio/lgPthTx.c:69-141 | an active record fires if it is due, by its kind, and is otherwise left as it is |
| TxScheduler.Scheduler.AgeAll | lgpio/lgPthTx.c:56-57 | the delay slept is taken off every record's countdown, and nothing else changes |
| TxScheduler.Scheduler.Unlink | lgpio/lgPthTx.c:148-165 | deleting a list node in place removes that record and keeps the order of the rest |
| TxScheduler.Scheduler.Walk | lgpio/lgPthTx.c:63-169 | the linked-list walk serves each record once, deletes inactive ones, and stops early after deleting the head |
| TxScheduler.Scheduler.SetWakeUp | lgpio/lgPthTx.c:171-176 | the wake-up time advances by the delay with one carry |
| TxScheduler.Scheduler.Pass | lgpio/lgPthTx.c:50-178 | the whole new state of a pass and all that it writes are those of the model's pass |
| TxScheduler.Scheduler.GetTxRec | lgpio/lgPthTx.c:224-235 | finds the first record of a key, or none |
| TxScheduler.Scheduler.PushFront | lgpio/lgPthTx.c:272-275 | links a record in before all others |
| TxScheduler.Scheduler.CreatePwm | lgpio/lgPthTx.c:237-281 | a new record is first in the list, due where the period alignment says |
| TxScheduler.Scheduler.CreateWave | lgpio/lgPthTx.c:283-318 | a new wave record is first in the list and due when the thread wakes |
| TxScheduler.Scheduler.SetAsPwm | lgpio/lgGpio.c:547-595 | queue, replace, silence or create, with the status of each case |
| TxScheduler.Scheduler.SetAsWave | lgpio/lgGpio.c:625-661 | queue or create, with the status of each case |
| TxScheduler.Scheduler.Release | lgpio/lgGpio.c:389-403 | freeing a line silences its PWM and its wave |
| TxScheduler.Scheduler.StopChip | lgpio/lgPthTx.c:212-222 | closing a chip silences its records and only those |
| TxScheduler.Scheduler.RoomAndBusy | lgpio/lgGpio.c:1242-1277 | room and busy are those of the active record of the key, if there is one |
| TxRoom.OneAsked | lgpio/lgGpio.c:555-571 | a counted request on a transmitting line goes behind what is queued for good and is answered by the room then left, or is refused and changes nothing |
| TxRoom.TakesExactly | lgpio/lgGpio.c:555-595 | of any sequence of counted requests exactly as many are taken as there is room for, each at the end of the queue, with answers counting down to 0; each further one is refused as TX_QUEUE_FULL and changes nothing |
| TxRoom.AnswerIsRoom | lgpio/lgGpio.c:547-595 | an answer that is no error is the room `lgTxRoom` gives, and so many counted requests will be taken; one more if the call queued an endless request that waits |
| TxRoom.OtherAnswers | lgpio/lgGpio.c:547-595 | too short a period is refused and changes nothing; on and off both 0 silence the line |
| TxRoom.SendsExactly | lgpio/lgGpio.c:625-661 | the same for waves |
| TxRoom.WaveAnswerIsRoom | lgpio/lgGpio.c:625-661 | and for the answer to a wave |
| TxRoom.IdleRoom | lgpio/lgGpio.c:1274-1277 | a line that does not transmit has room for ten, and the call that starts it answers nine |
| TxLife.MarksAreTheWrites | lgpio/lgPthTx.c:88-113 | the marks the timing theorem speaks of are exactly the levels written to the line |
| TxLife.NoDrift | lgpio/lgPthTx.c:56-114 | over any events, however late, the k-th cycle is due at the first due time plus the lengths of all earlier cycles, and a falling edge one on-time after its rising edge |
| TxLife.StartPlays | lgpio/lgPthTx.c:73-107 | at a cycle start the record plays what the reference player would |
| TxLife.AddAsks | lgpio/lgGpio.c:555-571 | queueing asks the reference player for the entry, replacing a pending endless one; a full queue changes nothing |
| TxLife.Faithful | lgpio/lgPthTx.c:73-113 | cycle conservation: in every run a record is the reference player, and ends only when nothing is owed |
| TxLife.Conserved | lgpio/lgPthTx.c:73-113 | with finite requests, cycles begun and cycles owed together are the cycles asked for, in order |
| TxLife.EndlessYields | lgpio/lgPthTx.c:77-107 | in every run of a record with only an endless entry left, each cycle before the next request is that entry's and it does not end; the first cycle after the request is the request's |
| TxLife.FirstEndlessEntry | lgpio/lgPthTx.c:77-107 | over all runs up to the first edge, that edge begins the created endless entry's cycle if and only if nothing was queued before it; otherwise the entry is dropped unplayed for one asked for since |
| TxLife.FirstEndlessEntryCanBeSkipped | lgpio/lgPthTx.c:77-86 | a concrete run in which it is skipped |
| TxLife.ShiftedEndlessEntryPlays | lgpio/lgPthTx.c:77-107 | every entry reached by a shift starts a cycle at once |
| TxLife.EndsAfterAll | lgpio/lgPthTx.c:88-92 | a record that ends by itself has played every cycle it was given |
| TxLife.NoGlitch | lgpio/lgPthTx.c:88-113 | in every run of a record created high, or with a count, the line falls only in cycles that have an off-time |
| TxLife.NoGlitchExactly | lgpio/lgPthTx.c:88-113 | for a record as it is made, that is so in every run if and only if its first entry has an on-time or a count |
| TxLife.Glitch | lgpio/lgPthTx.c:77-113 | the run in which it is not |
| TxWave.WaveStep | lgpio/lgPthTx.c:115-140 | a wave sends its next pulse or stops; it stops with pulses left exactly when the next wave is empty |
| TxWave.WavesConservedOnTime | lgpio/lgPthTx.c:115-140 | in every run pulses sent and left are those accepted, in order, each at the first due time plus all earlier delays, empty waves or not |
| TxWave.StopsAfterAll | lgpio/lgPthTx.c:131-139 | a record that stops by itself has sent everything if and only if, among the waves held and accepted, none with pulses stands behind an empty one other than the first |
| TxRuns.BusyMeansActive | lgpio/lgPthTx.c:224-235 | the lookup answers whether any record of the key transmits |
| TxRuns.FoundIsFirst | lgpio/lgPthTx.c:224-235 | the lookup finds the active record of a key |
| TxRuns.InvInitially | lgpio/lgPthTx.c:38-41 | the empty list satisfies the invariant below |
| TxRuns.InvPass | lgpio/lgPthTx.c:50-178 | a pass keeps the invariant of the transmit list |
| TxRuns.InvApply | lgpio/lgGpio.c:547-661 | so does every call |
| TxRuns.InvRun | lgpio/lgPthTx.c:43-281 | in every reachable state a key has at most one active record, before all inactive ones, with 1 to 10 entries of which only the last pending may be endless |
| TxRuns.StoppedStays | lgpio/lgPthTx.c:146-166 | a record that stopped never transmits again |
| TxRuns.OpIsEvent | lgpio/lgPthTx.c:50-178 | one operation on the whole list is at most one event of each transmitting PWM record's own life |
| TxRuns.RunIsLife | lgpio/lgPthTx.c:43-188 | a run of the whole list, projected to one PWM record, is that record's life on a clock of the delays applied |
| TxRuns.EveryRunOnTimeAndFaithful | lgpio/lgPthTx.c:43-188 | drift-freedom and cycle conservation for every PWM record of every run |
| TxWrites.WalkOn | lgpio/lgPthTx.c:65-169 | in a walk the writes to the key of an active record are that record's alone |
| TxWrites.OpWritesMarks | lgpio/lgPthTx.c:71-114 | an operation writes to a transmitting PWM record's line exactly what its event marks |
| TxWrites.RunWritesMarks | lgpio/lgPthTx.c:43-188 | over every run, up to the operation in which a PWM record stops, the levels written to its line are those of its marks, in order |
| TxWaveRuns.OpIsWaveEvent | lgpio/lgPthTx.c:50-178 | one operation on the whole list is at most one event of each transmitting wave record's own life |
| TxWaveRuns.RunIsWaveLife | lgpio/lgPthTx.c:43-188 | a run of the whole list, projected to one wave record, is that record's life on a clock of the delays applied |
| TxWaveRuns.EveryWaveRunConserved | lgpio/lgPthTx.c:115-140 | in every run of passes and calls a wave record's pulses sent and left are those accepted, each on time |
| TxWaveRuns.EveryWaveRunStopsAfterAll | lgpio/lgPthTx.c:115-140 | in every run in which no call silences the record and it stops, it has sent everything if and only if no wave with pulses was queued behind an empty one that was not its first |
| TxWaveRuns.EmptyWaveLosesPulses | lgpio/lgPthTx.c:117-140 | from an empty list, three calls queue a pulse, an empty wave and a pulse, and three passes send the first pulse and delete the record |
| TxWaveRuns.RunWritesPulses | lgpio/lgPthTx.c:131-137 | over every run, up to the operation in which a wave record stops, what is written to its group is its pulses sent, in order |
| TxTiming.PassPunctual | lgpio/lgPthTx.c:61-169 | delays stay within 0 and 20 ms, and no deadline is passed over exactly if the head stays or the others have 20 ms to spare |
| TxTiming.AdvanceNormal | lgpio/lgPthTx.c:171-176 | one carry keeps `tv_nsec` normalised while the delay is within bounds |
| TxTiming.HeadDeletionBreaksTheClock | lgpio/lgPthTx.c:150-176 | three calls and two passes from the empty list, nothing negative in them, whose head deletion leads to a negative delay and `tv_nsec` |
| TxTiming.SleptIsReal | lgpio/lgPthTx.c:56-57 | the delays applied add up to the time between wake-ups |
| TxTiming.OpClock | lgpio/lgPthTx.c:171-176 | only a pass advances the time of the last pass, by the delay it slept |
| TxTiming.FirstDueIsAligned | lgpio/lgPthTx.c:265-270 | a record is first due at the least multiple of its period beyond the current microsecond plus its offset |
| TxTiming.CallPunctual | lgpio/lgGpio.c:547-661 | calls between passes pass no deadline over |
| TxTiming.RunPunctual | lgpio/lgPthTx.c:43-281 | every state of a run is punctual, with its delay in bounds and a normalised clock, if and only if every pass finds the head in use or the others with 20 ms to spare |
| Md5Body.IsF | lgpio/lgMD5.c:50-62 | a STEP with the optimised F is the round-1 operation of RFC 1321 |
| Md5Body.IsG | lgpio/lgMD5.c:51-62 | the same for G, which is not the RFC's formula |
| Md5Body.IsH | lgpio/lgMD5.c:52-62 | the same for H and H2 |
| Md5Body.IsI | lgpio/lgMD5.c:54-62 | the same for I |
| Md5Body.Constants1 | lgpio/lgMD5.c:103-118 | the words, constants and shifts of round 1 are those of the tables |
| Md5Body.Constants2 | lgpio/lgMD5.c:121-136 | round 2 |
| Md5Body.Constants3 | lgpio/lgMD5.c:139-154 | round 3 |
| Md5Body.Constants4 | lgpio/lgMD5.c:157-172 | round 4 |
| Md5Body.FourF | lgpio/lgMD5.c:103-106 | four steps that rotate the registers by name are four table steps |
| Md5Body.SetBlock | lgpio/lgMD5.c:69-77 | SET yields the n-th little-endian word and stores it for the later rounds |
| Md5Body.Round1Low | lgpio/lgMD5.c:103-110 | steps 1 to 8 of the unrolled code are those of the table |
| Md5Body.Round1High | lgpio/lgMD5.c:111-118 | steps 9 to 16 |
| Md5Body.Round2 | lgpio/lgMD5.c:121-136 | steps 17 to 32 |
| Md5Body.Round3 | lgpio/lgMD5.c:139-154 | steps 33 to 48, alternating H and H2 |
| Md5Body.Round4 | lgpio/lgMD5.c:157-172 | steps 49 to 64 |
| Md5Stream.AbsorbConcat | lgpio/lgMD5.c:96-180 | absorbing blocks one call at a time is absorbing them together |
| Md5Stream.Md5.constructor | lgpio/lgMD5.c:190-199 | the initial state of RFC 1321 with nothing counted |
| Md5Stream.Md5.Body | lgpio/lgMD5.c:83-188 | any number of whole blocks changes the registers as the table-driven compression does |
| Md5Stream.CountsMeaning | lgpio/lgMD5.c:206-209 | (hi, lo) is the byte count modulo 2^61 |
| Md5Stream.CountsStep | lgpio/lgMD5.c:206-209 | one update keeps it so, wrap-around and carry included |
| Md5Stream.LengthIsCounters | lgpio/lgMD5.c:262-264 | the shifted counters are the eight length bytes of section 3.2 |
| Md5Stream.LengthReads | lgpio/lgMD5.c:262-264 | the length bytes, read least significant first, are the length modulo 2^64 |
| Md5Stream.StillWaiting | lgpio/lgMD5.c:213-219 | too little data for a block only waits |
| Md5Stream.Cut | lgpio/lgMD5.c:213-232 | filling the buffer, whole blocks, then the tail cut the stream where blocks are |
| Md5Stream.Md5.Update | lgpio/lgMD5.c:201-233 | after an update the context stands for the message so far with the data appended |
| Md5Stream.OneOrTwoBlocks | lgpio/lgMD5.c:247-260 | the branch on the room left pads as section 3.1 says |
| Md5Stream.PaddedInBlocks | lgpio/lgMD5.c:247-266 | what was absorbed and the last block are the padded message |
| Md5Stream.Md5.Final | lgpio/lgMD5.c:241-279 | the printed digest of the whole message, and a wiped context |
| Md5Stream.HexInjective | lgpio/lgMD5.c:277-278 | different digests print differently |
| Md5Stream.HexReads | lgpio/lgMD5.c:277-278 | every byte of the digest is two of the sixteen digits 0-9 and a-f in the text, and reads back as 16 times the first plus the second |
| Md5Stream.DigestOf | lgpio/lgMD5.c:190-279 | however a message is split, the digest is that of the concatenation |
| Md5Stream.UserHash | lgpio/lgMD5.c:305-312 | the user hash is the digest of salt, secret and salt, and is unwritten without a secret |
| Md5Vectors.DigestOfAbc | lgpio/lgMD5.c:43-282 | the digest of the bytes of "abc" is the one RFC 1321 lists |
| Alerts.CountStaysBelow | lgpio/lgPthAlerts.c:329-340 | no call takes the report count to the limit of 2000 |
| Alerts.DebounceIsDue | lgpio/lgPthAlerts.c:287-343 | the online check reports exactly what has become due by the rules since the last call |
| Alerts.WantedStep | lgpio/lgPthAlerts.c:293-306 | unless the call brings an edge too late to cancel the one before it, what the written rules want grows by what is due at the call |
| Alerts.DebounceRules | lgpio/lgPthAlerts.c:287-418 | for every history of edges in time order, with polls at any times, in which no edge comes too late, the reports are exactly the edges the rules ask for, each stamped edge time plus debounce |
| Alerts.DebounceRulesExactly | lgpio/lgPthAlerts.c:287-418 | with edges at distinct times, they are so if and only if no edge comes within the debounce period of one that a poll beyond that period has had reported |
| Alerts.PunctualEdges | lgpio/lgPthAlerts.c:503-566 | no edge comes too late if none is earlier than a call before it, whenever the polls are |
| Alerts.LaggingPoll | lgpio/lgPthAlerts.c:513-562 | so the poll 50 us before the newest edge read is among the histories the rules are proved for |
| Alerts.LateEdgeSpoils | lgpio/lgPthAlerts.c:309-337 | a concrete history in which an edge comes too late and the reports differ from the rules |
| Alerts.OnlyRoomMatters | lgpio/lgPthAlerts.c:329-340 | the fill of the buffer changes nothing while there is room |
| Alerts.ExactlyDebounceIsTooSoon | lgpio/lgPthAlerts.c:309-311 | an edge exactly the debounce period later still cancels |
| Alerts.NoRepeatedLevel | lgpio/lgPthAlerts.c:309-417 | with both edges debounced two consecutive reports never carry the same level, in any history, watchdog and full buffers included |
| AlertPlain.StraightRules | lgpio/lgPthAlerts.c:345-418 | for every history of a line without debounce the reports are: each edge at once, and in each silence, at the first call that finds it longer than the watchdog allows, one report stamped with the time at which the watchdog ran out |
| AlertPlain.EveryEdgeReported | lgpio/lgPthAlerts.c:390-418 | without a watchdog that is one report for every edge and no other, in order, with the edge's own time and level and the line's chip, number and handle |
| AlertPlain.WatchdogRules | lgpio/lgPthAlerts.c:282-419 | in every history, debounced or not, a call reports that the watchdog ran out exactly if the last report is of an edge, was marked longer ago than the watchdog allows, and there is room |
| AlertThread.Queue.DoDebounce | lgpio/lgPthAlerts.c:287-343 | the debounce part on the record and the shared buffer |
| AlertThread.Queue.DoWatchdog | lgpio/lgPthAlerts.c:345-388 | the watchdog part |
| AlertThread.Queue.DoEdge | lgpio/lgPthAlerts.c:390-418 | the part that takes an edge |
| AlertThread.Queue.XDebWatEvt | lgpio/lgPthAlerts.c:282-419 | one call changes record and buffer as the model's call does |
| AlertQueue.TsCompExact | lgpio/lgPthAlerts.c:68-74 | the comparison has the sign of the difference d of the times if and only if d is 0, or positive and 1 to 2^31 - 1 modulo 2^32, or negative and at least 2^31 modulo 2^32; it is d itself within 2^31 |
| AlertQueue.TsCompCanReverse | lgpio/lgPthAlerts.c:68-74 | at 2^31 ns apart both orders are claimed |
| AlertQueue.TsCompCycles | lgpio/lgPthAlerts.c:68-74 | three times 1.6 s apart go in a circle, and no arrangement of them is sorted |
| AlertQueue.U64Means | lgpio/lgPthAlerts.c:232-236 | a time of no negative sign is itself, and a negative limit lets everything go |
| AlertQueue.NarrowOrder | lgpio/lgPthAlerts.c:68-74 | within a span of 2^31 ns sorting by it is sorting by time |
| AlertQueue.DueIsExact | lgpio/lgPthAlerts.c:236-239 | in time order the leading due reports are all the due ones |
| AlertQueue.RoundIsExact | lgpio/lgPthAlerts.c:575-602 | a round emits exactly the due reports in time order and keeps the later ones |
| AlertQueue.HalfMillisecond | lgpio/lgPthAlerts.c:575-602 | a round lets go of exactly the reports that are half a millisecond old |
| AlertQueue.Conserved | lgpio/lgPthAlerts.c:575-602 | over any rounds, however each arranges the buffer, every report leaves once or is still buffered |
| AlertQueue.NotifyOne | lgpio/lgPthAlerts.c:122-226 | a running handle is sent its reports in order, in full chunks and a rest; a serious error closes it |
| AlertQueue.ForHandleIsAll | lgpio/lgPthAlerts.c:126-137 | the reports for a handle are all those with its number, in order |
| AlertThread.Queue.Emit | lgpio/lgPthAlerts.c:232-247 | emits as many as lead the buffer and are due |
| AlertThread.Queue.ShuffleDown | lgpio/lgPthAlerts.c:596-601 | the memmove keeps exactly the rest |
| AlertThread.Queue.Flush | lgpio/lgPthAlerts.c:575-602 | sort, emit and shuffle are one round of the model, for whatever arrangement `qsort` leaves |
| AlertThread.Queue.EmptyOut | lgpio/lgPthAlerts.c:605-608 | with no active alerts everything leaves |
| ScriptModel.ParsedIsSafe | lgpio/lgCmd.c:832-917 | whatever is written, an accepted command indexes only 150 variables and 10 parameters |
| ScriptLaws.ParsedExactly | lgpio/lgCmd.c:832-917 | a script command is accepted exactly with the operands it takes, and they are in the instruction as they were written |
| ScriptLaws.OperandMeans | lgpio/lgScript.c:254-268 | a number stands for itself modulo 2^32, a variable or parameter for what it holds |
| ScriptLaws.Arithmetic | lgpio/lgScript.c:276-436 | ADD and SUB leave the sum and the difference in A and F, exactly where they fit and else modulo 2^32 |
| ScriptLaws.SubUndoesAdd | lgpio/lgScript.c:276-436 | SUB undoes ADD and ADD undoes SUB, overflow or not |
| ScriptLaws.Counting | lgpio/lgScript.c:292-306 | INRA and DCRA count A, round the ends of its range |
| ScriptLaws.Multiplication | lgpio/lgScript.c:330 | MLT leaves the product, exactly where it fits and else modulo 2^32 |
| ScriptLaws.Division | lgpio/lgScript.c:294-332 | DIV and MOD leave the truncated quotient and the remainder, A == p * q + r, and are undefined exactly for p == 0 and the one quotient that does not fit |
| ScriptLaws.Bitwise | lgpio/lgScript.c:278-463 | AND, OR and XOR act on each of the 32 bits |
| ScriptBits.RolBit | lgpio/lgScript.c:152-155 | rotating left carries bit k to bit k + n modulo 32 |
| ScriptBits.RorUndoesRol | lgpio/lgScript.c:152-160 | rotating right undoes rotating left and the other way about |
| ScriptBits.ShlValue | lgpio/lgScript.c:162-165 | shifting left by n multiplies by 2^n modulo 2^32 |
| ScriptBits.ShrValue | lgpio/lgScript.c:167-170 | shifting right by n divides the unsigned word by 2^n |
| ScriptLaws.ShiftsA | lgpio/lgScript.c:374-428 | so do the commands that shift A, exactly for 0 to 31 places |
| ScriptLaws.ShiftsRegister | lgpio/lgScript.c:358-426 | and those that shift a register, which change nothing else but F |
| ScriptLaws.RotateBack | lgpio/lgScript.c:358-392 | RR undoes RL of the same count, and RL undoes RR |
| ScriptLaws.LoadsAndCounts | lgpio/lgScript.c:284-434 | LD, STA, INR and DCR leave in the register what they say and change no other; only counting sets F |
| ScriptLaws.ReadBack | lgpio/lgScript.c:328-434 | what STA leaves in a register LDA brings back |
| ScriptLaws.ExchangeA | lgpio/lgScript.c:455-461 | XA swaps A with the register and, done again, swaps them back |
| ScriptLaws.Exchange | lgpio/lgScript.c:444-453 | X does so with two registers |
| ScriptLaws.Answered | lgpio/lgScript.c:217-249 | an ordinary command is sent once, with its operands as they are now, and its answer is in A and F |
| ScriptLaws.PushThenPop | lgpio/lgScript.c:336-354 | PUSH then POP copies, and leaves the stack as it was |
| ScriptLaws.CallThenReturn | lgpio/lgScript.c:280-356 | RET comes back behind the CALL, with the stack as it was |
| ScriptLaws.StopsExactly | lgpio/lgScript.c:85-115 | a script fails exactly on a full or an empty stack, ends exactly by HALT, and else goes on |
| ScriptLaws.JumpsArePaired | lgpio/lgScript.c:308-320 | for every F exactly one of JLT, JZ and JGT goes; JGE, JNZ and JLE are their opposites |
| ScriptLaws.CompareAndJump | lgpio/lgScript.c:282-320 | after CMP p, JZ goes to its target exactly if A == p, JNZ exactly if not, and the others by the order of A and p, or against it where they are too far apart |
| ScriptLaws.CompareAndJumpInScript | lgpio/lgCmd.c:1054-1078 | in a script the jump goes to its label |
| ScriptLoops.CountedLoop | lgpio/lgScript.c:284-314 | after each turn of a loop of ordinary commands, DCR and JNZ one less is left to count and its commands have been sent once more; it goes on behind the JNZ when nothing is left and not before |
| ScriptLoops.LoopTurns | lgpio/lgCmd.c:966-1085 | a script LD r n, TAG, commands, DCR r, JNZ sends the commands exactly n times and ends with nothing in r |
| ScriptProof.AssembledAt | lgpio/lgCmd.c:1026-1033 | a command's place in the program is the number of commands before it |
| ScriptProof.TagStep | lgpio/lgCmd.c:1026-1034 | a tag does nothing but pass |
| ScriptProof.CommandAct | lgpio/lgScript.c:219-466 | one instruction does to related states what the source command does |
| ScriptProof.CommandStep | lgpio/lgScript.c:212-469 | and the instruction can be fetched |
| ScriptProof.Simulates | lgpio/lgCmd.c:966-1085 | after any number of source steps the assembled program reaches the related state: same data, same commands sent, return addresses counted in commands |
| ScriptProof.Simulated | lgpio/lgScript.c:207-469 | every state the thread reaches is one of the source, unless the source mixes data and return addresses |
| ScriptSafety.NeverConfused | lgpio/lgScript.c:280-356 | a script that uses the stack only for calls never does |
| ScriptSafety.StepGoesOn | lgpio/lgScript.c:207-468 | of an assembled program, the instruction after this one can be fetched if and only if this one is not a RET to a negative address |
| ScriptSafety.StaysInsideExactly | lgpio/lgScript.c:207-468 | over whole runs, an accepted script with a command in it keeps every fetch inside the program, the stack within 256 cells and every register existing if and only if no RET of the run pops a negative address |
| ScriptSafety.UnmixedStaysInside | lgpio/lgScript.c:207-468 | for every accepted script whose source run does not mix data and return addresses, every fetch is inside the program, the stack within 256 cells and every register exists, over whole runs |
| ScriptSafety.AlwaysFetchable | lgpio/lgScript.c:207-468 | in particular for every script that uses the stack only for calls |
| ScriptSafety.ReturnToData | lgpio/lgScript.c:354-356 | an accepted script that sends the program counter to -1 |
| ScriptSafety.EmptyScriptFetchesAnyway | lgpio/lgScript.c:212-217 | a script cannot be fetched from exactly if it is nothing but tags |
| ScriptAsm.Search | lgpio/lgCmd.c:1065-1073 | the linear search finds the first entry of a tag |
| ScriptAsm.TableFinds | lgpio/lgCmd.c:997-1018 | looking a label up in the tag table is looking for it in the source |
| ScriptAsm.StoreOne | lgpio/lgCmd.c:977-1035 | one command is stored, noted as a tag, or counted as the first error |
| ScriptAsm.Collect | lgpio/lgCmd.c:966-1036 | the first loop stores the tag-free commands and the tag table, and keeps the first error |
| ScriptAsm.ResolveJumps | lgpio/lgCmd.c:1038-1084 | the second loop patches each stored jump in place and reports one without a label |
| ScriptAsm.NoErrorMeans | lgpio/lgCmd.c:966-1036 | the first loop finds no error exactly for good commands with at most 50 tags, all different |
| ScriptAsm.ProgramIsResolved | lgpio/lgCmd.c:1038-1073 | the program is the stored commands, each resolved in the source |
| ScriptAsm.NoneDangles | lgpio/lgCmd.c:1075-1083 | no stored jump dangles exactly when every jump of the source has its label |
| ScriptAsm.CmdParseScript | lgpio/lgCmd.c:960-1086 | status 0 exactly for orderly scripts whose jumps have labels, the first error otherwise, and then the stored program is the one the simulation theorem is about |
| ScriptVm.Interpreter.constructor | lgpio/lgScript.c:207-210 | a run starts with A, F, PC and SP zero and the script's own registers |
| ScriptVm.Interpreter.ScrPop | lgpio/lgScript.c:92-104 | pops the top, or fails with 0 |
| ScriptVm.Interpreter.ScrPush | lgpio/lgScript.c:108-119 | pushes, or fails at 256 cells |
| ScriptVm.Interpreter.Arithmetic | lgpio/lgScript.c:276-463 | the commands on A and F, with the divisions C leaves undefined |
| ScriptVm.Interpreter.Register | lgpio/lgScript.c:284-434 | the commands on a variable or parameter and the flag they set |
| ScriptVm.Interpreter.Exchange | lgpio/lgScript.c:444-461 | X and XA swap, also when both operands are one register |
| ScriptVm.Interpreter.ShiftRegister | lgpio/lgScript.c:358-426 | rotates and shifts of a register |
| ScriptVm.Interpreter.Execute | lgpio/lgScript.c:219-250 | an ordinary command is sent with every operand substituted, and its answer kept in A and F |
| ScriptVm.Interpreter.Branch | lgpio/lgScript.c:280-356 | jumps, calls, returns and HALT |
| ScriptVm.Interpreter.StackCommand | lgpio/lgScript.c:336-354 | pushes and pops of data |
| ScriptVm.Interpreter.StepOnce | lgpio/lgScript.c:212-469 | one turn of the loop is one step of the model, the end of the program included |
| ScriptVm.Interpreter.Run | lgpio/lgScript.c:212-469 | the loop, on a program that never leads outside itself, runs in bounds throughout and ends where the model's run does |
| HandleModel.ApplyConsistent | lgpio/lgHdl.c:126-440 | every operation keeps each type's chain a list of exactly the held slots of that type, each once |
| HandleModel.OldestFirst | lgpio/lgHdl.c:162-178 | in every reachable table each chain is in order of allocation |
| HandleModel.FreeUndoesAlloc | lgpio/lgHdl.c:126-418 | freeing undoes allocating; with memory an allocation fails exactly when all 1024 slots are held |
| HandleModel.RemovedTwice | lgpio/lgHdl.c:428-439 | freeing some and then others is freeing them all at once |
| HandleModel.WhoMayUse | lgpio/lgHdl.c:181-186 | a new object may be used by its owner and else exactly by threads of the same user that use the share it was given |
| HandleModel.WhoMayShare | lgpio/lgHdl.c:310-343 | the owner alone changes that, with the answer of each case |
| HandleModel.WhatIsPurged | lgpio/lgHdl.c:421-440 | a thread that ends takes exactly its unshared objects with it |
| HandleModel.WhatIsFreed | lgpio/lgHdl.c:368-418 | freeing answers for exactly the handles in the chain of the type and touches no other |
| Handles.LinkedLast | lgpio/lgHdl.c:162-178 | the link writes put a slot at the end of its chain, `previous` staying the inverse of `next` |
| Handles.LinkedWithout | lgpio/lgHdl.c:386-407 | the link writes take a slot out of its chain |
| Handles.HandleTable.HdlGet | lgpio/lgHdl.c:100-124 | reserves the first free slot, or says there is none |
| Handles.HandleTable.Alloc | lgpio/lgHdl.c:126-192 | the linked slots represent the table with the new handle last of its type; a failed allocation changes nothing |
| Handles.HandleTable.GetObj | lgpio/lgHdl.c:218-238 | accepts exactly a live handle of the type |
| Handles.HandleTable.GetLockedObj | lgpio/lgHdl.c:240-281 | and only for the owner or a user it is shared with |
| Handles.HandleTable.SetShare | lgpio/lgHdl.c:310-343 | only the owner changes the share of a handle |
| Handles.HandleTable.Free | lgpio/lgHdl.c:368-418 | frees exactly the handle, if it is of the type |
| Handles.HandleTable.GetHandlesForType | lgpio/lgHdl.c:345-366 | terminates with the chain of the type, of which as many as fit are stored, and its whole length |
| Handles.HandleTable.PurgeByOwner | lgpio/lgHdl.c:421-440 | frees exactly the owner's unshared handles and keeps the order of the rest |
| ClaimModel.Partition | lgpio/lgGpio.c:200-214 | no line is in two groups or twice in one, and a line is in a group exactly when its record says so |
| ClaimModel.GroupAgrees | lgpio/lgGpio.c:200-214 | a group's lines agree on mode, size and descriptor and share one array, in which each is where its own record says |
| ClaimModel.ClaimKeeps | lgpio/lgGpio.c:200-214 | writing the lines of a granted request keeps all that |
| ClaimModel.FreeKeeps | lgpio/lgGpio.c:385-418 | erasing a group keeps it for the others, whose arrays are not the one freed |
| Claims.LeaderFirst | lgpio/lgGpio.c:380 | the array's first entry is the line exactly when the line's offset is 0 |
| Claims.Chip.WriteLines | lgpio/lgGpio.c:200-214 | the loop writes every line of the request and the shared array |
| Claims.Chip.HandleRequest | lgpio/lgGpio.c:156-226 | a grant opens exactly one group, anything else changes nothing |
| Claims.Chip.Claim | lgpio/lgGpio.c:277-329 | the conditions of success and of each refusal, and no change without success |
| Claims.Chip.SetAsFree | lgpio/lgGpio.c:333-424 | freeing a leader releases exactly its group |
| Claims.Chip.Free | lgpio/lgGpio.c:929-989 | the group is released exactly through its leader; the inner leader check never fails |
| Claims.Chip.SetAs | lgpio/lgGpio.c:426-503 | a line that has the direction already is left; otherwise one claimed alone is freed first, and the claim succeeds or is refused with its code, the lines then changed by nothing else |
| Claims.Chip.ClaimAlert | lgpio/lgGpio.c:1098-1160 | alert claims, with every error and what remains open after it |
| Claims.Chip.Close | lgpio/lgGpio.c:105-145 | closing the chip closes every open request, each once |
| Claims.WhatIsReleased | lgpio/lgGpio.c:333-424 | freeing a line releases exactly the request of which it is the first line, if there is one |
| Claims.WhoAreFreed | lgpio/lgGpio.c:333-424 | and frees exactly that request's lines |
| Claims.WhatIsLeft | lgpio/lgGpio.c:426-503 | a single line is left alone exactly if an open request has it in that direction, and released first exactly if its request has no other line |
| I2cZip.ParIsRead | lgpio/lgI2C.c:105-126 | a parameter is read back exactly if chars are unsigned or none of its bytes has the top bit |
| I2cZip.OpDoes | lgpio/lgI2C.c:999-1078 | an encoded operation, escape included, does what it means, or stops on too long a read |
| I2cZip.RoundTrip | lgpio/lgI2C.c:982-1086 | decoding an encoded list with END sends exactly its segments in batches and answers the bytes read, exactly when the reads leave a byte over |
| I2cZip.WithoutEnd | lgpio/lgI2C.c:993-1068 | without END the same, but a final write is refused |
| I2cZip.ReadsTile | lgpio/lgI2C.c:1028-1032 | the reads of a list fill the output buffer consecutively |
| I2cZip.AnyInputIsSound | lgpio/lgI2C.c:982-1086 | for any bytes and any bus, batches of 1 to 42, reads that tile the buffer inside its bounds, and an answer that is their sum |
| I2cMeaning.AnyInputMeans | lgpio/lgI2C.c:988-1090 | for any bytes and bus the segments sent are those of the first reads and writes the bytes spell, in order, with the address and flags last set, the direction flag set for a read and clear for a write; all of them if the answer is no error, which it is exactly for a malformed command, a read without a byte to spare or a bus that refuses |
| I2cLoop.NextPar | lgpio/lgI2C.c:105-126 | the parameter, the new position, and the escape used up |
| I2cLoop.Store | lgpio/lgI2C.c:1028-1039 | a segment joins the array, and the forty-second sends them all |
| I2cLoop.Turn | lgpio/lgI2C.c:999-1078 | one turn of the loop is one step of the automaton |
| I2cLoop.Zip | lgpio/lgI2C.c:960-1092 | the whole call sends and answers what the automaton does, in bounds |
| Matcher.Digits | lgpio/lgExec.c:113-117 | a run of digits is read to its end and to its value |
| Matcher.CheckDevSubdev | lgpio/lgExec.c:89-216 | on every string the pass ends with the verdict of the automaton on its tokens |
| Matcher.PassIsAnswer | lgpio/lgExec.c:95-213 | the automaton's verdict on every well-formed pattern |
| Matcher.AnswerIsMeaning | lgpio/lgExec.c:119-149 | the verdict is the pattern's meaning for all devices exactly if no descending range is met at its first number |
| Matcher.LexWrite | lgpio/lgExec.c:98-162 | tokens are read back whatever blanks stand between them |
| Matcher.PassIsMeaning | lgpio/lgExec.c:89-216 | yes exactly for the devices and sub-devices a pattern matches, however long and however spaced |
| Encoder.Decoder.Handle1To0 | hal/src/rotary_encoder.c:97-103 | a step down, clamped below, if the turn began leftwards |
| Encoder.Decoder.Handle3To0 | hal/src/rotary_encoder.c:104-110 | a step up, clamped above, if it began rightwards |
| Encoder.Decoder.Handle | hal/src/rotary_encoder.c:119-150 | a batch of edges drives the table, and other lines are skipped |
| Encoder.StepKnows | hal/src/rotary_encoder.c:56-91 | the four states and the direction determine where the shaft is between rests |
| Encoder.CountsTurns | hal/src/rotary_encoder.c:56-150 | after any edges the state is the unwrapped position modulo 4 and the counter has moved one clamped step per completed turn and for nothing else |
| Encoder.EveryTurnStops | hal/src/rotary_encoder.c:97-110 | in every run a turn takes the counter as far as both the step and the limit on that side allow, and nothing else moves it |
| Encoder.CounterIsWinding | hal/src/rotary_encoder.c:97-110 | within the limits the counter is the start plus step times the turns made |
| Encoder.WithinExactly | hal/src/rotary_encoder.c:97-110 | the counter stays within its limits on every run exactly if the step is not negative |

## Left out

- Integers are unbounded: 32-bit overflow of microseconds, cycle counts, the rotary counter and pattern
  numbers, and 64-bit wrap-around of alert times are not modelled, except in MD5, in `tscomp`, in the
  emission limit and in script arithmetic, where the width matters and is modelled; there signed overflow,
  undefined in C, is taken to wrap around.
- Operations are atomic. Mutexes, condition variables, signals and real preemption are left out, in
  particular the chain update of `lgHdlAlloc` outside its mutex.
- Time and devices: clocks, sleeping, `ioctl`, `poll`, pipes and sockets. The kernel's grants, the bus's
  answers, the outcome of writes, the order `qsort` makes and what `calloc` returns are parameters.
- The kernel is taken to grant a line request only for existing, distinct, unheld lines.
- Transmit records keep their queue as one array of entries instead of three parallel arrays; freeing
  pulse memory and a failing `malloc` in the transmitter are left out, and so are the switch of a line
  to output before PWM and the choice of group bits in `xGroupWrite`.
- Handle headers are values in the slot array; the type's magic number, the object and its destructor are
  left out. A missing thread context is left out.
- Line records leave out the stored values and flags, debounce and watchdog settings.
- Claims.Chip.SetAs: takes a single line's number up to the line count, since the source reads the record of
  a single line before any check.
- Command texts: `sscanf` lexing and the operand formats of ordinary commands. Scripts start from parsed
  commands, and operands a command does not have are zero. Ordinary commands answer through an arbitrary
  function of all commands sent.
- Commands accepted for scripts but not interpreted (NOP, CMDR, CMDW, LDAB, STAB) do nothing, as in the
  source, not even advance. Division by zero and shifts by 32 or more end a run as undefined.
- ScriptVm.Interpreter.Run: stops after a given number of instructions where the source looks at a request
  flag, and parameters are not changed from outside while it runs. Programs that lead outside
  themselves are excluded, since C leaves what they fetch undefined.
- Alerts.DebounceRules: is stated with the watchdog off and room in the buffer, because the thread resets
  the time of the last report on unreported edges; and with the edges of a line in time order, as the
  kernel delivers them.
- The alert thread's polling, its list of records and the translation between kernel and local time
  (`lgpio/lgPthAlerts.c:440-573`) are left out. For the buffer count and for `NoRepeatedLevel` what they
  feed to the debouncer is arbitrary; for the debounce rules its polls are.
- AlertQueue.NotifyOne: is for one running handle; the loop over handles and their other states is left out,
  and so are the callbacks for samples and alerts.
- The mutual exclusion and bookkeeping of lgNotify.c, configuration files, `fnmatch` permissions, sockets,
  SPI, serial and file access, motor, servo, joystick, display and webcam code are not part of this model.

# VM32: a verified model of a PLC virtual machine

This project models the VM32 prototype (`prototype-integrator`): a virtual machine with 32-bit words, 256
registers, byte memory and a scan cycle, together with its assembler, disassembler and loader. It proves
what these parts promise, over all inputs, all histories and all runs. `dafny verify dfyconfig.toml`
checks everything.

## Modules

- `Words`: 32-bit words as numbers, and the optional value.
- `Crc32`, `Crc32Laws`, `Crc32Table`: CRC-32 of IEEE 802.3 section 3.2.9. The reference is a bit-serial
  shift register; the table-driven class is proved equal to it. The error-detection laws follow from
  linearity over GF(2) and from running the register backwards.
- `HashBins`, `HashInvariant`, `HashTable`, `HashHistory`, `HashSpace`: the open-addressing table. The
  class keeps the source's fields; its abstraction is a finite map. Copies made by the table are modelled
  by allocation numbers, so that "owned by one bin or freed once" can be said. `HashHistory` speaks of
  whole histories, `HashSpace` of what overwrites do to the size.
- `Timers`, `TimerTraces`, `TimerPresets`, `TimerIdeal`, `TimerRetentive`: the timer struct and its five
  updaters, what they do over whole input traces, and how that compares with IEC 61131-3 (section 2.5.2.3.4
  of the second edition) and, for the retentive on-delay, with real time.
- `VmStrings`, `StringEdges`, `StringEdits`: the string handlers as functions on memory with their laws, also
  on strings that no NUL ends, and the in-place methods proved to compute them.
- `Encoding`, `OpTable`, `Assembler`, `AssemblerLaws`, `AssembleFile`: the instruction word, the
  mnemonics, the printed line, the line assembler, and the loop over a source text.
- `Loader`, `Pipeline`: placement of program files and the program hash; from a listing to fetched words.
- `WrittenLines`, `SourceLines`, `ImmediatePolicy`: what the assembler makes of any written line and of a
  text of lines, and its operand policy against the handlers.
- `Machine`, `MachineLaws`, `Runtime`, `RuntimeLaws`, `Cycles`, `StaleCache`: the VM as a value, all 68
  handlers, the cached loop beside one that decodes every word, the scan cycle and the virtual clock.
- `WordNumbers`, `Instructions`, `Effects`, `Blocks`, `StorePolicy`: what each mnemonic does, said on
  numbers, bits and texts and not in terms of the handlers.
- `ModuleRuns`, `Programs`, `TimerRuns`: how runs are made of instructions, modules and cycles; one program
  from its text to the register it leaves; and what the timers of any running program go through.
- `Handlers`, `VmRuntime`, `Startup`: the VM struct with arrays, timer objects and the hash table as
  instruction cache, updated in place, and proved to reach what the value-level specifications say.

Read `HashHistory.Lifetime`, `Crc32Laws.BurstDetected`, `TimerIdeal.MeetsStandardIff`,
`TimerRetentive.TrueTimeIff`, `RuntimeLaws.SameWordsIff`, `AssembleFile.ProgramRoundTrip`,
`Cycles.CyclesInvisible`, `TimerRuns.CyclesTraced`, `ImmediatePolicy.AcceptedIff` and `Programs.Count` first.

## Where the code differs from its intent

The model follows the code. The differences are theorems here:

- `hash_table_size` falls one short for every overwrite since the last rebuild (`HashTable.Table.Size`,
  `HashHistory.OverwriteMiscounts`). Lookups are not affected, and the cost bound holds with overwrites.
  The shrink test uses that count, so with overwrites an empty table can be of any size
  (`HashSpace.EmptyButLarge`); without them the size stays linear in the entries (`HashHistory.Replay`,
  `HashHistory.SnugBound`).
- `ms_diff` is wrong exactly when the sub-second part borrows (`Timers.DiffRightIff`), so timers can fire
  early across a second boundary (`TimerIdeal.TonFiresEarly`) and late after 39 hours
  (`TimerIdeal.TonFiresLate`). `TimerIdeal.MeetsStandardIff` says exactly when the outputs are nevertheless
  right.
- TONR adds the wrong differences up (`TimerRetentive.TonrMiscounts`); `TimerRetentive.TrueTimeIff` says
  exactly when it shows real time.
- A rising edge during a pulse restarts TP (`TimerIdeal.TpRetriggers`, `TimerIdeal.StrictIffNoRetrigger`).
- TOFR equals TOF exactly while the borrows add up (`TimerIdeal.TofrIsTof`, `TimerIdeal.TofrDiffers`).
- With preset 0 TON and TOF never come on (`TimerPresets.ZeroPresetIff`), and such a call is not remembered
  (`TimerPresets.ZeroForgotten`).
- No instruction drives TONR or TOFR (`TimerRuns.RetentiveIdle`).
- A jump to its own address is taken for no jump (`MachineLaws.JumpToItself`).
- Register numbers count modulo 2^32 (`WrittenLines.WrittenLine`), and a comment longer than 511 characters
  spills into a line of its own (`AssembleFile.LongCommentSpills`).
- On a text that runs to the end of memory REPLACE only deletes (`StringEdges.ReplaceOnlyCuts`), and DELETE
  shows the last bytes twice (`StringEdges.DeleteRepeats`).
- Nothing invalidates the instruction cache (`StaleCache.StaleAddition`, `RuntimeLaws.SameWordsIff`).
- The comment in `funcs.c` says latches take their id from the value of register A; the code takes the
  register number. `op_ton`, `op_tof` and `op_tp` take the preset from the register whose number is the
  timer id. The model does the same.
- Without raw mode the assembler turns HALT into EXIT (`AssemblerLaws.RoundTripIff`).

## Choices

- 32-bit counters wrap explicitly; `uint64_t` time and counts are unbounded.
- The floating-point load tests compare a count with a power-of-two size; such quotients are exact, so they
  are modelled as integer comparisons.
- `ms_diff` converts both differences to 64-bit unsigned numbers, as C does for the mixed expression.
- Handlers that call libm or read the wall clock get their value from a parameter (`Machine.Env`) that may
  depend on opcode, operands and time of call.
- The memory size is a parameter of at most 64 MiB. A fetch that straddles the end of memory reads past the
  array in C (`main.h`, lines 198 to 203); `Runtime.Fits` excludes programs in the last three bytes.
- Division and remainder are modelled on the numbers the words stand for; all other arithmetic is that of
  32-bit words.
- The magnitude of the least 32-bit integer is that integer, as two's complement hardware has it; C leaves
  it undefined.
- Text is modelled as characters of the C locale.
- The number of cycles of a run is a parameter; the source's loop ends only by a stop request.

## Model

| member | source | states |
|---|---|---|
| `Crc32.BitStepLinear` | prototype-integrator/src/hashing.c:140-147 | the bit step is linear over exclusive or |
| `Crc32.StepsLinear` | prototype-integrator/src/hashing.c:140-147 | so are any number of bit steps |
| `Crc32.UnstepsSteps` | prototype-integrator/src/hashing.c:140-147 | running the register backwards undoes any number of steps |
| `Crc32.StepsUnsteps` | prototype-integrator/src/hashing.c:140-147 | and forwards undoes backwards: the steps are a bijection on register states |
| `Crc32.FeedIsSteps` | prototype-integrator/src/hashing.c:161-164 | feeding up to 32 bits serially is one exclusive or and that many steps |
| `Crc32Laws.TableRound` | prototype-integrator/src/hashing.c:161-164 | one round through the table is eight bit-serial clocks with the bits of the byte |
| `Crc32Laws.UpdateRound` | prototype-integrator/src/hashing.c:177-182 | the loop invariant of the table-driven update, one byte further |
| `Crc32Laws.RegisterAppend` | prototype-integrator/src/hashing.c:174-183 | updating with two buffers in turn is updating with their concatenation |
| `Crc32Laws.FeedLinear` | prototype-integrator/src/hashing.c:153-167 | the register is linear in state and message together |
| `Crc32Laws.FeedInjective` | prototype-integrator/src/hashing.c:174-183 | different start states never meet on the same message |
| `Crc32Laws.BurstDetected` | prototype-integrator/src/hashing.c:153-167 | two messages that differ only inside a window of at most 32 bits, at any bit offset, end in different registers |
| `Crc32Laws.FourByteChangeDetected` | prototype-integrator/src/hashing.c:614-620 | two equally long buffers that differ only within four consecutive bytes have different checksums, so the integrity check sees the change |
| `Crc32Laws.Residue` | prototype-integrator/src/hashing.c:153-187 | appending its own checksum to any message leaves the register at 0xDEBB20E3 |
| `Crc32Laws.CheckValue` | prototype-integrator/tests/unit/hashing_test.c:4-7 | the checksum of the digits 1 to 9 is 0xCBF43926 |
| `Crc32Laws.KeyHashBijective` | prototype-integrator/src/hashing.c:480-483 | every 32-bit hash value comes from exactly one key: the key hash never collides |
| `Crc32Table.Crc32Engine.EightClocks` | prototype-integrator/src/hashing.c:140-147 | the inner loop computes one table entry: eight steps from the index |
| `Crc32Table.Crc32Engine.InitTable` | prototype-integrator/src/hashing.c:136-151 | afterwards every entry is the register after eight steps from its index |
| `Crc32Table.Crc32Engine.Begin` | prototype-integrator/src/hashing.c:169-172 | the table is ready and the start value is all ones |
| `Crc32Table.Crc32Engine.Update` | prototype-integrator/src/hashing.c:174-183 | for every byte string and start state the table loop equals the bit-serial register |
| `Crc32Table.Crc32Engine.Compute` | prototype-integrator/src/hashing.c:153-167 | the checksum equals the bit-serial definition |
| `Crc32Table.ComputeInPieces` | prototype-integrator/src/hashing.c:169-187 | begin, any number of updates and finalize give the checksum of the concatenation |
| `HashBins.WrapIsMod` | prototype-integrator/src/hashing.c:285 | the wrap of a 32-bit counter is reduction modulo 2^32 |
| `HashBins.MaskIsMod` | prototype-integrator/src/hashing.c:194-196 | masking with a power of two less one is the remainder |
| `HashBins.ProbeIsAt` | prototype-integrator/src/hashing.c:194-196 | the i-th probe is the i-th slot after the home slot, cyclically, also when the hash plus i wraps around 2^32 |
| `HashBins.StorePays` | prototype-integrator/src/hashing.c:409-431 | an insertion that moves nothing raises the potential by at most 24 |
| `HashBins.GrowthPays` | prototype-integrator/src/hashing.c:427-430 | a doubling is paid by the fall of the potential |
| `HashBins.ShrinkPays` | prototype-integrator/src/hashing.c:464-468 | a shrink is paid as well, also when the drifting counter makes the table double straight back |
| `HashInvariant.UnusedOnPath` | prototype-integrator/src/hashing.c:248-256 | with an unused bin anywhere every probe path meets one before the loop ends |
| `HashInvariant.Absent` | prototype-integrator/src/hashing.c:248-254 | a path that meets an unused bin before the key proves the key absent |
| `HashInvariant.EmptyFits` | prototype-integrator/src/hashing.c:261-268 | the first empty bin of the path, tombstone or not, is a place where an absent key may be stored |
| `HashInvariant.StoreNew` | prototype-integrator/src/hashing.c:290-310 | storing there keeps the probe-chain invariant, adds exactly one entry and counts it |
| `HashInvariant.Overwrite` | prototype-integrator/src/hashing.c:290-310 | storing over the same key changes one value and no count of bins |
| `HashInvariant.Free` | prototype-integrator/src/hashing.c:279-287 | freeing leaves a tombstone: all other probe chains survive and exactly one key is gone |
| `HashInvariant.OwnedUpdate` | prototype-integrator/src/hashing.c:279-310 | changing one bin changes the owned copies by exactly that bin's copies |
| `HashTable.Table.FindKey` | prototype-integrator/src/hashing.c:243-258 | returns the bin of the key if it is in the map and an unused bin otherwise; the assertion is not reached |
| `HashTable.Table.FindEmpty` | prototype-integrator/src/hashing.c:261-272 | returns the first empty bin of the probe path; the assertion is not reached |
| `HashTable.Table.FreeBin` | prototype-integrator/src/hashing.c:279-287 | a live bin gives back its two copies, becomes a tombstone and lowers the wrapped counter |
| `HashTable.Table.StoreInBin` | prototype-integrator/src/hashing.c:290-310 | counters, freed copies and the written bin, in the source's order |
| `HashTable.Table.Place` | prototype-integrator/src/hashing.c:416-425 | find and store: the map gains the entry, copies balance, an overwrite lowers the counter by one |
| `HashTable.Table.InsertInternal` | prototype-integrator/src/hashing.c:410-431 | map update; either nothing moves or the table doubles exactly once and holds no tombstone |
| `HashTable.Table.Reinsert` | prototype-integrator/src/hashing.c:353-357 | a transferred bin keeps its copies and its cached hash; the table doubles only past half |
| `HashTable.Table.Transfer` | prototype-integrator/src/hashing.c:353-358 | one round of the transfer loop, one bin touched: an unused bin or tombstone changes nothing, any other enters the new table |
| `HashTable.Table.Rehash` | prototype-integrator/src/hashing.c:350-359 | all live bins move with their copies; the exact bins touched and the at most one nested doubling |
| `HashTable.Table.NewBins` | prototype-integrator/src/hashing.c:333-348 | an empty table of the given size |
| `HashTable.Table.InitTable` | prototype-integrator/src/hashing.c:327-360 | contents and copies of the old bins, counters exact, tombstones gone |
| `HashTable.Table.Resize` | prototype-integrator/src/hashing.c:363-373 | map and copies unchanged, used = active = number of entries, and the exact size and work; it re-enters at most once and only when the new size is too small |
| `HashTable.Table.constructor` | prototype-integrator/src/hashing.c:379-394 | an empty map in eight bins |
| `HashTable.Table.Insert` | prototype-integrator/src/hashing.c:433-447 | map update with fresh copies; drift grows by one exactly on overwrites; amortised cost at most 24 bins |
| `HashTable.Table.Lookup` | prototype-integrator/src/hashing.c:449-455 | the value in the map or null; the copy returned belongs to the table |
| `HashTable.Table.Contains` | prototype-integrator/src/hashing.c:471-473 | true exactly for keys in the map |
| `HashTable.Table.Size` | prototype-integrator/include/hashing.h:174-176 | the counter is the number of entries if and only if the drift is a multiple of 2^32 |
| `HashTable.Table.Remove` | prototype-integrator/src/hashing.c:457-462 | the key leaves the map, its copies are freed, nothing else changes |
| `HashTable.Table.ShrinkIfSparse` | prototype-integrator/src/hashing.c:464-468 | when it halves, when it doubles straight back, and that both are paid for |
| `HashTable.Table.Delete` | prototype-integrator/src/hashing.c:457-469 | map without the key; the exact load test on the drifting counter; no net cost |
| `HashTable.Table.Destroy` | prototype-integrator/src/hashing.c:396-407 | every copy ever made has been freed exactly once |
| `HashHistory.EachCopyOnce` | prototype-integrator/src/hashing.c:279-310 | at any time a copy is owned by one live bin or has been freed, never both, never twice |
| `HashHistory.NoLeak` | prototype-integrator/src/hashing.c:433-447 | allocations are two per entry plus those freed |
| `HashHistory.OverwriteMiscounts` | prototype-integrator/src/hashing.c:298-302 | the smallest history the count gets wrong: one entry, size zero |
| `HashHistory.Call` | prototype-integrator/src/hashing.c:433-473 | one public call: new map, answer, copies and amortised cost; an insertion needs fewer than 2^29 used bins |
| `HashHistory.InsertCall` | prototype-integrator/src/hashing.c:433-447 | an insertion of a new key keeps the table snug: no drift, and an eighth of the bins live or a sixteenth without tombstones |
| `HashHistory.DeleteCall` | prototype-integrator/src/hashing.c:457-469 | so does any deletion |
| `HashHistory.SnugBound` | prototype-integrator/src/hashing.c:363-373 | a snug table has eight bins or at most sixteen per entry |
| `HashHistory.Replay` | prototype-integrator/src/hashing.c:433-473 | any history on any valid table, with at most 2^29 used bins and insertions together and any number of other calls: every lookup answers the last write, rebuilds cost at most 24 bins per insertion, and without overwrites a snug table stays snug |
| `HashSpace.Round` | prototype-integrator/src/hashing.c:279-302 | insert a new key, overwrite it and delete it: the table is empty again and has one more used bin or twice the size |
| `HashSpace.EmptyButLarge` | prototype-integrator/src/hashing.c:457-469 | so with overwrites there is no space bound: an empty table reaches any size up to 2^27 bins |
| `HashHistory.Lifetime` | prototype-integrator/src/hashing.c:379-473 | from create to destroy, with at most 2^29 insertions: answers, at most 8 + 24 bins per insertion of rebuild work in total, and every copy freed once |
| `Timers.DiffExactly` | prototype-integrator/src/timers.c:5-8 | the clock difference is the elapsed time modulo 2^32, plus 4154504685 when the sub-second part borrows |
| `Timers.DiffRightIff` | prototype-integrator/src/timers.c:5-8 | it is the elapsed time if and only if nothing borrows |
| `Timers.UpdateIdempotent` | prototype-integrator/src/timers.c:20-186 | running any of the five updaters again at the same instant changes nothing, from any state |
| `Timers.UpdateInRange` | prototype-integrator/src/timers.c:20-186 | the elapsed time stays a 32-bit value |
| `Timers.IecTimer.UpdateTon` | prototype-integrator/src/timers.c:20-52 | the struct goes through exactly the on-delay step |
| `Timers.IecTimer.UpdateTof` | prototype-integrator/src/timers.c:54-89 | the off-delay step |
| `Timers.IecTimer.UpdateTp` | prototype-integrator/src/timers.c:91-119 | the pulse step |
| `Timers.IecTimer.UpdateTonr` | prototype-integrator/src/timers.c:121-149 | the retentive on-delay step |
| `Timers.IecTimer.UpdateTofr` | prototype-integrator/src/timers.c:151-186 | the retentive off-delay step |
| `Timers.TimerBank.constructor` | prototype-integrator/src/timers.c:10-16 | eighty distinct idle timers |
| `Timers.TimerBank.SetTimer` | prototype-integrator/src/timers.c:206-269 | one timer gets input and preset and is updated, all others keep their state, a bad id changes nothing |
| `Timers.TimerBank.Q` | prototype-integrator/src/timers.c:215-274 | the output, or false for a bad id |
| `Timers.TimerBank.UpdateAll` | prototype-integrator/src/timers.c:190-198 | every timer of every kind is updated exactly once at the same instant |
| `TimerTraces.PassIsSample` | prototype-integrator/src/timers.c:190-198 | a pass over all timers counts for an enabled timer as one more sample of its input |
| `TimerTraces.TonTrace` | prototype-integrator/src/timers.c:20-52 | over every trace with positive presets: on exactly when the input is true and some sample since its rise was due; what ET shows |
| `TimerTraces.TofTrace` | prototype-integrator/src/timers.c:54-89 | with the input false: on exactly when no sample since the fall was due |
| `TimerTraces.TpTrace` | prototype-integrator/src/timers.c:91-119 | on exactly when no sample since the last rising edge was due; every rising edge starts afresh |
| `TimerTraces.TonrTrace` | prototype-integrator/src/timers.c:121-149 | on every trace with one preset, zero included: ET is the 32-bit sum of the clock readings between consecutive true samples up to the first that reaches the preset, and the output follows it |
| `TimerPresets.ZeroForgotten` | prototype-integrator/src/timers.c:20-119 | on any trace with any presets TON, TOF and TP remember what they would remember without the samples of preset 0, so the next positive sample sees the edge against the last positive one |
| `TimerPresets.ZeroPresetOff` | prototype-integrator/src/timers.c:20-96 | right after a sample with preset 0 the output is off and ET is 0 |
| `TimerPresets.AnyPresets` | prototype-integrator/src/timers.c:20-119 | on any trace with any presets, changing and zero ones included: output and ET of TON, TOF and TP in terms of the positive samples and where the last preset 0 falls among them |
| `TimerPresets.ZeroPresetIff` | prototype-integrator/src/timers.c:20-119 | with preset 0 throughout they follow the timing diagrams if and only if the timer is a TP or the input is off |
| `TimerPresets.TofrTrace` | prototype-integrator/src/timers.c:151-186 | on any trace with any presets: the output and ET of TOFR in terms of the samples since the fall |
| `TimerPresets.TonrAnyPresets` | prototype-integrator/src/timers.c:121-149 | on any trace with any presets, at every sample: the output and ET of TONR; after a stop the time stands still until the next rising edge, whatever becomes of the preset |
| `TimerRetentive.OnReadingIs` | prototype-integrator/src/timers.c:5-149 | that sum is the real on-time plus 4154504685 for every pair of true samples that borrows, modulo 2^32: on any trace |
| `TimerRetentive.OutputExactly` | prototype-integrator/src/timers.c:121-149 | the output is on exactly when the input has been on and at some sample that number has reached the preset |
| `TimerRetentive.TrueTimeIff` | prototype-integrator/src/timers.c:121-149 | monotone trace, on-time up to the preset below 2^32: at every sample ET is the real on-time up to the preset and the output follows it, if and only if no pair of true samples borrows before the preset is reached |
| `TimerRetentive.OutputSoon` | prototype-integrator/src/timers.c:121-149 | presets to 48 days, less than 39 hours of on-time before the preset: on if and only if the input has been on and the preset has passed or some pair has borrowed |
| `TimerRetentive.TonrMiscounts` | prototype-integrator/src/timers.c:121-149 | two true samples 100 ms apart: the timer shows 48 days and is on |
| `TimerIdeal.FiredExactly` | prototype-integrator/src/timers.c:5-8 | every preset, elapsed time below 2^32: some sample was due exactly when the preset has passed, if and only if the timer fires neither early (a borrowed sample below 39 hours reads 48 days too much) nor late (every sample past the preset is borrowed and reads 39 hours too little) |
| `TimerIdeal.FiredSoon` | prototype-integrator/src/timers.c:5-8 | presets to 48 days, less than 39 hours: some sample was due if and only if the preset has passed or a borrow has happened |
| `TimerIdeal.FiredForGood` | prototype-integrator/src/timers.c:5-8 | a sample between the preset and 39 hours settles it for the rest of the run, however long |
| `TimerIdeal.MeetsStandard` | prototype-integrator/src/timers.c:20-119 | TON, TOF and TP follow the timing diagrams of IEC 61131-3 on every trace without a borrow, elapsed time below 2^32 |
| `TimerIdeal.MeetsStandardIff` | prototype-integrator/src/timers.c:5-119 | every positive preset, elapsed time since the origin below 2^32: TON, TOF and TP follow the diagrams if and only if timing does not matter, or the timer fires neither early nor late |
| `TimerIdeal.MeetsStandardForGood` | prototype-integrator/src/timers.c:5-119 | the practical case: after one sample between the preset and 39 hours they follow them for as long as the run goes on |
| `TimerIdeal.MeetsStandardSoon` | prototype-integrator/src/timers.c:5-119 | presets to 48 days, less than 39 hours since the origin: if and only if no borrow happened, or the preset has passed anyway, or timing does not matter |
| `TimerIdeal.TonFiresEarly` | prototype-integrator/src/timers.c:5-52 | a 500 ms on-delay is on after 100 ms across a second boundary |
| `TimerIdeal.TonFiresLate` | prototype-integrator/src/timers.c:5-52 | a 1000 ms on-delay is still off after 39 hours when the only sample since the rise borrows |
| `TimerIdeal.TofrFollows` | prototype-integrator/src/timers.c:151-186 | while the differences telescope TOFR looks like TOF |
| `TimerIdeal.DifferencesAddIff` | prototype-integrator/src/timers.c:5-8 | two clock differences add up to the third if and only if their sub-second borrows add up |
| `TimerIdeal.TofrIsTof` | prototype-integrator/src/timers.c:151-186 | TOFR shows the same outputs and times as TOF throughout a trace if and only if at every sample of a running off-delay the borrows since the fall add up: a condition on the sub-second parts of the sample times |
| `TimerIdeal.TofrDiffers` | prototype-integrator/src/timers.c:151-186 | a trace of four samples on which TOF stays on and TOFR shows something else |
| `TimerIdeal.NoBorrowTelescopes` | prototype-integrator/src/timers.c:5-8 | they telescope whenever no run of equal inputs borrows |
| `TimerIdeal.StrictIffNoRetrigger` | prototype-integrator/src/timers.c:98-105 | wherever a retriggering edge and the edge before it read apart: TP shows what a pulse timer that ignores edges during a pulse shows if and only if no later edge falls into a running pulse |
| `TimerIdeal.ShortPulsesApart` | prototype-integrator/src/timers.c:5-8 | they read apart whenever no retriggered pulse has run for 39 hours, however long the trace |
| `TimerIdeal.TpRetriggers` | prototype-integrator/src/timers.c:98-105 | an edge 200 ms into a pulse of 500 ms: after 600 ms TP is on and the other timer is off |
| `VmStrings.ConcatAppends` | prototype-integrator/src/funcs.c:191-211 | append, clipped to memory, terminated, nothing else touched; also with source and destination equal |
| `VmStrings.FittingAll` | prototype-integrator/src/funcs.c:201-202 | a source that fits is taken whole |
| `VmStrings.LeftIsPrefix` | prototype-integrator/src/funcs.c:213-221 | the prefix, one byte touched |
| `VmStrings.RightIsSuffix` | prototype-integrator/src/funcs.c:223-235 | the suffix |
| `VmStrings.RightIsMid` | prototype-integrator/src/funcs.c:223-252 | RIGHT of fewer characters than there are is MID from where they start, byte for byte |
| `VmStrings.MidIsDrop` | prototype-integrator/src/funcs.c:237-252 | the text without its first characters |
| `VmStrings.InsertSplices` | prototype-integrator/src/funcs.c:254-278 | s[..pos] + t + s[pos..] for as much of t as fits, with the exact range touched |
| `VmStrings.DeleteCuts` | prototype-integrator/src/funcs.c:280-291 | s[..pos] + s[pos+n..], with the exact range touched |
| `VmStrings.DeleteUndoesInsert` | prototype-integrator/src/funcs.c:254-291 | deleting what was just inserted restores the string |
| `VmStrings.ReplaceOverwrites` | prototype-integrator/src/funcs.c:293-316 | a deletion and an insertion that overwrite in place and keep the length |
| `StringEdges.OutsideMemory` | prototype-integrator/src/funcs.c:191-316 | no edit does anything to a string outside memory or with an argument string outside memory; nor DELETE and REPLACE past the end of the text |
| `StringEdges.NothingFits` | prototype-integrator/src/funcs.c:191-278 | on a destination that no NUL ends CONCAT and INSERT do nothing |
| `StringEdges.PartsEnd` | prototype-integrator/src/funcs.c:213-252 | on such a text LEFT, RIGHT and MID of a part still give that part, and end it |
| `StringEdges.DeleteRepeats` | prototype-integrator/src/funcs.c:280-291 | on such a text DELETE closes the gap but keeps the length: the last bytes show twice |
| `StringEdges.ReplaceOnlyCuts` | prototype-integrator/src/funcs.c:293-316 | on such a text REPLACE deletes and puts nothing in |
| `StringEdits.StrLenAt` | prototype-integrator/src/funcs.c:19-25 | the loop finds the first NUL or the end of memory |
| `StringEdits.SafeMoveBytes` | prototype-integrator/src/funcs.c:38-44 | the clipped move, in place |
| `StringEdits.OpConcat` | prototype-integrator/src/funcs.c:191-211 | memory afterwards is the concatenation of `VmStrings` |
| `StringEdits.OpLeft` | prototype-integrator/src/funcs.c:213-221 | the same for LEFT |
| `StringEdits.OpRight` | prototype-integrator/src/funcs.c:223-235 | the same for RIGHT |
| `StringEdits.OpMid` | prototype-integrator/src/funcs.c:237-252 | the same for MID |
| `StringEdits.OpInsert` | prototype-integrator/src/funcs.c:254-278 | the same for INSERT; its nested bound test never succeeds |
| `StringEdits.OpDelete` | prototype-integrator/src/funcs.c:280-291 | the same for DELETE |
| `StringEdits.OpReplace` | prototype-integrator/src/funcs.c:293-316 | the same for REPLACE |
| `Encoding.FieldsOfPack` | prototype-integrator/include/funcs.h:40-46 | the field macros read back what the assembler packed |
| `Encoding.PackOfFields` | prototype-integrator/tools/converter.c:297-310 | every 32-bit word is the packing of its fields: the encoding is a bijection |
| `Encoding.ByteOfInt8` | prototype-integrator/tools/converter.c:306-308 | the low byte of a signed immediate gives the immediate back |
| `Encoding.SignExtended` | prototype-integrator/include/funcs.h:52-56 | the extended immediate is the two's complement of its signed value |
| `Encoding.BytesOfWord` | prototype-integrator/include/main.h:198-210 | reading and writing little-endian words are inverse |
| `Encoding.SameBytes` | prototype-integrator/src/hashing.c:480-483 | the bytes the key hash sees are the bytes in memory |
| `OpTable.OpcodeFromName` | prototype-integrator/tools/converter.c:115-123 | the search loop returns the first entry with that name, or -1 |
| `OpTable.OpFound` | prototype-integrator/tools/converter.c:115-123 | any spelling of a name finds its own entry: no two entries share a name |
| `OpTable.NameRoundTrip` | prototype-integrator/src/debug.c:31-44 | a printed name is looked up as the opcode it was printed for; UNKNOWN is nobody's name |
| `AssemblerLaws.ParseSigned` | prototype-integrator/tools/converter.c:133-155 | the number parser reads back every printed 32-bit number |
| `AssemblerLaws.PrintTokens` | prototype-integrator/src/debug.c:70-83 | the printed line falls into exactly its five tokens, comment and line-end cutting included |
| `AssemblerLaws.AssemblePrinted` | prototype-integrator/tools/converter.c:190-316 | what assembling the printed line of any word at all gives, in both halt modes, errors included |
| `AssemblerLaws.RoundTripIff` | prototype-integrator/tools/converter.c:190-316 | the same word comes back if and only if the opcode exists, allows its immediate, and is not HALT outside raw mode |
| `AssemblerLaws.AcceptedIsStable` | prototype-integrator/tools/converter.c:190-316 | whatever line is accepted, printing its word and assembling again gives that word |
| `WrittenLines.ParseDecimal` | prototype-integrator/tools/converter.c:133-155 | the number reader on any decimal number: cut to 32 bits, and refused outside 64 bits |
| `WrittenLines.ParseOctal` | prototype-integrator/tools/converter.c:133-155 | a leading zero makes it octal |
| `WrittenLines.ParseHex` | prototype-integrator/tools/converter.c:133-155 | the hexadecimal word the disassembler prints reads back as that word |
| `WrittenLines.WrittenLine` | prototype-integrator/tools/converter.c:193-322 | any line of a mnemonic in any spelling, two registers and a third operand, with any numbers and separators: exactly the word, or exactly the first fault; register numbers count modulo 2^32 |
| `WrittenLines.InRange` | prototype-integrator/tools/converter.c:257-310 | with numbers in range it is the word of the fields, or the refusal of an immediate |
| `WrittenLines.MissingOperand` | prototype-integrator/tools/converter.c:224-286 | a line with fewer than three operands assembles as the line with R0 in their place, faults included |
| `WrittenLines.ExtraText` | prototype-integrator/tools/converter.c:224-227 | text after the third operand is ignored |
| `WrittenLines.Indentation` | prototype-integrator/tools/converter.c:193-195 | so is indentation |
| `WrittenLines.CommentIgnored` | prototype-integrator/tools/converter.c:201-203 | and a comment |
| `WrittenLines.BlankLine` | prototype-integrator/tools/converter.c:196-197 | a line of nothing else is blank |
| `ImmediatePolicy.PolicyIff` | prototype-integrator/tools/converter.c:31-113 | the table against the handlers: an immediate is allowed exactly for the instructions on which it can lead to another machine than the register of that number, and among the handlers outside the model for EXPT alone |
| `ImmediatePolicy.AcceptedIff` | prototype-integrator/tools/converter.c:257-292 | on the text: a line with an immediate in range is accepted exactly then, as the word of its fields |
| `SourceLines.AnyLineEnd` | prototype-integrator/tools/converter.c:193-203 | the line end makes no difference to any line |
| `SourceLines.LinesInTurn` | prototype-integrator/tools/converter.c:190-322 | any text of lines shorter than the buffer: the bytes of the lines before the first faulty one, and its number and fault, or all bytes |
| `AssembleFile.LongCommentSpills` | prototype-integrator/tools/converter.c:187-203 | what follows the first 511 characters of a comment is assembled as a line of its own |
| `AssembleFile.AssembleText` | prototype-integrator/tools/converter.c:187-322 | the main loop over a text, line buffer limit, bytes written before a failure and its line number included |
| `AssembleFile.ListingStep` | prototype-integrator/tools/converter.c:190-322 | the first line of a listing and the rest assemble independently |
| `AssembleFile.ProgramRoundTrip` | prototype-integrator/tools/converter.c:187-322 | the listing of a program assembles to exactly its bytes if and only if every word can be built |
| `Loader.LoadableIff` | prototype-integrator/src/loader.c:39-98 | a load succeeds if and only if every file reads in full and all fit together |
| `Loader.PlacedAll` | prototype-integrator/src/loader.c:34-98 | the files before the first failing one are all of them exactly when the load succeeds, and then memory gets their concatenation |
| `Loader.LayoutContiguous` | prototype-integrator/src/loader.c:87-95 | each module starts where the one before ends |
| `Loader.LayoutDisjoint` | prototype-integrator/src/loader.c:87-95 | modules are disjoint and inside the program |
| `Loader.ModuleHolds` | prototype-integrator/src/loader.c:66-95 | after the load each module holds its file |
| `Loader.HashOfImage` | prototype-integrator/src/hashing.c:677-687 | the program hash over memory is the checksum of the concatenated files |
| `Loader.HashFileByFile` | prototype-integrator/src/hashing.c:174-183 | and equals hashing the files one by one through one register |
| `Loader.ProgramMemory.LoadPrograms` | prototype-integrator/src/loader.c:14-107 | success condition, module table, size and hash, and the whole memory, after a failure too: the files before the failing one and what a short read delivered of it |
| `Loader.ProgramMemory.PlaceFiles` | prototype-integrator/src/loader.c:34-98 | the loop: contiguous placement or an empty table, and the whole memory in both cases |
| `Loader.ProgramMemory.PlaceFile` | prototype-integrator/src/loader.c:40-85 | one file: opened, measured, bounded, read; a short read fails and leaves its bytes |
| `Loader.ProgramMemory.CalculateProgramHash` | prototype-integrator/src/hashing.c:677-687 | the checksum of the program clipped to memory |
| `Pipeline.FetchBack` | prototype-integrator/include/main.h:198-203 | a program stored as bytes is fetched back word by word |
| `Pipeline.ListingsRun` | prototype-integrator/src/loader.c:34-98 | disassemble, assemble, load: each module is fetched as the words of its program |
| `Machine.ExecValid` | prototype-integrator/src/funcs.c:92-637 | no handler loses a register, a byte of memory or a bank entry |
| `MachineLaws.CountsOnce` | prototype-integrator/src/funcs.c:376-410 | one CTU or CTD instruction is one step of its counter |
| `MachineLaws.CtuCountsRises` | prototype-integrator/src/funcs.c:376-392 | over any input sequence CTU counts the rising edges and stops at 2^32 - 1 |
| `MachineLaws.CtdCountsRises` | prototype-integrator/src/funcs.c:394-410 | CTD counts them down and stops at 0 |
| `MachineLaws.EdgesAgree` | prototype-integrator/src/funcs.c:481-529 | on detectors in step EDGE_BOTH reports exactly the edges one of the other two reports |
| `MachineLaws.LatchesDiffer` | prototype-integrator/src/funcs.c:545-584 | with equal bit and inputs RS and SR differ if and only if set and reset are both on |
| `MachineLaws.MuxAfterDemux` | prototype-integrator/src/funcs.c:461-601 | a MUX after a DEMUX at any two addresses, overlapping or out of bounds: each byte selected is the stored one where the DEMUX wrote and the old one elsewhere |
| `MachineLaws.MuxUndoesDemux` | prototype-integrator/src/funcs.c:461-601 | at the same address the MUX selects the register the DEMUX stored |
| `MachineLaws.NegativeJumpLeaves` | prototype-integrator/src/funcs.c:605-619 | targets are absolute: with a negative immediate JMP always, JMP_IF when register C is nonzero and JMP_IF_NOT when it is zero end the module; otherwise the next word follows |
| `WordNumbers.SumNumber` | prototype-integrator/src/funcs.c:92-94 | a 32-bit sum is the sum of the numbers modulo 2^32; proved from single increments |
| `WordNumbers.DifferenceNumber` | prototype-integrator/src/funcs.c:96-98 | a 32-bit difference is the difference of the numbers modulo 2^32 |
| `WordNumbers.ProductNumber` | prototype-integrator/src/funcs.c:100-102 | a 32-bit product is the product of the numbers modulo 2^32 |
| `WordNumbers.BelowNumber` | prototype-integrator/src/funcs.c:141-144 | the unsigned order of words is the order of their numbers |
| `Encoding.PackIsSum` | prototype-integrator/tools/converter.c:297-310 | the instruction word as a sum: where each field lies |
| `Encoding.JumpEight` | prototype-integrator/tools/converter.c:297-310 | JMP R0, R0, #8 is the word 0x7C000108 |
| `Instructions.ExtendedNumber` | prototype-integrator/include/funcs.h:52-56 | the extended immediate is the signed byte modulo 2^32 |
| `Instructions.Third` | prototype-integrator/include/funcs.h:65 | operand C is the extended immediate or the register |
| `Instructions.Named` | prototype-integrator/src/debug.c:31-44 | the assembler finds the name the disassembler prints for an opcode, for the handler at that place in the table |
| `Instructions.Sums` | prototype-integrator/src/funcs.c:92-102 | ADD, SUB and MUL by name: sum, difference and product of the numbers modulo 2^32 into register A, nothing else |
| `Instructions.TimeSums` | prototype-integrator/src/funcs.c:168-174 | ADD_TIME and SUB_TIME likewise |
| `Instructions.Divisions` | prototype-integrator/src/funcs.c:104-112 | DIV and MOD: quotient and remainder of the unsigned numbers, both 0 for a zero divisor |
| `Instructions.Absolute` | prototype-integrator/src/funcs.c:118 | ABS: the magnitude of the two's complement number, 2^31 for the least |
| `Instructions.Logic` | prototype-integrator/src/funcs.c:132-135 | AND, OR, XOR and NOT bit by bit |
| `Instructions.Comparisons` | prototype-integrator/src/funcs.c:139-144 | the six comparisons are those of the unsigned numbers |
| `Effects.External` | prototype-integrator/src/funcs.c:114-181 | a handler outside the model gets B, operand C and the instruction count, and its answer goes into register A alone |
| `Effects.Lengths` | prototype-integrator/src/funcs.c:185-189 | LEN is the length of the text at the address in B, 0 outside memory |
| `Effects.Cuts` | prototype-integrator/src/funcs.c:191-252 | CONCAT, LEFT, RIGHT, MID by name: which edit, and which register gives address and count |
| `Effects.Splices` | prototype-integrator/src/funcs.c:254-316 | INSERT, DELETE, REPLACE likewise, with the destination in A |
| `Effects.Limits` | prototype-integrator/src/funcs.c:441-448 | LIMIT: the maximum with B and then the minimum with C, as numbers |
| `Effects.Loads` | prototype-integrator/src/funcs.c:450-467 | SEL takes the first word for a nonzero B and the second otherwise, MUX the C-th from B on; each byte of the word is the one in memory, and a word out of bounds is 0 |
| `Effects.Stores` | prototype-integrator/src/funcs.c:594-601 | DEMUX stores A as the C-th word from B on where it fits; no other byte changes, and nothing does where it does not fit |
| `Effects.Jumps` | prototype-integrator/src/funcs.c:605-619 | the whole machine after JMP, JMP_IF and JMP_IF_NOT, with the test on register C |
| `Effects.Ends` | prototype-integrator/src/funcs.c:623-637 | the whole machine after EXIT, HALT and NOP: the exit code is the unsigned immediate or the number of register A |
| `Blocks.TimerCalls` | prototype-integrator/src/funcs.c:320-354 | TON, TOF and TP by name call one timer of their own kind: B is the input, the register with the timer's number the preset, A gets the output; no other timer changes |
| `Blocks.CountsUp` | prototype-integrator/src/funcs.c:376-392 | CTU by name: the id from register A, a saturating step on a rising B, A becomes whether C is reached |
| `Blocks.CountsDown` | prototype-integrator/src/funcs.c:394-410 | CTD by name: a saturating step down, A becomes whether the count is at most C |
| `Blocks.CountsBoth` | prototype-integrator/src/funcs.c:412-437 | CTUD by name: up on a rising B, then down on a rising C, A becomes the count |
| `Blocks.CtudCountsNet` | prototype-integrator/src/funcs.c:412-437 | over any input sequence without a limit met: the start plus the rising edges of one input less those of the other |
| `Blocks.EdgesReported` | prototype-integrator/src/funcs.c:481-529 | of two calls in a row RISING_EDGE reports an input that came on, FALLING_EDGE one that went off, EDGE_BOTH either |
| `Blocks.FirstCall` | prototype-integrator/src/funcs.c:481-529 | at the first call after power-on the input counts as having been off |
| `Blocks.ResetWins` | prototype-integrator/src/funcs.c:545-564 | the whole machine after RS_LATCH: reset wins |
| `Blocks.SetWins` | prototype-integrator/src/funcs.c:566-584 | the whole machine after SR_LATCH: set wins |
| `Blocks.NoSuchBit` | prototype-integrator/src/funcs.c:481-584 | an id from 16 on gives 0 and changes nothing else |
| `StorePolicy.StoreIff` | prototype-integrator/src/funcs.c:92-637 | string edits and DEMUX are exactly the instructions that can change memory, each on some machine |
| `MachineLaws.CountsFromZero` | prototype-integrator/src/funcs.c:376-410 | from power-on CTU shows the rising edges so far and CTD stays at 0 |
| `MachineLaws.ConditionalJumps` | prototype-integrator/src/funcs.c:605-619 | with a nonzero register C JMP_IF is JMP and JMP_IF_NOT does nothing; with a zero one the other way round |
| `MachineLaws.JumpTargets` | prototype-integrator/src/funcs.c:605-607 | JMP goes to the value of register B, or to the immediate if it is not negative |
| `MachineLaws.JumpToItself` | prototype-integrator/src/vm_runtime.c:122-128 | a jump to its own address is taken for no jump and goes on to the next word |
| `RuntimeLaws.SecondOfInstructions` | prototype-integrator/src/vm_runtime.c:46-55 | a second of virtual time holds as many instructions as the clock rate says, up to the nanoseconds cut off each; with rate 0 the clock stands still |
| `RuntimeLaws.DecodeFields` | prototype-integrator/src/vm_tables.c:113-119 | a cached entry holds the word and the fields the assembler packed; the immediate is not extended |
| `ModuleRuns.ModuleStarts` | prototype-integrator/src/vm_runtime.c:174-185 | a module run is its first instruction, fetched at the module's address, through the cache if it is cached, and the run of at most 99999 more |
| `ModuleRuns.ModuleStartsFresh` | prototype-integrator/src/vm_runtime.c:174-185 | with nothing cached there it is the word in memory, which is then cached |
| `ModuleRuns.NothingToRun` | prototype-integrator/src/vm_runtime.c:81-100 | an empty module, or one that starts with a zero word, executes nothing |
| `ModuleRuns.IllegalStart` | prototype-integrator/src/vm_runtime.c:114-120 | a first word without a handler stops the module; only the cache has changed |
| `ModuleRuns.FirstModule` | prototype-integrator/src/vm_runtime.c:268-271 | the first module runs and then the others, on what it leaves |
| `ModuleRuns.ModulesInOrder` | prototype-integrator/src/vm_runtime.c:268-271 | a list of modules runs as its first part and then its second |
| `ModuleRuns.CyclesFollow` | prototype-integrator/src/vm_runtime.c:222-280 | j cycles and then k are j + k cycles, and after a stop request nothing more runs |
| `ModuleRuns.OneCycle` | prototype-integrator/src/vm_runtime.c:236-280 | one cycle runs exactly when no stop has been requested |
| `Programs.SourceAssembles` | prototype-integrator/tools/converter.c:190-322 | the text of n lines ADD R1, R1, #1 assembles to n words |
| `Programs.AddStep` | prototype-integrator/src/vm_runtime.c:122-128 | one such instruction adds 1 to register 1 modulo 2^32, moves on and is counted |
| `Programs.ModuleAdds` | prototype-integrator/src/vm_runtime.c:163-193 | a run of a module that holds the n words adds n, or 100000 when there are more, to register 1 and the instruction count |
| `Programs.CyclesAdd` | prototype-integrator/src/vm_runtime.c:222-280 | k cycles add k times as much |
| `Programs.CountingRuns` | prototype-integrator/src/vm_runtime.c:163-280 | from power-on with the program loaded anywhere: register 1 and the instruction count after k cycles |
| `Programs.Count` | prototype-integrator/src/main.c:74-77 | end to end on the struct: assemble the text, load it, run k cycles, and register 1 is k times n, or k times 100000, modulo 2^32 |
| `TimerRuns.ExecCalls` | prototype-integrator/src/funcs.c:320-354 | any instruction leaves a timer alone unless it is the TON, TOF or TP that names it |
| `TimerRuns.RunTraced` | prototype-integrator/src/vm_runtime.c:163-193 | over any module run every timer is where the trace of its calls leads |
| `TimerRuns.ModulesTraced` | prototype-integrator/src/vm_runtime.c:268-271 | and over all modules of a cycle |
| `TimerRuns.CycleUpdates` | prototype-integrator/src/vm_runtime.c:273-280 | at the end of a cycle every timer of every kind is updated at the time the cycle ends |
| `TimerRuns.PassTraced` | prototype-integrator/src/timers.c:190-198 | that update is one more sample for a timer that has been driven, and nothing for one that has not |
| `TimerRuns.CyclesTraced` | prototype-integrator/src/vm_runtime.c:222-280 | over any number of cycles of any program every timer is where the trace of its calls and of the cycle ends leads, so that the trace theorems about timers speak of running programs |
| `TimerRuns.TracedFromPowerOn` | prototype-integrator/src/vm_runtime.c:222-280 | and from power-on that trace starts empty |
| `TimerRuns.RetentiveIdle` | prototype-integrator/src/funcs.c:320-354 | no instruction drives TONR or TOFR: in every program they stay as at power-on |
| `TimerRuns.AloneTraced` | prototype-integrator/src/vm_runtime.c:273-280 | a timer that no instruction drives goes through one sample for each cycle end |
| `TimerRuns.TonComesOn` | prototype-integrator/src/vm_runtime.c:273-280 | a TON whose input was on when last driven is on after the first cycle that ends with the preset passed and no borrow, and stays on while left alone |
| `RuntimeLaws.FreshIsPlain` | prototype-integrator/src/vm_tables.c:95-125 | if every dispatched word is the one in memory the cached loop equals decoding every time |
| `RuntimeLaws.FetchesAreWords` | prototype-integrator/src/vm_runtime.c:93-125 | the list of executed addresses and words that the two rows below speak of carries exactly the words handed to the handlers |
| `RuntimeLaws.SameWordsIff` | prototype-integrator/src/vm_runtime.c:93-125 | from any cache: the handlers get the same words with and without it if and only if the run without a cache executes no address with two different words, nor with another word than the cached one |
| `RuntimeLaws.FromEmptyCache` | prototype-integrator/src/vm_runtime.c:93-125 | from an empty cache: if and only if no address is executed with two different words, and then both runs reach the same machine |
| `RuntimeLaws.CacheInvisible` | prototype-integrator/src/vm_tables.c:95-125 | from a coherent cache, with no store changing a cached word, both reach the same machine and the cache stays coherent |
| `RuntimeLaws.OnlyStoresWrite` | prototype-integrator/src/funcs.c:92-637 | only string edits and DEMUX write memory |
| `RuntimeLaws.StoreFreeUntouched` | prototype-integrator/src/vm_runtime.c:163-193 | a module without store instructions never touches a cached word: a check before the run |
| `RuntimeLaws.TickExact` | prototype-integrator/src/vm_runtime.c:46-55 | one tick adds exactly one instruction time and keeps the remainder below a millisecond |
| `RuntimeLaws.RunClock` | prototype-integrator/src/vm_runtime.c:35-56 | a module run moves the clock by exactly its instructions, at most 100000 |
| `StaleCache.StaleAddition` | prototype-integrator/src/vm_runtime.c:104-125 | a self-patching program of three instructions: without the cache the fourth step adds 2, with it 1 |
| `Cycles.ModulesInvisible` | prototype-integrator/src/vm_runtime.c:268-271 | one pass over the modules with and without the cache |
| `Cycles.CyclesInvisible` | prototype-integrator/src/vm_runtime.c:222-280 | any number of cycles with and without the cache reach the same machine |
| `Cycles.StoreFreeCycles` | prototype-integrator/src/vm_runtime.c:298-304 | store-free programs leave memory as it is in every cycle |
| `Cycles.StoreFreeProgram` | prototype-integrator/src/vm_runtime.c:222-304 | so for them the cache is invisible and the program hash check never reports a mismatch |
| `Cycles.CycleEnds` | prototype-integrator/src/vm_runtime.c:273-278 | a cycle ends at the later of its exact instruction time and its planned end, remainder carried over |
| `Cycles.TimeMonotone` | prototype-integrator/src/vm_runtime.c:241-278 | over any number of cycles time never goes back and k cycles take at least k planned times |
| `Handlers.Vm.constructor` | prototype-integrator/src/vm_lifecycle.c:208-231 | the zeroed struct with idle timers, empty cache and its memory |
| `Handlers.Vm.SetRegister` | prototype-integrator/include/funcs.h:67-68 | exactly register A changes |
| `Handlers.Vm.ReadWord` | prototype-integrator/include/main.h:198-203 | the little-endian word |
| `Handlers.Vm.WriteWord` | prototype-integrator/include/main.h:205-210 | exactly four bytes change |
| `Handlers.Vm.AluValue` | prototype-integrator/src/funcs.c:92-173 | the switch over arithmetic, logic and comparison, word by word |
| `Handlers.Vm.OpAlu` | prototype-integrator/src/funcs.c:92-173 | arithmetic, logic and comparison on the struct: exactly register A changes |
| `Handlers.Vm.OpEdit` | prototype-integrator/src/funcs.c:191-316 | the string edits |
| `Handlers.Vm.OpLen` | prototype-integrator/src/funcs.c:185-189 | LEN |
| `Handlers.Vm.Clamp` | prototype-integrator/src/funcs.c:441-448 | the two tests of LIMIT |
| `Handlers.Vm.OpLimit` | prototype-integrator/src/funcs.c:441-448 | LIMIT on the struct |
| `Handlers.Vm.OpTimer` | prototype-integrator/src/funcs.c:320-354 | TON, TOF, TP: one timer and one register change |
| `Handlers.Vm.OpCountUp` | prototype-integrator/src/funcs.c:376-392 | CTU |
| `Handlers.Vm.OpCountDown` | prototype-integrator/src/funcs.c:394-410 | CTD |
| `Handlers.Vm.OpCountUpDown` | prototype-integrator/src/funcs.c:412-437 | CTUD |
| `Handlers.Vm.OpEdge` | prototype-integrator/src/funcs.c:481-529 | the edge detectors |
| `Handlers.Vm.OpLatch` | prototype-integrator/src/funcs.c:545-584 | the latches |
| `Handlers.Vm.OpSel` | prototype-integrator/src/funcs.c:450-459 | SEL |
| `Handlers.Vm.OpMux` | prototype-integrator/src/funcs.c:461-467 | MUX |
| `Handlers.Vm.OpDemux` | prototype-integrator/src/funcs.c:594-601 | DEMUX |
| `Handlers.Vm.OpJump` | prototype-integrator/src/funcs.c:605-619 | the jumps |
| `Handlers.Vm.OpStop` | prototype-integrator/src/funcs.c:623-637 | EXIT and HALT |
| `VmRuntime.Execute` | prototype-integrator/src/vm_runtime.c:122-128 | the handler table: the struct after any of the 68 instructions |
| `VmRuntime.DecodeInstruction` | prototype-integrator/src/vm_tables.c:95-125 | the cached decoder over the hash table: the entry if present, else decoded and inserted; room is always left |
| `VmRuntime.UpdateTime` | prototype-integrator/src/vm_runtime.c:35-56 | the virtual clock without tick timing |
| `VmRuntime.Step` | prototype-integrator/src/vm_runtime.c:122-155 | execute, default step of the program counter, counters, clock |
| `VmRuntime.RunInstruction` | prototype-integrator/src/vm_runtime.c:74-158 | one round of the loop, all four ways it can go |
| `VmRuntime.RunLoop` | prototype-integrator/src/vm_runtime.c:177-185 | the loop ends where the recursive specification ends |
| `VmRuntime.RunWholeModule` | prototype-integrator/src/vm_runtime.c:163-193 | registers, memory, timers, clock and cache after a module |
| `VmRuntime.RunModules` | prototype-integrator/src/vm_runtime.c:268-271 | after all modules |
| `VmRuntime.UpdateTimers` | prototype-integrator/src/timers.c:190-198 | the timer pass on the struct |
| `VmRuntime.RunCycle` | prototype-integrator/src/vm_runtime.c:241-280 | after a cycle |
| `VmRuntime.RunProgram` | prototype-integrator/src/vm_runtime.c:222-280 | after up to k cycles, stop requests included |
| `VmRuntime.RunStoreFree` | prototype-integrator/src/vm_runtime.c:222-280 | for store-free programs: the machine of the interpreter that decodes every word |
| `Startup.Load` | prototype-integrator/src/loader.c:14-107 | loading, successful or not, changes the memory of the VM and nothing else, and how |
| `Startup.Boot` | prototype-integrator/src/main.c:74-77 | from power-on: load condition, the state after up to k cycles from the loaded image, and the state after a failed load |

## Left out

- TimerIdeal.MeetsStandardIff: leaves out preset 0, which `TimerPresets.ZeroPresetIff` answers, and presets that change, for which the standard draws no diagram; `TimerPresets.AnyPresets` covers them.
- VmStrings.InsertSplices: asks that the source bytes lie outside what the edit moves, which `StringEdits.OpInsert` does not; so do `VmStrings.ReplaceOverwrites` and `VmStrings.DeleteUndoesInsert`.
- `memcpy` on overlapping regions is modelled as a move that reads before it writes.
- HashTable.Table.Insert: asks that a doubling stays within 2^31 bins, because the model leaves out allocation failure and larger tables.
- HashHistory.Replay: bounds used bins and insertions together by 2^29 for the same reason; so do `HashHistory.Call` and `HashHistory.Lifetime`.
- TimerRetentive.TrueTimeIff: asks that the on-time up to the preset fits 32 bits, because ET does not show more; `TimerRetentive.OutputExactly` has no such bound.
- TimerIdeal.StrictIffNoRetrigger: leaves out edges the clock cannot tell apart, a multiple of 2^32 ms from each other or 39 hours more.
- Startup.Boot: leaves out programs that end in the last three bytes of memory, where the fetch reads past the array.
- The model compares keys by value and lets the table own every value; values the source stores without ownership are stored by value.
- Counters, edge detectors and latches of the struct are one value field, not separate arrays.
- Timers.Split: the seconds are not cut to `time_t`, and virtual time does not overflow 64 bits.
- Tick timing, sleeping, signals, logging, performance statistics, command line and configuration files: I/O.
- Hot reload and directory scanning, apart from what a load leaves behind.
- Breakpoint and label tables: plain calls of the modelled table.
- FNV-1a, register and state hashes: the same fold over other bytes.
- Failure of `fseek`, and of `malloc` anywhere.
- Reading and writing the files of the assembler; the loader is given the bytes a read delivers.
- The legacy copies under `system-master/iec/runtime/legacy`, `code/mvp.c` and the C++ skeleton repeat or stub the prototype.

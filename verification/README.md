# VirtualGPU's AMD side, modelled in Dafny

A model of the parts of the AMD implementation where a result rests on more than one function or on every interleaving of
several threads, with the properties its comments and documentation promise. `dafny verify dfyconfig.toml` checks all of it.

| Core | Modules | Form |
|---|---|---|
| Stream work queues | `WorkQueue`, `QueueSystem` | a class for the lock sections; a step machine over any number of queues |
| Scaled multiply-add and division steps | `Powers`, `Floats`, `Rounding`, `ScaledFma`, `ScaledFmaTheorems`, `DivScale`, `DivQuotient` | functions over sign, exponent field and fraction, parametric in the format; methods for the loops |
| LDS instructions | `Lds`, `LdsMoves`, `LdsLanes`, `LdsWave`, `LdsRun`, `LdsHandler`, `LdsCross`, `LdsMeaning` | methods in place on register rows and LDS bytes, against a lane-by-lane reference, and that against what each byte is |
| Thread pool | `PoolSystem`, `PoolTheorems` | a step machine over any number of launches and workers |
| AQL queue | `AqlRing`, `AqlTheorems` | a step machine over any number of producers |
| Hostcall | `HostcallSystem`, `HostcallTheorems`, `Printf` | a step machine over any number of waves; a class for the message table |
| Bundle inflation | `Bundle` | methods against one reference function |
| MessagePack | `Msgpack`, `MsgpackTheorems` | recursive methods against a reader function, and that against the format's encodings |
| Scalar carry chains | `ScalarCarry` | a class for the registers |

## Conventions

- Atomics are sequentially consistent. In the step machines every shared load, store and compare-and-swap is a step, and
  a step may be taken whenever its guard holds; waits are guards. In `PoolSystem` each push or pop of the idle list is a
  step, finer than the lock section it is in, so the machine has every run the code has and more.
- A state machine's history fields (what ran, who owns what) are looked at by the theorems. Where a guard mentions one, it is
  only so that the step is defined, and a lemma shows it never holds the step up (`HostcallTheorems.HostNeverBlocked`,
  `PoolTheorems.NeverStuck`, `AqlTheorems.NeverStuck`).
- A finite float is its magnitude in units of the smallest denormal. `Floats.IsNearest` is IEEE 754's rounding to nearest, ties
  to even, overflow included, written without reference to the code; `Floats.IsFaithful` says no float lies between.
- Products of unknowns are the recursive `Powers.Times` and shifts the recursive `Powers.Shl` and `Powers.Shr`, each shown to be
  the product.
- `Basics` holds what several modules share: bytes, options, maximum and minimum, and the digits of a number in base 256, which
  say what little- and big-endian fields are without any reader.
- A register word is four bytes, so LDS accesses may overlap at any byte. EXEC is one boolean a lane, and the LDS is smaller
  than 2^32 bytes.

## Where the code and its comments differ

- `scaled_fma` is documented as one rounding to nearest even in both formats. In binary32 it is. In binary64 the branch for
  operands of opposite signs takes one from the magnitude for bits lost from the smaller operand and sets no sticky bit; where
  what is left shows an exact half over an even place, the result is the farther neighbour. `ScaledFmaTheorems.RoundsOnce`
  has the exact condition (`BorrowedTie`), `Binary64RoundsWrongly` three operands that meet it, and the result is one of the two
  neighbours of the exact value in every case.
- The bundle's two bounds tests add in 64 bits, so that a sum that wraps can pass: `Bundle.WalkIsTable` and
  `Bundle.InsideIsPassing` have the exact conditions, and `WrappedLengthPasses` and `WrappedEndPasses` inputs.
- The MessagePack reader casts a uint 64 to `int64_t`: `MsgpackTheorems.Uint64Reads` says when that is the number written, and
  `Uint64Wraps` has bytes for which it is not.

## Model

| member | source | states |
|---|---|---|
| WorkQueue.Queue.Submit | amd/src/hip_queue.hpp:83-95 | the item gets the next number and goes to the back of the deque |
| WorkQueue.Queue.ClaimInline | amd/src/hip_queue.hpp:107-113 | claims the next number exactly where nothing is queued or running, and otherwise changes nothing |
| WorkQueue.Queue.NoteFailure | amd/src/hip_queue.hpp:215-219 | keeps the first failure since the last take, and raises the flag with it |
| WorkQueue.Queue.FinishInline | amd/src/hip_queue.hpp:120-126 | count, failure and published copy of an inline item's end |
| WorkQueue.Queue.TakeFront | amd/src/hip_queue.hpp:188-195 | takes the front item and leaves the rest in order |
| WorkQueue.Queue.FinishItem | amd/src/hip_queue.hpp:204-209 | count, failure and published copy of a thread's item's end |
| WorkQueue.Queue.Done | amd/src/hip_queue.hpp:153-157 | for a number given out, and for 0, yes exactly where no item of that number is queued or running; for one not given out yet, no |
| WorkQueue.UnfinishedIsPast | amd/src/hip_queue.hpp:83-157 | an item is queued or running exactly where its number is past the count; 0 never is |
| WorkQueue.Queue.TakeError | amd/src/hip_queue.hpp:168-173 | hands out the kept failure and forgets it, or Ok where the flag is clear |
| QueueSystem.StepKeepsInv | amd/src/hip_queue.hpp:83-219 | every step of every queue keeps: pending numbers are exactly completed + 1 .. submitted, at most one item runs, markers name older items |
| QueueSystem.RunKeepsInv | amd/src/hip_queue.hpp:83-219 | the invariant holds in every state of every run of any number of queues |
| QueueSystem.LockSectionsAreMet | amd/src/hip_queue.hpp:83-219 | in every state of every run where the lock is free, the fields are as the lock sections' methods demand |
| QueueSystem.ItemsRunInOrder | amd/src/hip_queue.hpp:83-133 | items begin in number order, each once, none skipped, never two at a time, on the thread or inline |
| QueueSystem.MarkersComeFirst | amd/src/hip_queue.hpp:103-133 | when an item begins, every item its markers name has finished, on its own queue or another |
| QueueSystem.OwnMarkerMet | amd/src/hip_queue.hpp:197-198 | skipping a marker on the item's own queue is sound: the item it names is done by then |
| QueueSystem.IdleIsTrue | amd/src/hip_queue.hpp:160-163 | two reads that agree mean the queue was idle at the first of them, whatever happened between |
| QueueSystem.DoneIsTrue | amd/src/hip_queue.hpp:135-157 | a yes from done or wait, through the copy or the count, means the item has finished, then and for good |
| QueueSystem.FailureIsFound | amd/src/hip_queue.hpp:164-173 | a caller that saw a failed item done finds a failure to take, unless a take already answered for that item |
| QueueSystem.ClearFlagIsTrue | amd/src/hip_queue.hpp:168-169 | a clear flag means no failure among the results noted since the last take |
| QueueSystem.FailuresGivenOnce | amd/src/hip_queue.hpp:168-173 | every result up to the last take is answered for by exactly one take, which gave out its stretch's first failure |
| QueueSystem.NeverStuck | amd/src/hip_queue.hpp:181-212 | no reachable state with pending items is stuck: the queue whose item is the globally oldest unfinished one has a step, or a queue has one of the two stores that end an item |
| QueueSystem.ProgressTakesWork | amd/src/hip_queue.hpp:181-212 | every step of submitted work lessens a bound on the steps left |
| QueueSystem.WorkDrains | amd/src/hip_queue.hpp:181-212 | from every reachable state the work submitted can run to its end |
| QueueSystem.DoneMeansRanOnce | amd/src/hip_queue.hpp:83-133 | where nothing is pending every number given out has run exactly once |
| Rounding.PackNearest | amd/src/gcn_divide.hpp:288-306 | packing the count a magnitude rounds to is IEEE rounding to nearest even, denormals and overflow included |
| Rounding.PackFaithful | amd/src/gcn_divide.hpp:288-306 | packing a count less than a place away leaves no float between |
| Rounding.PastThreshold | amd/src/gcn_divide.hpp:288-306 | a magnitude is past the overflow threshold exactly where its count is past the range |
| ScaledFma.WindowFits | amd/src/gcn_divide.hpp:245-283 | the window's magnitude and sign are the exact sum's up to what fell below it; only the smaller operand loses bits |
| ScaledFma.RoundWindow | amd/src/gcn_divide.hpp:284-306 | rounding the window is right exactly where a borrow does not leave an exact half over an even place in range |
| ScaledFma.OperandsRound | amd/src/gcn_divide.hpp:245-306 | the same for the operands' exact sum |
| ScaledFmaTheorems.RoundsOnce | amd/src/gcn_divide.hpp:213-307 | for all finite a, b, c and every k, either format: a zero of the right sign for an exact zero; else faithful always, and the nearest-even rounding of (a b + c) 2^k if and only if there is no borrowed tie |
| ScaledFmaTheorems.Binary32RoundsToNearest | amd/src/gcn_divide.hpp:213-307 | in binary32 always (a b + c) 2^k rounded once to nearest even |
| ScaledFmaTheorems.NoTieInBinary32 | amd/src/gcn_divide.hpp:274-283 | the decrement can never land on a tie in binary32 |
| ScaledFmaTheorems.Binary64RoundsWrongly | amd/src/gcn_divide.hpp:274-283 | three binary64 operands whose result is not the nearest-even one |
| ScaledFmaTheorems.BitLength | amd/src/gcn_divide.hpp:238-245 | the loop counts the bits up to the leading one |
| ScaledFmaTheorems.AlignTo | amd/src/gcn_divide.hpp:253-264 | what is kept is the largest whole number of units not above the operand, and sticky says exactly whether it is below |
| ScaledFmaTheorems.WindowUnit | amd/src/gcn_divide.hpp:249-252 | the unit puts the larger leading bit at place 120 |
| ScaledFmaTheorems.AddAligned | amd/src/gcn_divide.hpp:267-283 | for every two values the aligned operands are floors of, at most one of them inexact: the sign is the exact sum's, and the magnitude is the exact one where neither lost bits, odd and less than a unit from it where they have one sign, and its floor where they differ |
| ScaledFmaTheorems.SumParts | amd/src/gcn_divide.hpp:253-283 | aligning and adding, inside 128 bits, gives the window's sum |
| ScaledFmaTheorems.RoundOff | amd/src/gcn_divide.hpp:288-304 | the kept count and its place, denormal places included |
| ScaledFmaTheorems.ComputeScaledFma | amd/src/gcn_divide.hpp:216-307 | the steps in order give the function RoundsOnce is about, inside 128 bits |
| DivScale.BitsRoundTrip | amd/src/gcn_divide.hpp:68-79 | reading back the bits of a float gives the float |
| DivScale.ScaleIsLdexp | amd/src/gcn_divide.hpp:163-173 | moving the exponent field is ldexp, for every float and every power |
| DivScale.FastIsReference | amd/src/gcn_divide.hpp:133-211 | div_scale gives div_scale_reference's value and condition for every three operands, zeros, denormals, infinities and NaNs included |
| DivScale.ZeroGivesNan | amd/src/gcn_divide.hpp:133-140 | with a zero for numerator or denominator the answer is the quiet NaN's bits, the condition clear |
| DivQuotient.ReciprocalIsDenormalMeans | amd/src/gcn_divide.hpp:102-110 | the test holds exactly where the exact reciprocal is below the smallest normal number |
| DivQuotient.QuotientIsDenormalMeans | amd/src/gcn_divide.hpp:112-123 | the test holds exactly where the exact quotient is below the smallest normal number |
| DivQuotient.NumeratorIsExact | amd/src/gcn_divide.hpp:133-162 | what div_scale does to the numerator is an exact power of two |
| DivQuotient.DenominatorIsExact | amd/src/gcn_divide.hpp:133-162 | and to the denominator |
| DivQuotient.DenominatorIsTamed | amd/src/gcn_divide.hpp:133-162 | for all finite nonzero n and d the scaled denominator is a normal number whose reciprocal is normal |
| DivQuotient.ScaledQuotientIsFar | amd/src/gcn_divide.hpp:133-162 | where one operand alone was scaled, the scaled quotient is far enough from one to show which |
| DivQuotient.ScalingIsUndone | amd/src/gcn_divide.hpp:133-162 | for all finite nonzero n and d and any estimate of the scaled quotient within 2^31 (binary32) or 2^639 (binary64), the power div_fmas picks turns the scaled quotient back into n / d exactly |
| DivQuotient.FmasRounds | amd/src/gcn_divide.hpp:309-317 | for all finite operands: without the condition div_fmas is s0 s1 + s2 rounded once to nearest even; with it, (s0 s1 + s2) times 2^scale or 2^-scale as the estimate is one or more or less, rounded once, to nearest even if and only if there is no borrowed tie |
| DivQuotient.FmasDelegates | amd/src/gcn_divide.hpp:309-317 | with an operand that is not finite it is the library's fma, whatever the condition |
| DivQuotient.Binary32FmaIsFma | amd/src/gcn_divide.hpp:213-307 | scaled_fma with k = 0 is an IEEE 754 fma in binary32, so what is asked of the library's can be met |
| DivQuotient.LastStepRounds | amd/src/gcn_divide.hpp:309-317 | for all finite nonzero n and d, scaled or not, and any estimate as close as above: div_scale multiplied by 2^i and 2^j exactly, and div_fmas rounds (s0 s1 + q) 2^(j - i), the scaling undone in the one rounding |
| DivQuotient.UnderflowIsZero | amd/src/gcn_divide.hpp:338-338 | where the exponents fire the underflow test, zero is the correctly rounded quotient |
| DivQuotient.OverflowIsInfinity | amd/src/gcn_divide.hpp:339-339 | where they fire the overflow test, infinity is |
| DivQuotient.FixupIsCorrect | amd/src/gcn_divide.hpp:319-341 | for all finite nonzero n and d the fixed-up quotient is n / d correctly rounded, given a correctly rounded magnitude where no test fires |
| DivQuotient.FixupSpecials | amd/src/gcn_divide.hpp:332-337 | NaN exactly for a NaN, 0/0 and inf/inf; signed infinity and zero elsewhere |
| DivQuotient.FixupNans | amd/src/gcn_divide.hpp:324-335 | a NaN is the numerator's, else the denominator's, with its quiet bit set; 0/0 and inf/inf give the bits 0xFFC00000 or 0xFFF8000000000000 |
| Lds.LoadsPointwise | amd/src/gcn_tier.cpp:1508-1552 | a load in lane order gives each register the word at its own lane's first address, the address row among the destinations or not |
| Lds.RunPast | amd/src/gcn_tier.cpp:1404-1414 | one test of a run's end is every lane's, wrapped addresses included |
| Lds.RunIsOneStore | amd/src/gcn_tier.cpp:1433-1449 | a run of lanes storing to consecutive places is one store |
| Lds.TwoRunsAreTwoStores | amd/src/gcn_tier.cpp:1454-1457 | two runs that are apart: all first values and then all second are what the lanes do in turn |
| Lds.SecondRun | amd/src/gcn_tier.cpp:1404-1410 | the second addresses of a run are a run from base + (x1 - x0), in 32-bit arithmetic |
| LdsMoves.StoreBytes | amd/src/gcn_tier.cpp:245-253 | the bytes from an address on, and no others |
| LdsMoves.LdsToRows | amd/src/gcn_tier_ds.cpp:17-32 | the shuffles put word k of each of four lanes in row k, and nothing else changes |
| LdsMoves.RowsToLds | amd/src/gcn_tier_ds.cpp:34-48 | the shuffles store each lane's words at its own address, in lane order |
| LdsLanes.DoLane | amd/src/gcn_tier.cpp:1481-1577 | one lane's access is the reference's, for every form |
| LdsLanes.EachLane | amd/src/gcn_tier.cpp:1481-1577 | the loops over lanes are the reference, ds_add_u32's shared words included |
| LdsWave.AllRead | amd/src/gcn_tier_ds.cpp:95-102 | every lane on, four at a time: each lane gets the words at the address it had at first, though the address row may be a destination |
| LdsWave.AllRead2 | amd/src/gcn_tier_ds.cpp:139-151 | the same with two values a lane |
| LdsWave.AllWrite | amd/src/gcn_tier_ds.cpp:103-110 | every lane on, four at a time: the stores in lane order, overlapping or not |
| LdsRun.RunRead | amd/src/gcn_tier_ds.cpp:75-84 | groups of four and the rest: each lane of the run gets its own words |
| LdsRun.RunRead3 | amd/src/gcn_tier.cpp:1424-1430 | three words a lane through the temporary: the same |
| LdsRun.RunWrite | amd/src/gcn_tier_ds.cpp:85-94 | groups of four and the rest are one store of the run's words |
| LdsRun.RunWrite3 | amd/src/gcn_tier.cpp:1441-1448 | three words a lane through the temporary: the same |
| LdsHandler.RunTest | amd/src/gcn_tier.cpp:1404-1414 | the handler's test of a consecutive run holds exactly where some lane passes the end, at either offset; else no place wraps |
| LdsHandler.FindRun | amd/src/gcn_tier.cpp:1400-1403 | says one run exactly where EXEC is one, and where it starts |
| LdsHandler.CheckPlaces | amd/src/gcn_tier.cpp:1404-1407 | true exactly where the lanes address consecutive places in 32-bit arithmetic |
| LdsHandler.CheckAllEnds | amd/src/gcn_tier.cpp:1461-1480 | true exactly where some lane that is on passes the end |
| LdsHandler.TryRun | amd/src/gcn_tier.cpp:1400-1459 | where the one-copy path is taken it is the reference, or returns 0 with nothing changed exactly where a lane passes the end |
| LdsHandler.HandleDs | amd/src/gcn_tier.cpp:1390-1579 | for every form that accesses the LDS, EXEC, address row and aliasing, whichever path runs leaves registers and LDS as the lanes in lane order do; it returns 0, with nothing changed, exactly where some active lane passes the end |
| LdsHandler.HandleTwo | amd/src/gcn_tier_ds.cpp:122-189 | the same for the two-value forms |
| LdsMeaning.WordReads | amd/src/gcn_tier.cpp:1481-1492 | the word made of a 32-bit number has the number's base-256 digits for bytes, the lowest first, and is read back as it |
| LdsMeaning.ValueReads | amd/src/gcn_tier.cpp:1481-1492 | a register is read as the number whose digits its bytes are |
| LdsMeaning.HandedBackExactly | amd/src/gcn_tier.cpp:1461-1480 | the reference hands back exactly where a lane that is on addresses a value whose last byte is past the LDS |
| LdsMeaning.LoadsThatByte | amd/src/gcn_tier.cpp:1493-1537 | byte j of row k of a lane that is on becomes LDS byte a + 4 k + j, a the lane's number plus the offset in 32 bits |
| LdsMeaning.LoadsThatByte2 | amd/src/gcn_tier.cpp:1561-1570 | the same for the second value, in the rows after |
| LdsMeaning.LoadsNothingElse | amd/src/gcn_tier.cpp:1493-1570 | every other register, lane and LDS byte is kept |
| LdsMeaning.StoresThatByte | amd/src/gcn_tier.cpp:1538-1577 | LDS byte a + 4 k + j becomes byte j of the lane's word k, unless a later lane that is on or the lane's own second value stores there |
| LdsMeaning.StoresThatByte2 | amd/src/gcn_tier.cpp:1571-1577 | the same for the second value, unless a later lane stores there |
| LdsMeaning.StoresNothingElse | amd/src/gcn_tier.cpp:1538-1577 | a byte no lane that is on stores is kept, and so is every register |
| LdsMeaning.ReadsBack | amd/src/gcn_tier.cpp:1511-1560 | a load by the address row of a store gives each lane no later lane stored over its own words back |
| LdsMeaning.AddsUp | amd/src/gcn_tier.cpp:1481-1492 | ds_add_u32 leaves each word what it held plus what all lanes at it add, modulo 2^32 |
| LdsCross.DoFetch | amd/src/gcn_tier.cpp:1368-1386 | each lane that is on gets the word the lane it names had before the instruction, or zero where that lane is off; with every lane on the path that tests nothing does the same, and the address row may be the one written |
| LdsCross.DoSwizzle | amd/src/gcn_tier.cpp:1318-1339 | the same for the lane the pattern names, the written row the read one or not |
| LdsCross.AllSwizzled | amd/src/gcn_tier.cpp:1327-1335 | no lane of a wave reads past it, whatever the pattern |
| LdsCross.SwizzleUndone | amd/src/gcn_tier.cpp:1327-1335 | with every lane on, a swizzle that flips bits undoes itself, and a rotation is undone by the one the other way |
| LdsCross.DoSend | amd/src/gcn_tier.cpp:1340-1358 | everything is sent before any lane is written, so the written row may be the data's or the addresses' |
| LdsCross.HighestSenderWins | amd/src/gcn_tier.cpp:1341-1352 | a lane gets what the highest-numbered active lane naming it sent, and zero exactly where none does |
| LdsCross.FetchUndoesSend | amd/src/gcn_tier.cpp:1340-1386 | with every lane on and no two naming one lane, ds_bpermute_b32 on ds_permute_b32's result gives every lane its word back |
| LdsCross.FetchMoves | amd/src/gcn_tier.cpp:1368-1386 | the lane k whose four bytes hold the address, modulo four bytes a lane, is the one whose word is fetched, or zero where it is off |
| LdsCross.SendMoves | amd/src/gcn_tier.cpp:1340-1358 | a lane gets the word of the last lane that is on whose address so names it |
| LdsCross.UnnamedGetsZero | amd/src/gcn_tier.cpp:1340-1358 | and zero where no address names it |
| LdsCross.SwizzleMoves | amd/src/gcn_tier.cpp:1318-1339 | a lane gets the word of the lane the pattern names, bit by bit: two chosen bits of four lanes, so many lanes on or back of 32, or each bit of the lane kept, raised and flipped |
| LdsCross.CrossesNothingElse | amd/src/gcn_tier.cpp:1318-1386 | every other register and lane, and the LDS, is kept |
| LdsCross.Handle | amd/src/gcn_tier.cpp:1359-1579 | all of h_ds: 3 exactly for a plain store that meets the gate with a lane on and other waves in the group, the gate then lowered and nothing else changed; otherwise the meaning of the instruction, or 0 with nothing changed |
| PoolSystem.StepKeepsInv | amd/src/gcn_pool.hpp:76-179 | every step of every launch and worker keeps: each started task is with the one worker it was given to until it is counted, each worker is idle, held or busy, the idle list names each idle worker once |
| PoolTheorems.RunKeepsInv | amd/src/gcn_pool.hpp:76-179 | the invariant holds in every state of every run |
| PoolTheorems.AtMostOnce | amd/src/gcn_pool.hpp:112-114 | no index of a launch is ever called twice |
| PoolTheorems.ReturnsAfterAll | amd/src/gcn_pool.hpp:76-118 | a launch returns only after every index 0 .. n - 1 was called exactly once and every call ended, threads refused or not |
| PoolTheorems.RefusalStartsNothing | amd/src/gcn_pool.hpp:101-109 | while a strict launch is being refused and after, it has called nothing and no worker has a task of its, posted, taken or uncounted; once it has thrown, every worker it took is on the idle list with its flag down, or another launch holds it unstarted or has it at work |
| PoolTheorems.StrictHasThreads | amd/src/gcn_pool.hpp:69-75 | a strict launch starts only with a different thread for each task |
| PoolTheorems.StrictTasksMeet | amd/src/gcn_pool.hpp:67-75 | from every state with a strict launch accepted there is a way, ending none of its calls, to every one of its tasks being in its call: tasks that wait for one another meet |
| PoolTheorems.NoTaskOverwritten | amd/src/gcn_pool.hpp:139-143 | a task is put only where no task is, though the worker may not have counted its last one |
| PoolTheorems.TakesItsTask | amd/src/gcn_pool.hpp:148-152 | what a worker takes is a started task, given to it, that its launch waits for |
| PoolTheorems.NeverStuck | amd/src/gcn_pool.hpp:76-165 | while a launch has not finished some launch or worker can take a step |
| PoolTheorems.StepTakesWork | amd/src/gcn_pool.hpp:76-165 | every step but a new launch leaves less to do |
| PoolTheorems.LaunchesEnd | amd/src/gcn_pool.hpp:76-165 | however steps interleave, no more than the work there is can be taken without a new launch |
| AqlRing.PlaceIsRemainder | amd/src/hsa_api.cpp:372-373 | an index's slot is its remainder by the ring's size |
| AqlRing.StepKeepsInv | amd/src/hsa_api.cpp:368-449 | every step of every producer and the processor keeps: over one lap from the first index not given up, a slot's header is set exactly where its index is published, and then it holds that index's packet |
| AqlTheorems.RunKeepsInv | amd/src/hsa_api.cpp:368-449 | the invariant holds in every state of every run |
| AqlTheorems.RunsInOrder | amd/src/hsa_api.cpp:368-449 | the packets run are those reserved for index 0, 1, 2, ... as published: none twice, skipped or changed |
| AqlTheorems.RunsEveryPacket | amd/src/hsa_api.cpp:444-447 | everything below read_index has run |
| AqlTheorems.PlansStay | amd/src/hsa_api.cpp:1147-1150 | what an index was reserved for never changes, and what is published, run or completed stays so |
| AqlTheorems.ClearErasesItsOwn | amd/src/hsa_api.cpp:444-447 | the store of INVALID hits the packet just run and no published packet of a later lap |
| AqlTheorems.BodyOverwritesNothing | amd/src/hsa_api.cpp:368-387 | a producer that waited for room writes only where no packet is |
| AqlTheorems.CompletesOnce | amd/src/hsa_api.cpp:323-325 | each signal has been decremented once for each completed packet that names it |
| AqlTheorems.CompletesWhatRan | amd/src/hsa_api.cpp:444-448 | the packets completed are those run, in order, but for the last while it is at work |
| AqlTheorems.NeverStuck | amd/src/hsa_api.cpp:368-449 | while a reserved index is ahead of the processor, or a packet run and not completed, it or that index's producer can go on |
| AqlTheorems.StepTakesWork | amd/src/hsa_api.cpp:368-449 | every step but a new producer or a new reservation leaves less to do |
| AqlTheorems.WorkEnds | amd/src/hsa_api.cpp:368-449 | however those steps interleave, no more of them can be taken than the work there was |
| AqlTheorems.EverythingRuns | amd/src/hsa_api.cpp:368-449 | where none can be taken, every packet reserved is published, has run in order and is completed |
| HostcallSystem.EntryDecodes | amd/src/hostcall.cpp:136-139 | over a power of two packets, the word of an entry is never the empty stack's zero, and its bitwise and with the index mask is the packet's index |
| HostcallTheorems.WordsRead | amd/src/hostcall.cpp:122-139 | in every state of every run the word of each stack's top, and of the host's, is zero exactly where nothing is there, and masked it is the index of the first packet |
| HostcallSystem.EntriesDiffer | amd/src/hostcall.cpp:64-71 | two entries are one word only where index and tag agree |
| HostcallSystem.InitialIsOk | amd/src/hostcall.cpp:64-76 | the constructor's stacks: every packet on the free stack, none ready |
| HostcallSystem.StepKeepsInv | amd/src/hostcall.cpp:122-159 | every step of the host and the waves keeps: the stacks' links lead through exactly the packets that are there, and every packet is in one place |
| HostcallTheorems.RunKeepsInv | amd/src/hostcall.cpp:122-159 | the invariant holds in every state of every run |
| HostcallTheorems.InOnePlace | amd/src/hostcall.cpp:64-159 | every packet is exactly one of free, one wave's, ready, taken by the host, or being served; and the links from each stack's top, and the host's, lead through exactly the packets that are there |
| HostcallTheorems.ServedAtMostOnce | amd/src/hostcall.cpp:122-159 | no call is served twice, and one that has not been is in its packet still |
| HostcallTheorems.AnswerIsOwn | amd/src/hostcall.cpp:154-156 | a wave that sees its ready bit cleared has had its own call served, once |
| HostcallTheorems.ServiceAnswersReady | amd/src/hostcall.cpp:122-159 | one service answers exactly the calls on the ready stack when it is taken, in stack order, whatever the waves do meanwhile |
| HostcallTheorems.HostNeverBlocked | amd/src/hostcall.cpp:138-158 | the walk always has a next step |
| HostcallTheorems.WalkEnds | amd/src/hostcall.cpp:138-158 | each step of the walk leaves less, and no wave can add to it: recycled packets do not lengthen it |
| HostcallTheorems.PopIsSafe | amd/src/hostcall.cpp:64-71 | the tags: a pop whose compare-and-swap succeeds takes the top packet and leaves the rest of the stack |
| Printf.DescriptorReads | amd/src/hostcall.cpp:35-40 | a descriptor's fields are read back as they were put in |
| Printf.Service.ServeLane | amd/src/hostcall.cpp:250-271 | one lane's part of serve_printf: table, answer, and the error of a message that never began |
| Printf.Service.Serve | amd/src/hostcall.cpp:247-272 | the active lanes in lane order; an error leaves the lanes after it alone |
| Printf.SlotsAnswered | amd/src/hostcall.cpp:247-272 | an active lane's slot becomes its answer, a zero and the rest of what it had; an inactive lane's is kept |
| Printf.MessagesAreWhole | amd/src/hostcall.cpp:247-272 | over any interleaving of any senders' events, the messages formatted are those that ended, each its own sender's words from first to last |
| Printf.PacketIsDelivery | amd/src/hostcall.cpp:247-272 | the lanes of a packet, served together and told their answers together, are its active lanes' events delivered in lane order |
| Printf.PacketMessagesAreWhole | amd/src/hostcall.cpp:247-272 | over any run of packets of any lanes: no lane of a next packet that keeps the protocol is refused, the messages formatted are exactly those that ended, each whole, and the table has one message for each sender still in one |
| Printf.TableIsUnfinished | amd/src/hostcall.cpp:247-272 | the table holds exactly the messages begun and not ended, with the words sent so far |
| Printf.ConformingIsAnswered | amd/src/hostcall.cpp:260-269 | a sender that keeps the protocol is answered its id until its message ends, and never an error |
| Printf.UnknownIsRefused | amd/src/hostcall.cpp:257-259 | after any delivery, a continuation is refused exactly where no sender in a message has that id, and changes nothing |
| Bundle.LittleReads | amd/src/bundle.cpp:57-74 | a field is read as the number whose base-256 digits its bytes are, the lowest first |
| Bundle.EntriesAreWritten | amd/src/bundle.cpp:57-74 | the table read from bytes is these entries if and only if from byte 24 on the bytes are the count and then each entry's offset, size, name length and name, the numbers written out by digits |
| Bundle.BundleReads | amd/src/bundle.cpp:57-74 | entries written after the magic, whatever follows, inflate to themselves and the wanted ones' bytes |
| Bundle.EntriesStable | amd/src/bundle.cpp:57-74 | a table read from the start of a bundle is the whole bundle's |
| Bundle.ReadEntries | amd/src/bundle.cpp:57-74 | the loop reads the table, or says the bytes do not reach its end |
| Bundle.WalkIsTable | amd/src/bundle.cpp:57-74 | with the source's 64-bit sums the walk of the table is the model's exactly where none of its sums reaches 2^64; where one does, its test passes and the read runs past the bytes |
| Bundle.WrappedLengthPasses | amd/src/bundle.cpp:64-68 | a length field of 2^64 - 1 is such a sum |
| Bundle.InsideIsPassing | amd/src/bundle.cpp:163-170 | no wanted entry runs past the end if and only if every wanted entry passes the source's wrapping test and none of their sums reaches 2^64 |
| Bundle.WrappedEndPasses | amd/src/bundle.cpp:168-169 | an offset of 2^64 - 16 and a size of 32 pass the wrapping test and are not inside |
| Bundle.MakePlan | amd/src/bundle.cpp:159-174 | fails exactly where a wanted entry runs past the end; else each wanted entry's place follows those before it |
| Bundle.Keep | amd/src/bundle.cpp:175-183 | a piece brings every kept entry from the bytes known before it to those known after, whatever their overlap |
| Bundle.InflateOnce | amd/src/bundle.cpp:247-264 | the entries and the wanted ones' code, or failure, as the reference says |
| Bundle.InflateStream | amd/src/bundle.cpp:195-243 | for every cutting of the inflated bundle into pieces: the same entries and bytes as the whole, or failure exactly where the whole fails |
| Msgpack.BigReads | amd/src/codeobject.cpp:96-101 | a field is read as the number whose base-256 digits its bytes are, the highest first |
| Msgpack.ReadBig | amd/src/codeobject.cpp:96-101 | the loop reads a big-endian number, or fails past the end of the file |
| Msgpack.ReadHead | amd/src/codeobject.cpp:107-170 | the tag and its number announce what the reader function says |
| Msgpack.ReadValue | amd/src/codeobject.cpp:103-173 | the recursion and its cursor are the reader function |
| Msgpack.ReadItems | amd/src/codeobject.cpp:116-120 | the array loop runs the cursor from value to value |
| Msgpack.ReadPair | amd/src/codeobject.cpp:123-126 | a key and its value, or failure where either fails |
| Msgpack.ReadPairs | amd/src/codeobject.cpp:121-128 | the map loop, key and value in turn |
| MsgpackTheorems.RoundTrip | amd/src/codeobject.cpp:103-173 | every legal encoding of every value nested at most 32 deep, integers in int64 range, is read as that value with the cursor just past it |
| MsgpackTheorems.ReadsOnlyEncodings | amd/src/codeobject.cpp:103-173 | whatever is read, over any bytes, those bytes encode, a uint 64 past the int64 range taken modulo 2^64; and it nests at most 32 deep |
| MsgpackTheorems.ValuesCostBytes | amd/src/codeobject.cpp:103-173 | a value read has no more values in it than bytes it took, whatever counts they claim |
| MsgpackTheorems.Uint64Reads | amd/src/codeobject.cpp:153-153 | a uint 64 whose bytes are the digits of n is read as n exactly where n fits int64_t |
| MsgpackTheorems.Uint64Wraps | amd/src/codeobject.cpp:153-153 | bytes of a uint 64 that are read as a number they do not encode |
| ScalarCarry.Scalars.AddU32 | amd/src/gcn_tier.cpp:1762-1766 | the low half of the 64-bit sum, and SCC its carry |
| ScalarCarry.Scalars.AddcU32 | amd/src/gcn_tier.cpp:1767-1771 | the same with SCC added |
| ScalarCarry.Scalars.SubU32 | amd/src/gcn_tier.cpp:1772-1776 | the difference in 32 bits, and SCC whether more was taken than there was |
| ScalarCarry.Scalars.SubbU32 | amd/src/gcn_tier.cpp:1777-1781 | the same with SCC taken too |
| ScalarCarry.CarryIsOverflow | amd/src/gcn_tier.cpp:1762-1771 | after a chain of any number of limbs SCC is set exactly where the sum does not fit, and the limbs are the sum modulo 2^(32 n) |
| ScalarCarry.BorrowIsLess | amd/src/gcn_tier.cpp:1772-1781 | after a chain of differences SCC is set exactly where the second number is larger |
| ScalarCarry.AddChain | amd/src/gcn_tier.cpp:1762-1771 | the chain in place, the result over an operand or apart, is the multi-limb sum |
| ScalarCarry.SubChain | amd/src/gcn_tier.cpp:1772-1781 | the chain in place is the multi-limb difference |

## Left out

- Weak memory ordering, spinning, condition variables, timeouts, signal masks, fork and queue destruction.
- The library's `fma`: it is a parameter, any function that rounds once and gives nothing finite for an operand that is not finite; which NaN it gives is not
  modelled.
- The Newton-Raphson steps between `div_scale` and `div_fmas`: they are the compiler's.
- What the other waves of a group do while a store waits at the gate: a round of waves is not modelled.
- LDS byte and halfword accesses (`h_dsn`), atomics other than `ds_add_u32`, and the interpreter's LDS instructions.
- The bit tricks that walk EXEC (count trailing zeros, clear lowest bit): lanes are walked by index.
- The tier's masked register moves and its 64-bit register loads and stores (`merge`, `store64`, `load64`).
- `k` and the exponents inside `scaled_fma` are unbounded: the source's `int` and its range are not modelled.
- Packet contents of an AQL queue: what a dispatch or barrier packet does is one step, and a failed packet with no callback ends the program.
- `hsa_queue_store_write_index` used to move the index back, and the shared-signal counts.
- Hostcall services other than printf, formatted text (only its length), and a service that ends in an error halfway through the walk.
- Tags, message ids, queue numbers and ring indices are unbounded: their 64-bit wrap-around is not modelled.
- Bundle headers whose sums reach 2^64: the methods add without wrapping, which `Bundle.WalkIsTable` and `Bundle.InsideIsPassing` say is
  the source exactly where none does; a total of kept sizes past 2^64 is not modelled.
- Decompression itself, the compressed header, and which targets a device wants (`target_of`, `generic_of`, `fit`, `code_for`): any choice of entries is covered.
- ELF reading, symbols, relocation and `place_globals`.
- Opcode tables, the interpreter, the debugger, topology and attribute queries.

# A verified model of the Wi-Fi driver's bookkeeping cores

This project models five independent parts of the driver and proves what they keep and what they compute.

- **Command thread** (`CmdThread`, `CmdThreadRun`, `CmdPriv`). Submitters, one worker, the queue semaphore, the re-queueing
  at the head while the chip sleeps, the completion object on the submitter's stack, the drain at exit and the next thread's
  start. One step is one critical section or one access to shared memory; the theorems hold for every interleaving.
  `CmdPriv` has the functions of the driver as methods on a mutable record, each proved to keep the invariant and to
  establish what its caller relies on.
- **eFuse map** (`EfuseLog`, `EfuseDiff`, `EfuseMap`). A one-time-programmable log of packets, its decoder, and the two-pass
  writer. `EfuseLog` says what a log means and proves that the decoder inverts the encoder; `EfuseDiff` says which packets a
  write needs, without loops; `EfuseMap` holds the device and the loops.
- **Beamforming sounding** (`Beamforming`, `BeamformingRun`, `BeamformingLists`, `BeamformingInfo`). Timers, commands and
  firmware events drive a state machine whose handler and end routine call each other. Termination, one outstanding
  continuation, the schedule; `BeamformingLists` says which beamformees a period is for, without the loop that lists them.
- **NAT2.5 bridge** (`Nat25Spec`, `Nat25Table`, `Nat25Arms`, `Nat25Frames`, `Nat25Delivery`, `Nat25Connect`, `Skbuff`, `Vlan`,
  `PppoeTags`, `PppoeRelay`, `Pppoe`). A chained hash table with back pointers, relinked in place, proved to be a map with ages and use counts; the
  frame handlers, which move bytes in a socket buffer in place, proved against functions on the frame's memory; the PPPoE
  relay tag (RFC 2516, section 4 and Appendix A) and the 802.1Q tag as pairs of operations that undo each other.
  `Nat25Delivery` and `Nat25Connect` say where each frame goes, and what it teaches, without the functions of the arms.
- **Soft AP** (`ApProtection`, `ApStations`, `BeaconElems`, `BeaconBuf`, `BeaconTimer`). Station flags against BSS counters,
  HT and ERP protection, element editing in the beacon buffer, the TIM, and the beacon timer's arithmetic.

Each part has a specification on values (functions and step systems), classes whose methods have the driver's loops and
branches and whose contracts give the whole new state in terms of that specification, and theorems that say what the
specification means in other terms: by bits and raw addresses, by what was announced or asked for, over whole runs.
`Bytes` has what the byte-level parts share. `dafny verify dfyconfig.toml` checks everything.

Where the code does not do what it is for, the exact condition is proved.

- A submitter that has passed the filter when the thread clears `cmdthd_running` can queue a command after the drain
  (`CmdThreadRun.StrandedExactly`, `CmdThreadRun.StrandedRun`). It is run and freed by the next thread, if one is started,
  and not otherwise (`CmdThreadRun.RetiredByNext`, `CmdThreadRun.RestartedRun`).
- A waited command larger than `MAX_CMDSZ` is freed, but its submitter is told that it was queued; when it gives up
  waiting it writes to the freed command (`CmdThreadRun.GiveUpExactly`, `CmdThreadRun.WildOnlyOversized`,
  `CmdThreadRun.OversizedRun`). All waited commands of the driver today have small parameter blocks.
- When the driver takes a sleeping chip to be awake without a CPWM report (`core/rtw_pwrctrl.c:558`, `885`, `1217`), a
  command put back at the head waits until something else wakes the worker: exactly when that came after the last report
  and the last time the chip went to sleep (`CmdThreadRun.NoLostWakeup`, `CmdThreadRun.LeftAsleepRun`).
- A forced stop while no sounding is on the air breaks the counting of running periods (`BeamformingRun.ForcedStopExact`),
  and it happens when the command thread does not get to a START for four ticks (`BeamformingRun.StuckRun`).
- An empty relay tag does not survive the round trip (`PppoeRelay.RestoredExactly`, `PppoeRelay.EmptyTagLost`), and a PADI
  or PADR refused for lack of room has already lost its relay tag (`PppoeRelay.InsertMeaning`,
  `PppoeRelay.RefusedWithoutTag`). The stored tag length is
  used unswapped once; the round trip is proved for hosts on which that makes no difference, and
  `PppoeRelay.SwappedLength` says which frames are refused on others and for which ones bytes are copied from beyond the
  tag buffer (`PppoeRelay.OverReadReached`).
- A station that re-joins without having left keeps its greenfield and 20 MHz flags (`ApProtection.RecordByField`,
  `ApProtection.RecordExactly`, `ApProtection.RejoinStale`), so the operation mode follows the recorded flags, not always the announced abilities.
- The Barker-preamble bit can go stale (`ApProtection.BarkerOverRun`, `ApProtection.BarkerExactly`,
  `ApProtection.BarkerCanBeStale`).
- The TIM puts the high octet where the low one belongs when only associations 8 to 15 wait (`BeaconElems.TimDecodes`,
  `BeaconElems.TimMisplaced`).
- A missing TIM goes three octets behind the rates, whatever is there. It is lost, and the element it was put into broken,
  exactly when no element starts at that place (`BeaconBuf.TimReached`, `BeaconBuf.TimCutsCountry`).
- An element is silently not added when the element to go by is missing or empty (`BeaconElems.Editable` in the contract of
  `BeaconBuf.Beacon.AddBcnIe`; `BeaconElems.AddedExactly`, `BeaconElems.NothingBehindEmpty`).
- The TSF fold loses multiples of 2^32 when its 32-bit sum overflows (`BeaconTimer.FoldExact`), for the
  first time after some two hours and 23 minutes (`BeaconTimer.FoldFirstWrong`), and with six or
  more interfaces the moment at which a beacon's timer is to expire can have passed, upon which it is armed for more than an
  hour (`BeaconTimer.Arm`, `BeaconTimer.TooLateExactly`). The correction of a delay longer than one and a half slots is
  never made for such a delay when several interfaces share the interval (`BeaconTimer.EarlySlot`).

## Model

| member | source | states |
|---|---|---|
| `CmdThreadRun.StepKeeps` | core/rtw_cmd.c:433-735 | every step of every thread (submitter, timeout, worker, CPWM report, drain, the next thread's start) keeps the invariant on queue order, buffers, completion objects and wake-ups |
| `CmdThreadRun.RunKeeps` | core/rtw_cmd.c:433-735 | the invariant holds in every state of every interleaving, over any number of lives of the thread |
| `CmdThreadRun.HandshakeSafe` | core/rtw_cmd.c:651-682 | the worker handles only commands still allocated, and signals through a pointer only while its waiter has not returned |
| `CmdThreadRun.GiveUpExactly` | core/rtw_cmd.c:450-475 | a waiter that gives up clears the pointer of a command still allocated exactly when the command is not oversized; otherwise it writes to freed memory |
| `CmdThreadRun.WildOnlyOversized` | core/rtw_cmd.c:450-475 | a write after the free happens only to a waited, oversized command that was never queued, and to each of those whose waiter gives up |
| `CmdThreadRun.OversizedRun` | core/rtw_cmd.c:450-475 | a run with that write: filter passed, size refused, waiter times out |
| `CmdThreadRun.SignalledOrDetached` | core/rtw_cmd.c:1289-1302 | of an accepted waited command whose submitter is back, exactly one of "signalled" and "detached" has happened, once |
| `CmdThreadRun.OrderKept` | core/rtw_cmd.c:246-365 | retired commands, the one in hand and the queue are together the accepted sequence, also when the head was put back |
| `CmdThreadRun.RequeueKeeps` | core/rtw_cmd.c:618-637 | putting the command in hand back at the head leaves the order alone and loses no wake-up, also when the report came between the failed registration and the insertion |
| `CmdThreadRun.RegisterKeeps` | core/rtw_pwrctrl.c:1727-1758 | registering CMD_ALIVE, or giving it up for a command that needs no chip, keeps the invariant |
| `CmdThreadRun.NoLostWakeup` | core/rtw_pwrctrl.c:1401-1440 | a parked worker with a non-empty queue has the semaphore up, an inserter about to raise it, or a head that needs the chip with CMD_ALIVE registered, so that the next report raises it; in the last case the chip sleeps and the report is to come exactly if the driver was not the last to declare the chip awake |
| `CmdThreadRun.LeftAsleepRun` | core/rtw_pwrctrl.c:553-561 | a run in which it was: the command put back could be run, and the worker stays parked |
| `CmdThreadRun.ReportWakes` | core/rtw_pwrctrl.c:1401-1440 | when neither of the other causes is there, the report leaves the chip awake, the semaphore up and the command at the head |
| `CmdThreadRun.BufferReleasedOnce` | core/rtw_cmd.c:450-512 | the extra buffer is released at most once, exactly once by the time the command is gone or turned away, and before the parameter block |
| `CmdThreadRun.StrandedExactly` | core/rtw_cmd.c:697-721 | when the thread is gone, the commands accepted before its drain ended have been retired and their buffers released, and exactly those; the others are still queued |
| `CmdThreadRun.RetiredByNext` | os_dep/os_intfs.c:1739-1748 | a command queued while there is no thread has been retired, with its buffer, by the time the next thread has gone, and only if one was started |
| `CmdThreadRun.RestartKeeps` | core/rtw_cmd.c:538-543 | a thread started on what was left keeps the invariant |
| `CmdThreadRun.NoneAcceptedAfterExit` | core/rtw_cmd.c:392-431 | only a submitter already past the filter can queue a command after the thread has gone |
| `CmdThreadRun.QueuedExactly` | core/rtw_cmd.c:392-465 | a command is let through to the queue exactly if the thread runs, the hardware is up or the command is one that may go early, and it is not oversized |
| `CmdThreadRun.HandledExactly` | core/rtw_cmd.c:589-617 | once taken from the queue it goes to its handler exactly if its code has one and the hardware is up now, or it may go early |
| `CmdThreadRun.PutBackExactly` | core/rtw_cmd.c:618-637 | it is put back exactly if it needs the chip and the chip sleeps |
| `CmdThreadRun.StrandedRun` | core/rtw_cmd.c:433-476 | a run to a state without a thread in which a command is queued, its extra buffer not released |
| `CmdThreadRun.RestartedRun` | core/rtw_cmd.c:538-682 | the same command retired by the next thread, which its own wake-up awaits |
| `CmdThreadRun.DetachKeeps` | core/rtw_cmd.c:1289-1302 | the tail of a waiting submitter keeps the invariant whether or not the worker was first |
| `CmdThreadRun.DecideKeeps` | core/rtw_cmd.c:589-617 | the size, command code and filter tests after the dequeue keep it |
| `CmdThreadRun.ExecuteKeeps` | core/rtw_cmd.c:638-650 | and so does the handler |
| `CmdThreadRun.ReleaseKeeps` | core/rtw_cmd.c:494-512 | freeing and retiring the command in hand keeps it |
| `CmdPriv.CommandThread.constructor` | core/rtw_cmd.c:524-545 | a started thread is a starting state of the step system |
| `CmdPriv.CommandThread.EnqueueCmd` | core/rtw_cmd.c:392-465 | the answer is "queued" exactly if the thread runs and the hardware is up or the command may go early; a command not let through is not queued and has been released, all of it and once, whatever the answer; an oversized one whose answer is "queued" leaves its submitter waiting |
| `CmdPriv.CommandThread.InsertTail` | core/rtw_cmd.c:246-305 | the command stands last in the accepted order, and a wake-up is owed |
| `CmdPriv.CommandThread.UpQueueSema` | core/rtw_cmd.c:467-470 | the wake-up is there; a submitter that now waits has a command that is not oversized |
| `CmdPriv.CommandThread.WaitTail` | core/rtw_cmd.c:1289-1302 | afterwards no command points at the waiter's frame and exactly one of "signalled" and "detached" has happened; freed memory was written exactly if the command was oversized |
| `CmdPriv.CommandThread.DequeueCmd` | core/rtw_cmd.c:307-365 | the first accepted command not retired yet; none exactly when all are retired |
| `CmdPriv.CommandThread.LoopHead` | core/rtw_cmd.c:546-578 | keeps the invariant; the worker goes back to sleep only on an empty queue, and leaves exactly when it finds the driver stopped |
| `CmdPriv.CommandThread.TakeNext` | core/rtw_cmd.c:578-588 | the worker holds the next command in accepted order, or all are retired and CMD_ALIVE is given up |
| `CmdPriv.CommandThread.DecideCmd` | core/rtw_cmd.c:589-617 | the command goes on to its handler exactly if its code has one and the hardware is up, or it may go early; one that skips its handler holds no extra buffer any more |
| `CmdPriv.CommandThread.RegisterAlive` | core/rtw_cmd.c:618-628 | a command is put back exactly if it needs the chip and the chip sleeps, and then with CMD_ALIVE registered and a report to come; one about to run has it registered exactly if it needs the chip |
| `CmdPriv.CommandThread.RequeueHead` | core/rtw_cmd.c:627-637 | the command keeps its turn, and the semaphore is up or the next report raises it |
| `CmdPriv.CommandThread.ExecuteCmd` | core/rtw_cmd.c:638-650 | the handler finds the extra buffer there and leaves it released |
| `CmdPriv.CommandThread.PostProcess` | core/rtw_cmd.c:651-662 | the pointer is followed only to a waiter still there; afterwards the command points at no frame and has been signalled or detached, not both (also at the end of the drain, 712-721) |
| `CmdPriv.CommandThread.Retire` | core/rtw_cmd.c:664-682 | every part of the command has been freed exactly once, and it was its turn |
| `CmdPriv.CommandThread.DrainNext` | core/rtw_cmd.c:697-701 | takes the next command in accepted order; the thread is gone exactly when all accepted ones are retired |
| `CmdPriv.CommandThread.DrainFreeBuf` | core/rtw_cmd.c:703-712 | a drained command still has its buffer, and loses it here |
| `CmdPriv.CommandThread.Restart` | core/rtw_cmd.c:538-543 | the next thread finds the accepted commands that have not been retired, and a wake-up for them if there are any |
| `EfuseMap.Efuse.MapWrite` | core/rtw_efuse.c:1312-1457 | a refused request or budget changes nothing; after success the map the log decodes to is the target, the log has grown by the budgeted bytes and stays below the limit; after a failed packet the sections below it hold the target and the others the old map; only erased bytes are ever programmed |
| `EfuseMap.Efuse.WrittenUnderFile` | core/rtw_efuse.c:39-54 | after a successful write under the mask file of a set W of writable words, exactly the requested bytes of words in W have changed, to what was requested |
| `EfuseMap.Efuse.WriteDifference` | core/rtw_efuse.c:1365-1442 | the two passes after the mask: refused without a change when the charge does not fit, else the difference programmed up to the first refused packet |
| `EfuseMap.Efuse.ReadMap` | core/rtw_efuse.c:591-689 | replaying the raw bytes gives the map the packets stand for |
| `EfuseMap.Efuse.AnalyzePacket` | core/rtw_efuse.c:596-681 | one turn of the decode loop, with both header forms, the illegal-section skip and the stop cases |
| `EfuseMap.Efuse.ReadSection` | core/rtw_efuse.c:630-668 | the word loop of the decoder |
| `EfuseMap.Efuse.BudgetPass` | core/rtw_efuse.c:1365-1403 | charges exactly the specified budget |
| `EfuseMap.Efuse.ScanSection` | core/rtw_efuse.c:1369-1387 | the inner loop enables exactly the words of the section that differ, and stops at the section's end |
| `EfuseMap.Efuse.WritePass` | core/rtw_efuse.c:1407-1442 | programs the difference packets in section order and stops at the first refused one |
| `EfuseMap.Efuse.BuildSection` | core/rtw_efuse.c:1407-1420 | the inner loop builds the section's new image and word enables |
| `EfuseMap.Efuse.PgPacketWrite` | core/rtw_efuse.c:559-561 | appends one header and the enabled words at the first erased byte, and keeps the store well formed |
| `EfuseMap.Efuse.MaskData` | core/rtw_efuse.c:1351-1361 | masked bytes of the request take the value the map holds |
| `EfuseLog.HeaderReadsBack` | core/rtw_efuse.c:596-620 | an emitted header reads back as its section and word enables, is not the 0xFF terminator and is not taken for the other form |
| `EfuseLog.DecodeInvertsEncode` | core/rtw_efuse.c:591-689 | decoding an encoded log followed by erased bytes gives its meaning |
| `EfuseLog.DecodeLog` | core/rtw_efuse.c:591-689 | the same from any address |
| `EfuseLog.ReadWordsMerges` | core/rtw_efuse.c:630-668 | reading the enabled words of a packet merges exactly them |
| `EfuseLog.ReadWordsBytes` | core/rtw_efuse.c:630-668 | at which raw address each octet of the map comes from: the enabled words stand packed one after the other, the low octet of a word first, and nothing else of the map changes |
| `EfuseLog.NoRoomForWord` | core/rtw_efuse.c:630-637 | without room for a word and one more octet none is read |
| `EfuseLog.PacketOnArray` | core/rtw_efuse.c:596-668 | what a packet at a raw address says, bit by bit: both header forms, the section, the word enables, the words, and the next address; an illegal section is stepped over |
| `EfuseLog.NoPacketOnArray` | core/rtw_efuse.c:591-620 | where the walk over the array ends, and the two-octet header it steps over |
| `EfuseLog.EnableWordBits` | core/rtw_efuse.c:1379-1383 | enabling one word leaves the other bits of the nibble |
| `EfuseLog.EncodeAllAppend` | core/rtw_efuse.c:559-561 | a longer log is encoded by appending |
| `EfuseDiff.PacketsReach` | core/rtw_efuse.c:1407-1442 | programming the difference of the first n sections turns exactly those into the target |
| `EfuseDiff.BudgetIsSize` | core/rtw_efuse.c:1365-1403 | the budget is the number of bytes the write pass appends |
| `EfuseDiff.FullScan` | core/rtw_efuse.c:1369-1387 | scanning all eight bytes finds exactly the words that differ |
| `EfuseDiff.PartialEnableMeaning` | core/rtw_efuse.c:1369-1387 | a word is enabled when one of its two scanned bytes differs, half-covered words included |
| `EfuseDiff.RepeatProgramsNothing` | core/rtw_efuse.c:1365-1442 | repeating a write that reached its target programs no packet and charges nothing |
| `EfuseDiff.MaskFileMeans` | core/rtw_efuse.c:39-54 | a mask file written row by row from a set W of writable words (the first four words of a row in the high nibble) masks exactly the bytes of words outside W |
| `EfuseDiff.EveryMaskFile` | core/rtw_efuse.c:39-54 | every mask file is that of the words it marks |
| `EfuseDiff.TargetUnder` | core/rtw_efuse.c:1351-1361 | the map asked for: the requested bytes that the mask leaves free, under each of the three kinds of mask, and elsewhere the old map |
| `EfuseDiff.FileMaskWordGranular` | core/rtw_efuse.c:39-54 | the file mask treats both bytes of a word alike |
| `EfuseDiff.MaskedWordNeverProgrammed` | core/rtw_efuse.c:1351-1387 | a word any of whose bytes the file mask covers is enabled in no packet, for any range |
| `Beamforming.Handler` | core/rtw_beamforming.c:712-859 | the direct recursion handler, end, handler ends: the measure is (state is INIT, unsounded listed entries) |
| `Beamforming.Down` | core/rtw_beamforming.c:1498-1557 | the same for _beamforming_sounding_down |
| `Beamforming.StartSuLess` | core/rtw_beamforming.c:784-808 | starting a listed entry leaves fewer unsounded ones |
| `Beamforming.ListingShape` | core/rtw_beamforming.c:625-710 | the lists hold entry indices in increasing order, without repeats, and fit their arrays |
| `BeamformingRun.StepKeeps` | core/rtw_beamforming.c:712-956 | every event keeps "exactly one continuation", the schedule and the entry flags |
| `BeamformingRun.RunKeeps` | core/rtw_beamforming.c:712-956 | so every state of a calm run has them |
| `BeamformingRun.ScheduleFollowed` | core/rtw_beamforming.c:784-858 | a period sends an initial part of its schedule and, once over, all of it: each listed SU entry once in list order, then the MU group at most once |
| `BeamformingRun.EndAlwaysGoesOn` | core/rtw_beamforming.c:1510-1532 | the bSoundingTimeout early return is never taken |
| `BeamformingRun.ForcedStopExact` | core/rtw_beamforming.c:861-881 | a forced stop keeps the invariant exactly when a sounding is on the air |
| `BeamformingRun.StuckRun` | core/rtw_beamforming.c:861-925 | a run to a state in which it is not: the START is not handled for four ticks, and the fifth takes the running count to 0 with the START still queued |
| `BeamformingRun.HandlerKeeps` | core/rtw_beamforming.c:712-859 | the handler re-establishes the invariant from a taken continuation |
| `BeamformingRun.DownKeeps` | core/rtw_beamforming.c:1498-1557 | so does the end of a sounding |
| `BeamformingRun.TimeoutKeeps` | core/rtw_beamforming.c:927-956 | and the timeout timer |
| `BeamformingRun.TickKeeps` | core/rtw_beamforming.c:883-925 | and the period timer |
| `BeamformingInfo.SoundingInfo.ResetVars` | core/rtw_beamforming.c:593-616 | clears the flags of the last period's entries and empties the lists |
| `BeamformingInfo.SoundingInfo.GetList` | core/rtw_beamforming.c:625-710 | builds the lists of the specification, which are those of BeamformingLists.ListedExactly; -1 and -2 tell "nothing to do" from "not ready" |
| `BeamformingInfo.SoundingInfo.SoundingHandler` | core/rtw_beamforming.c:712-859 | the whole new state is that of the handler function; who is sounded is said by BeamformingLists.PeriodSounds |
| `BeamformingInfo.SoundingInfo.SoundingDown` | core/rtw_beamforming.c:1498-1557 | the whole new state is that of the end function |
| `BeamformingInfo.SoundingInfo.SoundingTimerHandler` | core/rtw_beamforming.c:883-925 | keeps the invariant exactly when it does not stop a period by force, or a sounding is on the air |
| `BeamformingInfo.SoundingInfo.SoundingForceStop` | core/rtw_beamforming.c:861-881 | with a sounding on the air its end is queued and the invariant kept; without, no period is counted although its START is queued |
| `BeamformingInfo.SoundingInfo.SoundingTimeoutTimerHandler` | core/rtw_beamforming.c:927-956 | keeps the invariant; a sounding on the air is replaced by one queued START as what carries the period on, and its entry is marked |
| `BeamformingInfo.SoundingInfo.C2hSndTxbf` | core/rtw_beamforming.c:1559-1572 | keeps the invariant: a queued end takes the place of the timer |
| `BeamformingInfo.SoundingInfo.BfCmdHdl` | core/rtw_beamforming.c:1812-1845 | takes the head of the command queue and runs its handler |
| `BeamformingLists.ListedExactly` | core/rtw_beamforming.c:625-710 | the lists are of the first two entries that want SU sounding (used, ready, due, not MU, SU, on their way out or asked for and not suspended) and the first six that want MU sounding; what every sounding count becomes, and how many were not ready |
| `BeamformingLists.CandidatesExactly` | core/rtw_beamforming.c:593-710 | the candidates after listing: the entries listed but for those on their way out, and candidates of earlier periods not sounded since |
| `BeamformingLists.BeginExactly` | core/rtw_beamforming.c:726-782 | a START begins a period exactly if somebody wants sounding and no scan is on, and the plan is for exactly those |
| `BeamformingLists.GroupExactly` | core/rtw_beamforming.c:625-710 | the listed group is of the first six entries that want MU sounding |
| `BeamformingLists.PutOffExactly` | core/rtw_beamforming.c:726-776 | otherwise a scan puts the period off; with nobody to sound it ends, at once if everybody is ready and else at the sixth time |
| `BeamformingLists.PeriodSounds` | core/rtw_beamforming.c:712-858 | what a period has sent at any moment is for entries that wanted sounding when it began, and once over it is for all of them |
| `BeamformingLists.GroupGoesOut` | core/rtw_beamforming.c:816-850 | with the SU entries done the listed group goes out, and exactly its members are marked |
| `BeamformingLists.EndExactly` | core/rtw_beamforming.c:1498-1557 | a success clears the failures, the last sounding of an entry on its way out ends that, and the 31st failure has the beamformee leave |
| `BeamformingLists.TimedOutEnd` | core/rtw_beamforming.c:1510-1532 | an end for an entry that timed out only clears the flag |
| `BeamformingLists.TrafficDue` | core/rtw_beamforming.c:1962-2005 | traffic that starts asks for sounding at once, and traffic that ends for one more |
| `BeamformingLists.TrafficSame` | core/rtw_beamforming.c:1962-2005 | traffic that goes on as it was changes nothing |
| `Nat25Spec.UseCount` | core/rtw_br_ext.c:412-521 | after any run a linked entry's use count is 1 + live lookups - expired passes since it was created, and at least 1 |
| `Nat25Spec.StaysLearned` | core/rtw_br_ext.c:412-521 | whatever else happens in between, an address leads to the client last seen using it until it expires |
| `Nat25Spec.RefreshStays` | core/rtw_xmit.c:3896-3930 | a refresh starts the ageing of that entry anew and leaves its client, then and later, and its use count |
| `Nat25Spec.CountsDown` | core/rtw_br_ext.c:640-725 | over any run, an entry with use count n that is no longer looked up live or refreshed survives every pass that finds it expired but the n-th, with its count less by the number of those passes, and goes with the n-th |
| `Nat25Spec.ExpiryPasses` | core/rtw_br_ext.c:640-725 | what one pass does to each key: nothing to a live one; an expired one loses a use, and goes with the last |
| `Nat25Spec.ExpiredMeansOld` | core/rtw_br_ext.c:145-162 | on the wrapping clock "expired" means that the ageing time has passed since the last refresh, and less than half the clock's range more |
| `Nat25Table.Bridge.Find` | core/rtw_br_ext.c:420-476 | the chain search finds the entry exactly when the map has the key |
| `Nat25Table.Bridge.HashLink` | core/rtw_br_ext.c:379-393 | links at the head; every next_hash and pprev_hash of the longer chain is right |
| `Nat25Table.Bridge.HashUnlink` | core/rtw_br_ext.c:396-409 | unlinks through the back pointer wherever the entry is; the rest is a right chain |
| `Nat25Table.Bridge.LookupAndReplace` | core/rtw_br_ext.c:412-483 | an expired entry is found but replaces nothing; a live one is counted |
| `Nat25Table.Bridge.DbInsert` | core/rtw_br_ext.c:486-521 | refreshes MAC and age, keeping the use count, or links a new entry |
| `Nat25Table.Bridge.DbExpire` | core/rtw_br_ext.c:640-725 | for every key: a live entry is untouched, an expired one loses a use (atomic_dec_and_test at 656) and is unlinked with the last; the shortcut is cleared exactly if its entry went |
| `Nat25Table.Bridge.ExpireOne` | core/rtw_br_ext.c:690-720 | the same for one entry |
| `Nat25Table.Bridge.DbCleanup` | core/rtw_br_ext.c:611-637 | empties every chain and clears the shortcut |
| `Nat25Table.Bridge.SetShortcut` | core/rtw_xmit.c:3918-3930 | the shortcut points at a linked entry or at nothing |
| `Nat25Table.Bridge.RefreshShortcut` | core/rtw_xmit.c:3896-3900 | refreshes the age of the entry the shortcut points at |
| `Nat25Table.CutChain` | core/rtw_br_ext.c:396-409 | what unlinking leaves is the chain without that entry |
| `Nat25Table.PushChain` | core/rtw_br_ext.c:379-393 | what linking leaves is the chain with the entry in front |
| `Nat25Arms.VlanConjugation` | core/rtw_br_ext.c:1408-1455 | handling a tagged unicast frame is handling the untagged one and putting the identical tag back |
| `Nat25Arms.PayloadKept` | core/rtw_br_ext.c:1408-1455 | IP and ARP lookups change no byte behind the destination MAC except the ARP target MAC |
| `Nat25Arms.ClientReached` | core/rtw_br_ext.c:772-833 | once a client's IP packet has been seen, a downlink frame for its address, tagged or not, is sent to that client's MAC until the entry expires |
| `Nat25Arms.Ipv6ClientReached` | core/rtw_br_ext.c:1317-1380 | the same for IPv6 |
| `Nat25Arms.SessionReached` | core/rtw_br_ext.c:1174-1265 | the same for a PPPoE session: what its access concentrator sends in it goes to the client |
| `Nat25Arms.ArpReached` | core/rtw_br_ext.c:870-888 | an ARP message for a remembered address goes to its client and names it as target |
| `Nat25Delivery.UnknownClient` | core/rtw_br_ext.c:798-831 | a frame, tagged or not, for an IPv4 address nobody has been learned for goes to everybody if its last octet is 255 and else to the bridge's MAC, with nothing else changed |
| `Nat25Delivery.ExpiredClient` | core/rtw_br_ext.c:412-483 | one for an expired entry keeps its destination, and is not counted |
| `Nat25Delivery.KnownClient` | core/rtw_br_ext.c:798-831 | one for a live entry goes to its client and is counted |
| `Nat25Delivery.ShortcutTaken` | core/rtw_br_ext.c:1424-1432 | the shortcut's address leads to scdb_mac without a look at the table |
| `Nat25Delivery.NatOff` | core/rtw_br_ext.c:1433-1445 | with NAT2.5 off only IPv4 to, and ARP for, the bridge is touched, and as with NAT2.5 on and the shortcut off |
| `Nat25Delivery.MulticastLeft` | core/rtw_br_ext.c:1408-1410 | multicast frames are left alone |
| `Nat25Delivery.UnknownElsewhere` | core/rtw_br_ext.c:1249-1265 | IPv6 and PPPoE session frames for nobody known keep their destination |
| `Nat25Delivery.UnknownArp` | core/rtw_br_ext.c:870-888 | so does ARP, which names it as target |
| `Nat25Delivery.MalformedRefused` | core/rtw_br_ext.c:756-1317 | frames cut short in their IP header, ARP not for IPv4, and PPPoE frames of neither kind answer -1 unchanged |
| `Nat25Delivery.OtherProtocols` | core/rtw_br_ext.c:1273-1386 | of the rest EAP and two proprietary protocols pass |
| `Nat25Connect.KeysApart` | core/rtw_br_ext.c:165-236 | different addresses have different keys, within a family and across |
| `Nat25Connect.IpLearned` | core/rtw_br_ext.c:784-796 | what an uplink IPv4 packet teaches: its source, unless zero or the header is cut short; a known address keeps its use count, a new one starts at 1 |
| `Nat25Connect.Ipv6Learned` | core/rtw_br_ext.c:1317-1343 | the same for IPv6 |
| `Nat25Connect.ArpLearned` | core/rtw_br_ext.c:852-868 | an uplink ARP message goes on with our MAC as the sender's and teaches its sender address |
| `Nat25Connect.NothingLearned` | core/rtw_br_ext.c:1273-1386 | other protocols teach nothing |
| `Nat25Connect.RequestMeans` | core/rtw_br_ext.c:1131-1200 | without relay tags a request is let through exactly if no connection is being set up or one for the same client, and the setting up is that client's for five more seconds |
| `Nat25Connect.AnswerMeans` | core/rtw_br_ext.c:1246-1256 | an answer goes to the client whose connection is being set up, and is refused without one |
| `Nat25Connect.SessionMeans` | core/rtw_br_ext.c:1182-1200 | the client's first session frame ends the setting up, nobody else's does; either is learned |
| `Nat25Connect.OwnerKept` | core/rtw_br_ext.c:1131-1265 | over any run of requests, answers, sessions and ticks of the timer, the connection being set up is that of the client whose request opened it |
| `Nat25Connect.WithTags` | core/rtw_br_ext.c:1131-1265 | with relay tags that state is not used |
| `Nat25Connect.OtherPppoeRefused` | core/rtw_br_ext.c:1131-1265 | what is neither is refused, and changes nothing |
| `Nat25Frames.Nat25.HandleFrame` | core/rtw_br_ext.c:1408-1460 | the buffer, return value, table and connection state are those of the specification, the VLAN tag shifted out and back in place; where each frame goes is said by Nat25Delivery |
| `Nat25Frames.Nat25.HandleTagged` | core/rtw_br_ext.c:1412-1450 | strip in place, handle, restore in place |
| `Nat25Frames.Nat25.HandleInner` | core/rtw_br_ext.c:1420-1445 | the shortcut, the lookup, or with NAT2.5 off the bridge's own traffic only |
| `Nat25Frames.Nat25.HandleLookup` | core/rtw_br_ext.c:756-1317 | dispatch of NAT25_LOOKUP |
| `Nat25Frames.Nat25.HandleInsert` | core/rtw_br_ext.c:756-1317 | dispatch of NAT25_INSERT |
| `Nat25Frames.Nat25.LookupIp` | core/rtw_br_ext.c:798-831 | the IPv4 arm: known client, L3 broadcast, or the bridge (Nat25Delivery.KnownClient, Nat25Delivery.UnknownClient) |
| `Nat25Frames.Nat25.InsertIp` | core/rtw_br_ext.c:784-796 | learns the source unless the packet is malformed or its address zero |
| `Nat25Frames.Nat25.LookupArp` | core/rtw_br_ext.c:870-888 | the ARP arm: the target MAC follows the destination MAC |
| `Nat25Frames.Nat25.InsertArp` | core/rtw_br_ext.c:852-868 | the sender MAC is overwritten before the sender address is read |
| `Nat25Frames.Nat25.LookupPppoe` | core/rtw_br_ext.c:1202-1265 | answers, sessions, and the mode without relay tags |
| `Nat25Frames.Nat25.InsertPppoe` | core/rtw_br_ext.c:1131-1200 | requests, sessions, and the mode without relay tags |
| `Nat25Frames.Nat25.LookupIpv6` | core/rtw_br_ext.c:1317-1400 | the IPv6 arm: an unknown address is left alone |
| `Nat25Frames.Nat25.InsertIpv6` | core/rtw_br_ext.c:1317-1343 | learns the source unless the packet is malformed or its address zero |
| `Nat25Frames.Nat25.Replace` | core/rtw_br_ext.c:412-483 | the frame's destination becomes the MAC of a live entry |
| `Vlan.Strip` | core/rtw_br_ext.c:1412-1418 | the overlapping upward shift loop removes exactly the four tag bytes |
| `Vlan.Restore` | core/rtw_br_ext.c:1447-1454 | the overlapping downward shift loop puts exactly them back |
| `Vlan.RetagUntag` | core/rtw_br_ext.c:1412-1454 | taking the tag out and putting it back gives the frame |
| `Vlan.UntagRetag` | core/rtw_br_ext.c:1412-1454 | putting a tag in and taking it out gives the frame, and the tag is found again |
| `Skbuff.Skb.PullAndMerge` | core/rtw_br_ext.c:124-143 | removes exactly the bytes asked for, or refuses when they reach past the frame |
| `PppoeTags.FindsFirst` | core/rtw_br_ext.c:87-102 | on an encoded tag list the search finds exactly the first tag of the type |
| `PppoeRelay.InsertMeaning` | core/rtw_br_ext.c:1131-1172 | inserting succeeds exactly when an old relay tag is short enough and the room suffices; then the list has the client's tag in front and nothing else changed; refused for lack of room the old relay tag is already gone |
| `PppoeRelay.StripMeaning` | core/rtw_br_ext.c:1202-1246 | stripping succeeds exactly when the first relay tag is one of ours; the frame goes to the client in it and the list loses what insertion added |
| `PppoeRelay.AnswerReachesClient` | core/rtw_br_ext.c:1202-1246 | wherever the access concentrator put the tag among its own, the answer goes to the client with the client's old tag back |
| `PppoeRelay.RoundTrip` | core/rtw_br_ext.c:1131-1246 | insert, then strip from an answer with the same tag area: destination is the client, tags are the client's, an existing relay tag moved to the front |
| `PppoeRelay.RestoredExactly` | core/rtw_br_ext.c:1131-1246 | tags and length come back exactly when the client had not sent an empty relay tag |
| `PppoeRelay.EmptyTagLost` | core/rtw_br_ext.c:1131-1246 | the smallest list that does not come back |
| `PppoeRelay.SwappedLength` | core/rtw_br_ext.c:105-122 | with the length read in the other byte order, the frame is refused, or bytes are copied from beyond the tag buffer: the latter exactly when an old tag is short enough and the room, with that tag cut out, reaches 256 times the new length and four |
| `PppoeRelay.OverReadReached` | core/rtw_br_ext.c:105-122 | a frame without tags for which that is the case |
| `PppoeRelay.RefusedWithoutTag` | core/rtw_br_ext.c:1131-1172 | a frame refused for lack of room that has lost its relay tag by then |
| `PppoeRelay.RefusedAnyway` | core/rtw_br_ext.c:1131-1246 | what is refused whatever the tags look like: an old relay tag longer than 28 octets or past the frame; no relay tag, one too short or not ours; an answer cut short in its tag, which has been redirected by then |
| `PppoeRelay.AddCarries` | core/rtw_br_ext.c:105-122 | adding a tag puts it in front of the list |
| `PppoeRelay.RemovedCarries` | core/rtw_br_ext.c:124-143 | cutting a tag out leaves the list without it |
| `Pppoe.FindTag` | core/rtw_br_ext.c:87-102 | the search loop on the buffer |
| `Pppoe.Add` | core/rtw_br_ext.c:105-122 | the overlapping move, the new length and the copy |
| `Pppoe.Insert` | core/rtw_br_ext.c:1131-1172 | the request arm on the buffer |
| `Pppoe.Strip` | core/rtw_br_ext.c:1202-1246 | the answer arm on the buffer |
| `ApProtection.RunKeeps` | core/rtw_ap.c:3080-3315 | over any run of joins, re-joins and leaves each counter is the number of stations flagged, and the protection bits say whether a non-ERP station is there |
| `ApProtection.ModeAfterRun` | core/rtw_ap.c:2965-3046 | after any join or leave the operation mode is the documented function of the recorded flags and the overlap flag |
| `ApProtection.RecordByField` | core/rtw_ap.c:3080-3235 | after any run a station's preamble, ERP, slot time and HT flags are up exactly if it last announced to lack the ability (or to be non-ERP); its greenfield and 20 MHz flags exactly if it ever did since it last left |
| `ApProtection.GoneHasNone` | core/rtw_ap.c:3254-3316 | a station that has not come, or has left, has no flag up |
| `ApProtection.CountersByAnnouncement` | core/rtw_ap.c:3108-3235 | each counter is the number of stations that last announced so; the greenfield and 20 MHz counters, that ever did since they last left |
| `ApProtection.ModeByAnnouncement` | core/rtw_ap.c:2965-3046 | after a join or leave the operation mode is the documented function of what the stations announced and the overlap flag |
| `ApProtection.ProtectionByAnnouncement` | core/rtw_ap.c:3130-3154 | the two protection bits say whether some station last announced to be a non-ERP one |
| `ApProtection.OffLeftAlone` | core/rtw_ap.c:2570-2600 | with ERP off the bits, and with HT off the mode, are never written |
| `ApProtection.RecordExactly` | core/rtw_ap.c:3080-3235 | field by field what the record says of the last announcement; it says it all exactly when the station has not, earlier in the same stay, announced HT without greenfield or without 40 MHz and taken that back since |
| `ApProtection.RejoinStale` | core/rtw_ap.c:3196-3213 | a station that comes back with 40 MHz still counts as a 20 MHz one, and the mode stays 2 |
| `ApProtection.UpdateSettles` | core/rtw_ap.c:2965-3046 | a second update changes nothing |
| `ApProtection.BarkerExactly` | core/rtw_ap.c:2594-2597 | a join or leave from a state where the Barker bit is right leaves it right exactly when it brings the first or takes the last non-ERP station, or does neither for stations without short preambles |
| `ApProtection.BarkerOverRun` | core/rtw_ap.c:2594-2597 | after any run the bit says whether there was a station without short preambles when the element was last rewritten, and is right exactly when the answer is the same now |
| `ApProtection.BarkerCanBeStale` | core/rtw_ap.c:3108-3120 | a station without short preambles that leaves it wrong |
| `ApProtection.StaKeeps` | core/rtw_ap.c:3130-3154 | one changed record keeps counters and bits, although the writer tests for equality with 1 |
| `ApProtection.CountUpdate` | core/rtw_ap.c:3108-3235 | changing one record moves a count by the difference it makes |
| `ApStations.Ap.BssCapUpdateOnStaJoin` | core/rtw_ap.c:3080-3252 | each flag is set or cleared as announced, greenfield and 20 MHz only set; flags, counters, ERP bits and operation mode together are those of the Join step |
| `ApStations.Ap.BssCapUpdateOnStaLeave` | core/rtw_ap.c:3254-3316 | every flag is cleared; the whole state is that of the Leave step; the bit of the association in tim_bitmap is cleared, and the TIM is due for a rewrite exactly if it was set |
| `ApStations.Ap.HtOperationUpdate` | core/rtw_ap.c:2976-3046 | leaves the mode the counts call for; answers 0 exactly when it already was |
| `ApStations.Ap.UpdateErp` | core/rtw_ap.c:2570-2600 | rewrites the three bits, or nothing when ERP is off |
| `ApStations.Ap.CountNonErp` | core/rtw_ap.c:3130-3154 | flag and counter move together; the element is rewritten at the edges |
| `BeaconElems.RemoveUndoesAdd` | core/rtw_ap.c:162-263 | removing a freshly added non-empty element gives the list back |
| `BeaconElems.AddKeepsOrder` | core/rtw_ap.c:162-226 | a list in identifier order stays in order |
| `BeaconElems.AddContents` | core/rtw_ap.c:162-226 | it gains the element, loses the first one with the same identifier, and nothing else |
| `BeaconElems.AddedExactly` | core/rtw_ap.c:162-226 | what adding does, by the first place whose element is not below the new one: replaced, inserted there, or nothing because the element to go by is missing or empty |
| `BeaconElems.RemovedExactly` | core/rtw_ap.c:228-263 | what removing does: the first such element goes, unless it is empty |
| `BeaconElems.TimDecodes` | core/rtw_ap.c:115-146 | the TIM decodes to tim_bitmap exactly when one of bits 1 to 7 is set or the high octet is zero |
| `BeaconElems.TimMisplaced` | core/rtw_ap.c:115-146 | traffic for association 8 alone is not indicated |
| `BeaconElems.TimOctets` | core/rtw_ap.c:115-146 | every octet of the body by the associations that wait: DTIM count 0, period 1, the broadcast bit, and the one or two octets of the map |
| `BeaconElems.MapIsSum` | core/rtw_ap.c:115-146 | the bit of association a is worth 2 to the a |
| `BeaconElems.NothingBehindEmpty` | core/rtw_ap.c:162-226 | behind an empty SSID nothing is added |
| `BeaconBuf.Beacon.AddBcnIe` | core/rtw_ap.c:162-226 | the buffer encodes the list with the element replaced or inserted before the first larger one; nothing happens exactly when the element to go by is missing or empty |
| `BeaconBuf.Beacon.RemoveBcnIe` | core/rtw_ap.c:228-263 | the buffer encodes the list without the first such element, unless that is empty |
| `BeaconBuf.Beacon.UpdateBcnTim` | core/rtw_ap.c:47-159 | a TIM is replaced in place; a missing one goes behind SSID, rates and three more octets: where an element starts there, the buffer encodes the list with it, and where none does, walking the elements never comes to it |
| `BeaconBuf.Beacon.InsertTim` | core/rtw_ap.c:81-159 | the second half of that |
| `BeaconBuf.Beacon.BuildTim` | core/rtw_ap.c:115-146 | the body octet by octet |
| `BeaconBuf.Beacon.GetIe` | core/rtw_ieee80211.c:265-289 | finds the first element with the identifier, and its length |
| `BeaconBuf.TimReached` | core/rtw_ap.c:81-108 | walking the new buffer element by element comes to the new TIM exactly when an element started at its place |
| `BeaconBuf.TimInserted` | core/rtw_ap.c:81-108 | there it is an element of the list |
| `BeaconBuf.TimCutsCountry` | core/rtw_ap.c:81-108 | a list without a DS parameter set in which it is not |
| `BeaconBuf.TimBehindDs` | core/rtw_ap.c:81-108 | which it is when the list begins with SSID, rates and a DS parameter set |
| `BeaconTimer.FoldTsf` | core/rtw_ap.c:4148-4156 | the loop ends with the position of the TSF less the lost overflow |
| `BeaconTimer.FoldExact` | core/rtw_ap.c:4152 | the position is that of the 64-bit TSF exactly when the overflow of the 32-bit sum is a multiple of 25, in particular when it fits |
| `BeaconTimer.FoldFirstWrong` | core/rtw_ap.c:4152 | it is right up to a TSF of 2^33 - 4096 microseconds and wrong there |
| `BeaconTimer.Arm` | core/rtw_ap.c:4158-4212 | one interface: the delay lies in (interval/2, 3*interval/2] and ends 20 TU before an interval boundary; two to eight: it ends exactly 20 TU before the next slot boundary but one, from the last slot but one on before the end of the interval, or, when that is nearer, before the end of the next slot; if that moment has passed, which takes six interfaces, the delay is more than an hour |
| `BeaconTimer.ArmShared` | core/rtw_ap.c:4161-4204 | the branches for 2 to 8 interfaces, with the 32-bit wrap and the sign test |
| `BeaconTimer.TooLateExactly` | core/rtw_ap.c:4161-4204 | with up to five interfaces that moment has never passed; with six or more it has for some ticks |

## Left out

- EfuseMap.Efuse.PgPacketWrite: the chip's packet writer is not part of this model; it is taken as appending one header and the enabled words in the format of `core/rtw_efuse.c:559-561`, or failing without programming anything, after a number of packets the caller cannot foresee.
- EfuseMap.Efuse.MapWrite: the 8723B voltage exception (`core/rtw_efuse.c:1417-1426`), power switching, fake mode and the Bluetooth banks are not modelled; the map is read by the decode loop of the analyze routine, and the chip's own mask table is an arbitrary predicate.
- EfuseDiff.MaskedWordNeverProgrammed: stated for the mask file, whose bits stand for words; the chip-specific tables are arbitrary here.
- CmdThreadRun.StepKeeps: allocation succeeds, all commands go to one adapter's mutex and queue, post-processing callbacks free the command as the default does, and a command handler does nothing to the modelled fields beyond releasing its extra buffer. What a write to a freed command does to the memory's next owner is not modelled, only that it happens.
- CmdThreadRun.NoLostWakeup: that a CPWM report comes after the chip has been asked to wake is the firmware's part.
- BeamformingRun.RunKeeps: runs in which no station enters or leaves, a queued leave command is not reached, and a forced stop comes only while a sounding is on the air; every command enqueues.
- BeamformingInfo: building and sending the announcement frames, the register writes and entry/leave of stations.
- BeamformingLists.TrafficDue: for which stations sounding pays is decided elsewhere (`core/rtw_beamforming.c:1960`) and is a parameter here.
- Nat25Spec.ExpiredMeansOld: the clock rate is fixed at 250 ticks a second.
- Nat25Connect.OwnerKept: the one PPPoE connection of the mode without relay tags; other traffic does not touch its state.
- Nat25Connect.Ipv6Learned: ICMPv6 messages are left out, as in Nat25Frames.Nat25.InsertIpv6.
- Nat25Table.Bridge.DbInsert: allocation succeeds.
- Nat25Table.Bridge.SetShortcut: what the transmit path stores in `scdb_mac` and `scdb_ip` is not tied to the table; only the entry pointer is followed.
- Nat25Frames.Nat25.HandleFrame: DHCP patching, multicast-to-unicast conversion and re-reading a zero bridge MAC are not modelled. Lengths a frame states about itself must not lead out of the memory allocated for it; the code does not check them and would read outside.
- Nat25Frames.Nat25.HandleTagged: the same for the frame without its tag.
- Nat25Frames.Nat25.HandleInner: the same.
- Nat25Frames.Nat25.HandleLookup: the same; the IPX and AppleTalk arms of kernels up to 5.14 are left out (later kernels answer -1, as here), and so is NAT25_CHECK.
- Nat25Frames.Nat25.HandleInsert: the same; rewriting the link-layer option of an ICMPv6 message is left out, and the excluded PPPoE frames are those of Nat25Frames.Nat25.InsertPppoe.
- Nat25Frames.Nat25.InsertIpv6: ICMPv6 messages, whose link-layer option and checksum the code rewrites, are left out.
- Nat25Frames.Nat25.LookupArp: the address lengths in the ARP header must not lead out of the allocation, which the code does not check.
- Nat25Frames.Nat25.InsertArp: the same.
- Nat25Frames.Nat25.LookupPppoe: the PPPoE length must not lead out of the allocation, which the code does not check.
- Nat25Frames.Nat25.InsertPppoe: of the requests that get a relay tag, the excluded ones are those of Pppoe.Insert; the PPPoE length must not lead out of the allocation.
- Pppoe.Strip: the PPPoE length must not lead out of the allocation, which the code does not check.
- Pppoe.Insert: the same; the PPPoE length must cover an old relay tag that is cut out, or it would wrap below zero (`PppoeTags.Covered`); and on a little-endian host the frames of PppoeRelay.SwappedLength for which the copy would read beyond the tag buffer are left out, because what it reads there is not the frame's.
- Pppoe.Add: the same frames are left out.
- ApStations.Ap.BssCapUpdateOnStaJoin: building the beacon, telling other stations, and the wireless-mode test that only decides whether the beacon is rebuilt; `num_sta_no_ht` is also reset by a beacon re-configuration (`core/rtw_ap.c:1372`), after which the counts no longer agree.
- ApProtection: `ht_op_mode` is modelled by its fields, not as a 16-bit word.
- BeaconBuf.Beacon.AddBcnIe: the variable part must encode a list of elements and the buffer must have room, which the code does not check; the backup allocation succeeds.
- BeaconBuf.Beacon.UpdateBcnTim: a missing TIM's place must be inside the elements and the buffer must have room, which the code does not check.
- BeaconBuf.Beacon.InsertTim: the same.
- BeaconTimer.Arm: at most eight interfaces, the most the driver can be built for (`include/drv_conf.h:255`); walking the interface list, reading the TSF registers, and the conversion to milliseconds.
- Register and SDIO input and output, power sequences, procfs and ioctl surfaces, Bluetooth coexistence: plumbing with only easy claims.

# Verified model of the PCIe bring-up tools

This project models, in Dafny, the parts of the repository that decide what is written to the hardware and in which
order, and proves what they guarantee. Four components share one picture: a byte-addressed register space whose reads
may be answered by anyone.

**Trace compiler and replayer.** `TraceOps` turns a recorded list of register reads and writes into replay steps
(naked write, read-modify-write, read check, ack poll, value poll), with the planner's loops written as loops and
proved equal to a recursive specification `Plan`. `Replay` runs the steps against a `Device`, an arbitrary state
machine that may return any value, raise, or die at any access, and that decides how many reads fit before a poll's
deadline. The theorems are about `Plan` and `Run`: the plan loses no trace line and moves no read across a write
(`PlannerAccounting`), which step a line gets follows from its neighbours (`PlannerReads`), cutting a trace in two leaves the plan the same at exactly the cuts described (`PlannerRuns`,
`PlannerCuts`), what each step does and counts is told from the device's answers (`ReplayOutcomes`), a clean replay on
any device has issued the trace's writes (`ReplayOnAnyDevice`), on memory that agrees with the trace the plan does what
the trace did (`ReplayOnMemory`), and on any memory at all each bit ends as the last trace line that defines it and was not refused says (`ReplayBits`).

**Power management.** `Pmgr` is the depth-first, parents-first poke of power gates: visited set, depth limit, fast
path, failure unwinding, and the two register writes with their polls. The parent graph is arbitrary and so is the
hardware. Results hold for every graph and hardware (`PmgrAnyGraph`, `PmgrParentsFirst`, `PmgrFailure`), for every graph
over hardware in which only written registers of inactive gates change (`PmgrSafety`), for hardware on which writes take
effect (`PmgrSuccess`), and for registers that do as they are told (`PmgrRegister`).

**Tunables and the controller replay.** `Tunables` holds the slice classification and the two filtered appliers,
`TunableLaws` the 32-bit skip-if-unchanged applier and the algebra of such lists, `PhyIpStub` the on-CPU loop over a
packed table. `PhaseF` is the long flag-dependent step machine: a configuration fixes a script of guarded actions, and
an oracle, which may depend on everything done so far, answers each of them. `PhaseFSafety`, `PhaseFOrder`,
`PhaseFComesUp` and `PhaseFTally` hold its theorems, `ExtraTarget` the block inference of step 5.5.

**Log and configuration space.** `BoundedLog` is the C logger over an array that stands for memory. `Ecam` is the
configuration-space address map (section 7.2.2 of the PCI Express Base Specification), the bus walk and the sequential
bus-number assignment over type 1 headers (section 7.5.1.3 of revision 4.0); `EcamBuses` holds its theorems.

`Mmio` is the common ground: plain little-endian memory and the one update every writer performs, clear some bits and
then set some bits.

Facts of the code that a reader might not expect, kept as they are:

- A write that raises while the host is alive counts as a write, not as a fault.
- A poll whose deadline passes before its first read ends the replay, because reporting its missing value raises.
- A read that was planned as an ack poll is used once more as the expected value of a write right after it; the trace
  line itself counts for the poll.
- A visited gate counts as up while it is still on the walk's stack. The walk's own description says that a gate is
  poked only after every ancestor is confirmed ACTIVE; `CycleWritesBelowAnInactiveParent` shows a cycle on which that
  is not so. `SuccessIsSafeIff` says exactly when it is: no inactive gate that the walk can reach is above itself.
- Slice classification looks only at an entry's first byte. `StartOffsetDecidesIff` says for which entries that is
  right, `StraddlingEntryLeaks` gives one that writes where it should not, and `FrameIff` says exactly which lists stay
  out of the inactive slices.
- A replay refuses a fused 4-byte write whose pre-read shows the guard's sentinel, even when memory really holds that
  value. `FaultFreeIff` says exactly when this happens.
- The 32-bit applier ignores an entry's size. `NakedAgreesIff` says for which entries that makes no difference.
- Step 5.5 may infer the phy_ip block. `InfersPhyIpIff` says when, and `CarefulIff` lists every combination of options
  under which phy_ip can be reached before its clocks are acknowledged and its reset released.
- A root bridge that comes with a bus of its own can share it with a bridge numbered later. `RewalkProbesOnceIff` says
  exactly when.

## Model

| member | source | states |
|---|---|---|
| TraceOps.TakeRun | Scripts/m1n1/trace_ops.py:182-191 | the run taken is the maximal run of reads, shortened by its last read exactly when the run has more than one and the next write is to that read's register |
| TraceOps.GroupByAddr | Scripts/m1n1/trace_ops.py:192-198 | the dictionary holds, for each address of the run and no other, its reads in order; `order` lists each address once by first appearance |
| TraceOps.EmitGroup | Scripts/m1n1/trace_ops.py:199-208 | a group collapses into one poll for its last value exactly when it has three reads or two of them differ; otherwise each read is checked on its own |
| TraceOps.PlanTurn | Scripts/m1n1/trace_ops.py:152-209 | one turn of the loop emits what the rule that applies at the op says and moves on past exactly the ops it dealt with |
| TraceOps.PlanSegment | Scripts/m1n1/trace_ops.py:131-210 | the loop terminates with the plan of the whole list, the object of all theorems below |
| PlannerAccounting.PlanLosesNothing | Scripts/m1n1/trace_ops.py:149-210 | every trace line, with multiplicity, is behind exactly one step, and each step is of a kind its lines explain: a write is one write or one read-modify-write with the read before it, a read is checked, polled for, counted in a collapsed group, or fused |
| PlannerAccounting.NoReadCrossesAWrite | Scripts/m1n1/trace_ops.py:149-210 | the step of a write parts the plan: steps up to it come from exactly the lines up to the write, steps after it from exactly the lines after |
| PlannerReads.PlannedIff | Scripts/m1n1/trace_ops.py:152-175 | the plan has a masked update exactly for each write right after a read of its address and width, with the bits gained and lost, a naked write exactly for each other write, and a bit poll exactly for each read right after a write to its address and width that shows bits the write did not set |
| PlannerReads.ReadsPlanned | Scripts/m1n1/trace_ops.py:176-209 | every maximal run of the other reads has its own stretch of the plan, addresses in the order of their first reads: three reads of an address, or two that differ, give one poll for the last value with their number, other reads one check each, in order |
| PlannerCuts.PlanComposes | Scripts/m1n1/trace_ops.py:151-209 | planning two parts and planning them together give the same steps when the boundary is write-write, write-read without gained bits at the same register, or read-write at different registers |
| PlannerCuts.CutComposesIff | Scripts/m1n1/trace_ops.py:151-209 | for every two lists: planning them together and apart gives the same steps exactly when the boundary is write-write, write-read without gained bits at the same register, read-write at different registers, or read-read where the run at the end of the first (empty behind an ack poll) and the run at the start of the second (empty when its read is handed over to a write) share no address or meet in one equal read each |
| PlannerRuns.RunsComposeIff | Scripts/m1n1/trace_ops.py:192-208 | two runs of reads are regrouped together as they are apart exactly when they share no address, or share one only, last to appear in the first and first in the second, read once in each with the same value |
| PlannerCuts.ReadReadCutCanDiffer | Scripts/m1n1/trace_ops.py:199-208 | for example, any two reads of one address with different values are checked apart and polled for together |
| PlannerCuts.SegmentsCompose | Scripts/m1n1/trace_ops.py:77-90 | given the six trace lines at their borders, the plans of the four bring-up segments, concatenated, are the plan of lines 1 to 1253 |
| PlannerCuts.SegmentsPart | Scripts/m1n1/trace_ops.py:77-90 | the five segments part the trace: no line is left out and none is in two |
| Replay.Stats.constructor | Scripts/m1n1/trace_replay.py:107-116 | all counters start at zero |
| Replay.Host.Read | Scripts/m1n1/trace_replay.py:71-102 | one load of 4, 2 or else 1 bytes; a raise with the host dead is a wedge, any other raise yields nothing |
| Replay.Host.Write | Scripts/m1n1/trace_replay.py:80-102 | one store of 4, 2 or else 1 bytes, wedged only if the host died |
| Replay.Host.ExecPoll | Scripts/m1n1/trace_replay.py:175-201 | reads until the first satisfying value, a raise, or the deadline, and counts one outcome accordingly |
| Replay.Host.ExecRmwStep | Scripts/m1n1/trace_replay.py:136-159 | pre-read, fault on a raise or the 4-byte sentinel, surprise count, then always the write of (pre with set bits) without the clear bits |
| Replay.Host.ExecStep | Scripts/m1n1/trace_replay.py:126-203 | each kind of step makes its accesses and raises its one counter |
| Replay.Host.ReplaySegment | Scripts/m1n1/trace_replay.py:206-219 | steps in order up to the first that ends the replay |
| Replay.StopsThere | Scripts/m1n1/trace_replay.py:98-100 | nothing is done after a wedge |
| ReplayOnAnyDevice.RunAccounts | Scripts/m1n1/trace_replay.py:107-219 | on every device, an unended replay of n steps adds exactly n to the sum of the seven outcome counters, no counter falls, and there are no more pre-value surprises than read-modify-writes |
| ReplayOutcomes.WriteOutcome | Scripts/m1n1/trace_replay.py:130-134 | one store of the step's value, wedged exactly when it finds the host dead, else counted |
| ReplayOutcomes.RmwOutcome | Scripts/m1n1/trace_replay.py:136-159 | a load, a fault and no store exactly when it raised or answered the sentinel at four bytes, else a store of the answer with the set bits on and the clear bits off, and a surprise exactly when the answer is not the trace's value |
| ReplayOutcomes.ReadOutcome | Scripts/m1n1/trace_replay.py:161-173 | one load: a match exactly when it answers the trace's value, a mismatch on any other answer, a fault on a raise with the host alive |
| ReplayOutcomes.PollOutcome | Scripts/m1n1/trace_replay.py:175-201 | loads of which all but the last answered without the target or without some mask bit; ok exactly when the last answers the target or shows every mask bit, timed out exactly when all reads that fit were made in vain, a fault when the last raised |
| ReplayOutcomes.WedgedIff | Scripts/m1n1/trace_replay.py:89-102 | a replay is wedged exactly when its last access found the host dead, and no earlier access did |
| ReplayOnAnyDevice.CountedPollsConverged | Scripts/m1n1/trace_replay.py:175-196 | a step that raised `polls_ok` made only loads of its own register that answered, of which the last, and only the last, shows every bit of the mask, or is the target |
| ReplayOnAnyDevice.PlanIntends | Scripts/m1n1/trace_ops.py:156-165 | what the plan stores when the register held what the trace read is, write by write, what the trace stored |
| ReplayOnAnyDevice.ReplayIsFaithful | Scripts/m1n1/trace_replay.py:126-219 | on every device, if the replay ends unwedged with no fault and no pre-value surprise, its stores are exactly the trace's writes: address, width, value and order |
| ReplayOnAnyDevice.ReplayKeepsWidths | Scripts/m1n1/trace_replay.py:71-86 | and when the trace's widths are 1, 2 or 4, each goes out at the width the trace records |
| ReplayOnMemory.PlanMatchesTrace | Scripts/m1n1/trace_ops.py:169-209 | on memory for which the trace is consistent and shows no sentinel: same final memory as the raw trace, every read matches, every poll ends on its first read, no ack poll is planned |
| ReplayOnMemory.FaultsIffSentinel | Scripts/m1n1/trace_replay.py:136-145 | on consistent memory a fault is counted exactly when some fused 4-byte read shows the guard's sentinel |
| ReplayBits.RmwMasked | Scripts/m1n1/trace_replay.py:153 | set-then-clear is one masked update, with set bits that are also cleared ending clear |
| ReplayBits.WriteTouches | Scripts/m1n1/trace_ops.py:156-165 | a naked write defines every bit of its width; a fused one exactly the bits in which the trace's read and write differ |
| ReplayBits.ReplayDefinesBits | Scripts/m1n1/trace_replay.py:130-159 | from any memory, after the replay each bit has the value of the last trace line that defines it and was not refused, and its old value if there is none |
| ReplayBits.ReplayOnAnyMemory | Scripts/m1n1/trace_replay.py:126-219 | from any memory, the replay runs to its end, leaves the memory of exactly the writes that were not refused, and its faults are the refused ones |
| ReplayBits.FaultFreeIff | Scripts/m1n1/trace_replay.py:141-145 | from any memory, no fault is counted exactly when no fused 4-byte write meets the sentinel in the memory that the writes before it make of the starting one |
| ReplayBits.AckPollWaitsForGainedBits | Scripts/m1n1/trace_ops.py:167-175 | the ack poll is satisfied exactly by values that show every bit the trace read shows and the write before it did not set |
| Pmgr.Poker.PollPsActual | Scripts/m1n1/perstn.py:862-876 | at least one read, then re-reads until ACTIVE, a raise or the deadline |
| Pmgr.Poker.DirectPokeGate | Scripts/m1n1/perstn.py:879-979 | virtual and already active gates are left alone; otherwise one masked write and a poll, and a second pair only after the first poll timed out |
| Pmgr.Poker.DirectPokeChain | Scripts/m1n1/perstn.py:982-1045 | terminates with the walk's specification: depth limit, visited set, fast path, parents in order except 0 and itself, then the gate |
| PmgrRegister.ObedientGateComesUp | Scripts/m1n1/perstn.py:931-950 | on a register whose actual state follows its target, one write brings the gate up with automatic mode off and sticky flags cleared, and changes no other field |
| PmgrRegister.FlooredGateNeedsTheSecondWrite | Scripts/m1n1/perstn.py:952-971 | on a register held below its automatic floor, exactly two writes bring the gate up, and all unrelated bits stay |
| PmgrAnyGraph.AtMostTwoWrites | Scripts/m1n1/perstn.py:997-1045 | on every graph and hardware no gate's register is written more than twice in the whole walk |
| PmgrAnyGraph.ChainFails | Scripts/m1n1/perstn.py:997-1043 | a failing walk from any point fails at the end of a path of parents from its gate, none of the gates before the last was visited or has been written, and the depth limit means a path of eleven edges from the top |
| PmgrAnyGraph.DepthLimitUnreachable | Scripts/m1n1/perstn.py:999-1001 | if no path of parents from the requested gate has more than ten edges, the depth limit is never the reason of failure |
| PmgrFailure.FailureWritesNothingBelow | Scripts/m1n1/perstn.py:1034-1044 | whenever a walk does not succeed, an escaped exception included, its stack is the path of parents from the requested gate to the failing one (to the one before it at the depth limit), and no gate on the stack below its top was ever written |
| PmgrParentsFirst.ParentsFirst | Scripts/m1n1/perstn.py:1002-1045 | on every graph, at every register write the written gate is on top of the stack, and each of its parents has finished successfully or is still on that stack |
| PmgrParentsFirst.OffCycleParentsFinished | Scripts/m1n1/perstn.py:1002-1045 | on every graph and hardware, at a write of a gate that is not above itself every parent has finished |
| PmgrSuccess.PollEndsAt | Scripts/m1n1/perstn.py:862-876 | a poll raises at its first load that raises, succeeds at its first load that shows ACTIVE in bits 7 to 4, and gives up exactly when all loads that fit answered something else |
| PmgrSuccess.WalkSucceeds | Scripts/m1n1/perstn.py:982-1045 | from any state, on hardware where loads answer, stores go through and a written register shows ACTIVE within the reads of its poll: if every gate that the walk can reach is known with its parents and, unless virtual, its address, and no path of parents has more than ten edges, the walk succeeds |
| PmgrSuccess.IdealIsWilling | Scripts/m1n1/perstn.py:982-1045 | registers that are active once written are such hardware |
| PmgrSuccess.ParentsInOrder | Scripts/m1n1/perstn.py:1018-1036 | a parent is walked to after those listed before it and only if none of them failed; 0 and the gate itself are passed over |
| PmgrSuccess.ActiveGateIsLeftAlone | Scripts/m1n1/perstn.py:1007-1017 | a gate that already shows ACTIVE costs one load: no parent is looked at, nothing is written, and it succeeds |
| PmgrSuccess.PokeWithoutWrite | Scripts/m1n1/perstn.py:893-921 | a virtual gate succeeds untouched, an unknown one or one without an address fails untouched, and a load that raises or shows ACTIVE is the only access |
| PmgrSafety.PowerUpIsSafe | Scripts/m1n1/perstn.py:982-1045 | hardware in which at any access only written registers of inactive gates may change, active gates closed under real ancestors at the start, and no inactive gate that the walk can reach above itself: however the walk ends, every intermediate state is closed, and at every write all real ancestors of the written gate are active |
| PmgrSafety.SuccessPowersEverything | Scripts/m1n1/perstn.py:985-986 | on the same hardware and every graph, cycles included, a successful walk leaves the requested gate and all its real ancestors active |
| PmgrSafety.SuccessIsSafeIff | Scripts/m1n1/perstn.py:987-988 | and the condition is exact: a successful walk has been safe if and only if no inactive gate that it could reach was above itself |
| PmgrSafety.IdealIsSafeIff | Scripts/m1n1/perstn.py:987-988 | in particular on hardware whose registers are active once written, from every closed starting state |
| PmgrSafety.AcyclicIsClear | Scripts/m1n1/perstn.py:982-1045 | a graph without cycles meets the condition from every state |
| PmgrSafety.CycleWritesBelowAnInactiveParent | Scripts/m1n1/perstn.py:1002-1003 | a two-gate cycle on which the walk succeeds having written a gate while its parent was off |
| Tunables.PhyIp.PlanEntries | Scripts/m1n1/perstn.py:2762-2782 | each entry is planned, in order, and marked for application exactly when 0 <= offset < 0x8000, or its offset is in one of the three 0x8000-byte ranges behind and that port exists and is active |
| Tunables.ClassifyAgrees | Scripts/m1n1/pcie_regs.py:398-414 | the classification finds out exactly that |
| Tunables.SelectedMembers | Scripts/m1n1/perstn.py:2762-2782 | exactly those entries of a list are selected |
| Tunables.SelectedConcat | Scripts/m1n1/perstn.py:2762-2782 | list after list, so their order is kept |
| Tunables.PhyIp.ApplyFiltered | Scripts/m1n1/perstn.py:2790-2829 | however the accesses go, the memory is that of the first selected entries applied in order, at most one more if the last access failed late; on success all of them; and it succeeds exactly when every selected entry has a known size and an access that goes well |
| Tunables.PhyIp.ApplyAuspma | Scripts/m1n1/perstn.py:3750-3788 | the post-init loop, which plans and applies in one pass, meets the same specification |
| TunableLaws.SlicesTile | Scripts/m1n1/pcie_regs.py:398-414 | the window is exactly the shared range and three port slices, disjoint, and nothing else is classified inside |
| TunableLaws.StartOffsetDecidesIff | Scripts/m1n1/pcie_regs.py:398-414 | all bytes of an entry lie where its first byte does exactly when the entry does not cross a 0x8000 boundary |
| TunableLaws.FrameIff | Scripts/m1n1/perstn.py:2762-2827 | applying the selected entries keeps every byte of every inactive slice and outside the window, on every memory, if and only if no selected entry has a mask or value bit in such a byte |
| TunableLaws.UnreachableUntouched | Scripts/m1n1/perstn.py:2762-2827 | no run of either filtered applier, however it ends, changes a byte of an inactive slice or outside the window, when the selected entries of known size have no mask or value bit there |
| TunableLaws.AlignedEntriesStayOut | Scripts/m1n1/perstn.py:3750-3784 | the same for naturally aligned entries of 1, 2, 4 or 8 bytes |
| TunableLaws.StraddlingEntryLeaks | Scripts/m1n1/pcie_regs.py:398-410 | a 4-byte entry two bytes before the end of an active slice is applied and writes into the inactive slice |
| TunableLaws.Block.NakedApply | Scripts/m1n1/perstn.py:1671-1775 | whatever reads answer, stores happen and hosts die, the memory is that of applying 32 bits wide exactly the entries whose pre-read answered and whose store happened, up to the first entry whose accesses lose the host, at which it stops and at no other; a complete run gives every entry one tag; the entries skipped are exactly those that would change nothing at their turn; none is PARTIAL when values fit 32 bits, none NO-OP when their stores happen too, none STUCK without a store, and none a read failure when all reads answer |
| TunableLaws.Tagged | Scripts/m1n1/perstn.py:1753-1771 | an attempted write is STUCK, NO-OP or PARTIAL as its post-read shows the new word, the old one or a third, and a read failure if it does not answer |
| TunableLaws.AllStored | Scripts/m1n1/perstn.py:1674-1775 | when nothing fails these are all entries |
| TunableLaws.NakedAgreesIff | Scripts/m1n1/perstn.py:1674-1735 | for an entry of any size up to 8 the 32-bit update equals the sized one on every memory exactly when mask and value are zero in the bytes only one of them reaches |
| TunableLaws.NakedAgrees | Scripts/m1n1/perstn.py:1674-1775 | on lists of such entries, 4-byte ones in particular, the skip-if-unchanged loop and the per-entry appliers reach the same memory |
| TunableLaws.FourByteFits | Scripts/m1n1/perstn.py:1674-1775 | 4-byte entries are of that kind |
| TunableLaws.RetryEndsClean | Scripts/m1n1/perstn.py:2790-2829 | a whole pass after any run of an applier, however far it got, ends in the memory of one clean pass |
| TunableLaws.SecondPassChangesNothing | Scripts/m1n1/perstn.py:2792-2827 | a second whole pass changes nothing, whatever the entries' order, overlaps and conflicts |
| TunableLaws.LastEntryDecides | Scripts/m1n1/perstn.py:2792-2827 | each bit ends as the last entry says that covers its byte and has it in its value, which sets it, or else in its mask, which clears it; or as it was |
| PhyIpStub.Cpu.MaskTarget | Scripts/m1n1/perstn.py:2428-2444 | load, bit-clear, or and store through a 32-bit register is the masked update of 4, 2 or 1 bytes |
| PhyIpStub.Cpu.Run | Scripts/m1n1/perstn.py:2411-2454 | the loop applies the rows up to the first of unknown size, in order and no others; it returns the success code with the count, or the bad-size code |
| PhyIpStub.Cpu.PackAndRun | Scripts/m1n1/perstn.py:2915-2947 | outside the table the memory ends as the per-entry appliers leave it, and for fewer than 65536 rows the result decodes to 0xC0DE and the entry count |
| PhyIpStub.Cpu.StubApply | Scripts/m1n1/perstn.py:2880-2948 | of a property's entries the reachable ones are packed and run: if one has a size other than 1, 2 or 4 nothing is touched and it fails, otherwise the memory outside the table is that of applying them all, and fewer than 65536 are reported applied by number |
| PhyIpStub.PackOfPacks | Scripts/m1n1/perstn.py:2915-2916 | every list of entries of sizes 1, 2 and 4 whose addresses fit 64 bits has a table of rows that says the same |
| PhyIpStub.NumberOfWord | Scripts/m1n1/perstn.py:2915-2916 | a 64-bit register holds every number below 2^64 |
| PhyIpStub.PackedTableReadsBack | Scripts/m1n1/perstn.py:2915-2918 | each 64-bit field of each packed row is read back from memory where the loop looks for it |
| PhyIpStub.DecodesIff | Scripts/m1n1/perstn.py:2450-2453 | success and the count are read back exactly when the count register fits 16 bits |
| PhyIpStub.CountDecodes | Scripts/m1n1/perstn.py:2943-2946 | they are for every count below 65536 |
| PhyIpStub.BadSizeDecodes | Scripts/m1n1/perstn.py:2424-2427 | the bad-size code reads back as 0xDEAD with reason 3 |
| PhyIpStub.StubAgrees | Scripts/m1n1/perstn.py:2880-2959 | a table packed from the selected entries runs to its last row and has applied exactly their masked updates |
| PhyIpStub.StubStaysOut | Scripts/m1n1/perstn.py:2880-2893 | when the selected entries have no mask or value bit there, the table run leaves every byte of an inactive slice and every byte outside the window, the table itself aside, as it was |
| PhaseF.Replay.Do | Scripts/m1n1/perstn.py:2638-2725 | one guarded step: what came of it decides the running exception count and whether the replay goes on |
| PhaseF.Replay.BeforeHandshake | Scripts/m1n1/perstn.py:2985-3298 | the options before the handshake run in this order, and the clock-mode flag is set exactly under the first-option |
| PhaseF.Replay.HandshakeToApply | Scripts/m1n1/perstn.py:3300-3657 | handshake, release, early options and phy_ip appliers in this order, with the clock mode set in between exactly when asked for and not yet done |
| PhaseF.Replay.Run | Scripts/m1n1/perstn.py:2536-3683 | the replay is the execution of the configuration's script, and the shared-up flag is set exactly when it was not stopped; without its preconditions nothing is done |
| PhaseFSafety.ExecPrefix | Scripts/m1n1/perstn.py:2638-2725 | every run is a prefix of the script in order, and every step of it succeeded except the last of a stopped run |
| PhaseFSafety.SharedUpIff | Scripts/m1n1/perstn.py:3667-3683 | the flag is set if and only if every step of the script was executed and succeeded, exceptions counted against the last count read |
| PhaseFSafety.ClockModeOnce | Scripts/m1n1/perstn.py:3286-3298 | for every setting of the two ordering options and every behaviour of the device, the clock-mode step is executed at most once, and exactly once on a run that comes up |
| PhaseFSafety.StepsGoWell | Scripts/m1n1/perstn.py:2638-2725 | on every run, every step but the last of a stopped one was answered well by the device, told from the kind of step alone: a register step or list without a raise, a dead host or a counted exception, an acknowledgement or readiness poll in addition with the awaited value shown |
| PhaseFSafety.CounterIs | Scripts/m1n1/perstn.py:2638-2725 | the count compared against is the one read at the last step other than a bare read, probe or naked list, or the one at the start |
| PhaseFSafety.StopMeansTrouble | Scripts/m1n1/perstn.py:2638-2725 | and a run is stopped only by a step that was not, a list with no block or an unknown size, a failure code of the on-CPU applier, or a read that raised |
| PhaseFComesUp.ComesUpInOrder | Scripts/m1n1/perstn.py:2536-3683 | a run that comes up has done, in this order and each answered well: power, CLK0REQ, CLK0ACK shown, CLK1REQ, CLK1ACK shown, RESET clear, marker, and at its end two writes and the root complex's readiness shown; the clock mode is on before these last three, and before the handshake, before the phy_ip lists or after them as the options say |
| PhaseFComesUp.ComesUpApplied | Scripts/m1n1/perstn.py:2762-2829 | a run that comes up has applied every list present before the handshake and, after the reset was cleared, every selected entry of both phy_ip properties (or the one call per list of the appliers that go by lists), none of an unknown size |
| PhaseFComesUp.ComesUpLists | Scripts/m1n1/perstn.py:2786-2948 | each of those steps went to phy_ip without a raise, a dead host or a counted exception, and the on-CPU applier answered its success code |
| PhaseFTally.StepsTallied | Scripts/m1n1/perstn.py:2985-3665 | every write, read, naked list, check and handshake step is done exactly as often as the fixed part of the replay and the options that are on ask for, on a run that comes up, and no more often on any run |
| PhaseFOrder.EarlyTouchExplained | Scripts/m1n1/perstn.py:2985-3322 | the steps before the reset release contain a phy_ip access not behind a certain abort exactly under the listed options; a naked list counts only if it has entries and its block an address |
| PhaseFOrder.CarefulUnless | Scripts/m1n1/perstn.py:3300-3358 | without those options, on every run every phy_ip access comes after CLK0REQ, CLK0ACK, CLK1REQ, CLK1ACK, the RESET clear and the marker, in this order, each answered without escape, raise, dead host or counted exception, and both acknowledgements with the awaited bit shown |
| PhaseFOrder.NotCarefulIf | Scripts/m1n1/perstn.py:3233-3276 | with one of them, a device on which everything succeeds is touched unprepared |
| PhaseFOrder.CarefulIff | Scripts/m1n1/perstn.py:2598-3657 | safety on all runs if and only if none of the listed options is in effect |
| PhaseFOrder.OptionsOffIsCareful | Scripts/m1n1/perstn.py:3618-3657 | in particular with the diagnostic, the naked appliers and the extra tunables off, whatever the other options |
| ExtraTarget.InfersPhyIpIff | Scripts/m1n1/perstn.py:290-302 | phy_ip is inferred exactly when it holds every offset, is strictly smaller than the earlier blocks that do, and no larger than the later one that does |
| ExtraTarget.InfersNothingIff | Scripts/m1n1/perstn.py:296-299 | no block is inferred exactly when each is too small |
| ExtraTarget.ExtraLandsIff | Scripts/m1n1/perstn.py:3218-3262 | the extra lists reach phy_ip exactly when a kept one is inferred there and is not behind one for which no block is large enough |
| ExtraTarget.InferenceCanTouchEarly | Scripts/m1n1/perstn.py:3218-3262 | with the extra tunables on and either list so inferred, the replay reaches phy_ip unprepared |
| BoundedLog.Log.constructor | src/log.c:14-20 | the buffer holds the empty text, and a null or empty buffer is left alone |
| BoundedLog.Log.Putc | src/log.c:22-29 | the memory is the image of the text with one more character, cut if the buffer is full |
| BoundedLog.Log.Puts | src/log.c:31-35 | the characters up to the first NUL |
| BoundedLog.Log.Puthex8 | src/log.c:43-47 | two hex digits |
| BoundedLog.Log.Puthex32 | src/log.c:49-55 | 0x and eight hex digits, most significant first |
| BoundedLog.Log.Puthex64 | src/log.c:57-63 | 0x and sixteen hex digits, most significant first |
| BoundedLog.Log.Putdec | src/log.c:65-80 | the decimal numeral, without leaving the 21-character scratch |
| BoundedLog.UpToNulIs | src/log.c:31-35 | the text taken from a C string is what stands in front of its first NUL |
| BoundedLog.Session | src/log.c:14-80 | after any calls in any order the whole memory is the image of the concatenated output |
| BoundedLog.ImageFrame | src/log.c:24-28 | such an image holds the first min(length, size - 1) characters, then NUL, and differs from the old memory nowhere outside the buffer |
| BoundedLog.ReaderSees | src/log.c:4-6 | reading the buffer back as a C string gives the kept text, up to a NUL that was itself logged |
| BoundedLog.NumbersReadBack | src/log.c:37-80 | every printed number parses back to the value given: hex of each width, and decimal in canonical form |
| BoundedLog.CanonicalIsUnique | src/log.c:65-80 | the emitted numeral is the only canonical one of its value |
| BoundedLog.ScratchFits | src/log.c:67-77 | while digits of a 64-bit value remain, fewer than twenty have been stored |
| Ecam.EcamInjective | Scripts/m1n1/pcie_common.py:57-58 | no two registers of any two functions share an address |
| Ecam.EcamDecodes | Scripts/m1n1/pcie_common.py:57-58 | bus, device, function and register are recovered from address bits 27-20, 19-15, 14-12 and 11-0 |
| Ecam.ProbeFields | Scripts/m1n1/pcie_common.py:259-334 | a probe reports a function exactly when its first four bytes are neither all ones nor all zero, with vendor and device from them, the class from byte 0x0b, and bus numbers from bytes 0x18 to 0x1a exactly when byte 0x0e is 0x01 or 0x81 |
| Ecam.Host.ProbeDevice | Scripts/m1n1/pcie_common.py:259-334 | a vacant identifier gives nothing; otherwise the header's fields, bus numbers for type 1 headers only; memory is not changed |
| Ecam.Host.EcamWalk | Scripts/m1n1/pcie_common.py:337-384 | root function 00:d.0 is probed if and only if d < 3 and the active ports are unknown or contain d, in ascending order and first; function s:d.0 of another bus if and only if d < 2 and some probed root answers with a bridge header whose secondary bus is s; and it returns exactly those that answered |
| Ecam.Host.AssignBuses | Scripts/m1n1/trace_replay.py:372-385 | one number per bridge with no bus behind it, in walk order from 1 |
| Ecam.Host.Enumerate | Scripts/m1n1/trace_replay.py:363-390 | walk, assignment, and a second walk exactly when a number was given out |
| EcamBuses.ProbesOnceIff | Scripts/m1n1/pcie_common.py:355-383 | a walk probes no function twice exactly when the nonzero buses behind the root bridges are pairwise different |
| EcamBuses.AssignedSelf | Scripts/m1n1/trace_replay.py:374-384 | a numbered device ends with primary 0 and its own number as secondary and subordinate bus |
| EcamBuses.AssignedFrame | Scripts/m1n1/trace_replay.py:374-384 | no other configuration byte of any function changes |
| EcamBuses.RootsAfter | Scripts/m1n1/trace_replay.py:386-390 | the second walk finds the same roots in the same order, with only their numbers changed |
| EcamBuses.RewalkProbesOnceIff | Scripts/m1n1/trace_replay.py:372-390 | from any configuration space, the second walk probes no function twice exactly when the buses the root bridges came with differ from each other and from the numbers given out |
| EcamBuses.FreshBridges | Scripts/m1n1/trace_replay.py:368-390 | from reset, the k bridges get the disjoint one-bus ranges 1 to k, and the second walk probes no function twice |
| EcamBuses.FreshFrame | Scripts/m1n1/trace_replay.py:374-384 | and no configuration byte changes but the four bus-number bytes of those bridges |
| EcamBuses.PresetBusIsSharedWithTheFirst | Scripts/m1n1/trace_replay.py:372-375 | a root bridge that came with bus 1 shares it with the first bridge numbered, so its function is probed twice |

## Left out

- The proxy, the UART, the SMC client, the device-tree parser and the USB checks: only their contract is modelled, as the arbitrary device, hardware or oracle.
- Wall-clock time: a deadline is an arbitrary finite number of reads, at least one where the code reads before it looks at the clock.
- The regular expression of the trace parser and the trace file itself: traces are lists of ops, and `SegmentsCompose` assumes the six border lines it names. Values are limited to 64 bits.
- Processor names, regions and offsets of trace lines, log text, `describe_step`, summaries, argument parsing and flushing: presentation and I/O.
- Exceptions raised by entering or leaving the exception guard during a trace replay or a tunable run: an access that raises is modelled, the guard itself is not. In the controller replay they are the `escaped` answers.
- The exception counts reported per power gate: they do not influence the walk.
- The last-step label of the controller replay, and the data read by its diagnostic probes.
- Parsing of the tunable blobs, which are lists of 24-byte little-endian records: the model starts from the entries, and
  what is proved about them holds for any list that a blob can spell.
- Fields of a probed header that are only printed (revision, command, status, base address), and the enabling of the network device.
- The C side's static pointer variables are fields of an object; a call before the first `log_init` is not modelled.
- `pcie_up.py`, `nic_bringup.py`, `soc_bringup.py`, `recon.py` and the other register experiments of `perstn.py`: straight-line device accesses without a strong specification.
- Block.NakedApply: its first reading of the exception counter, without which it makes no access, is left out, as are the
  counts of exceptions during the run.
- PackAndRun: models calls without the handshake tail; the tail and its two timeout codes are left out. The same holds for StubApply.
- BeforeHandshake: inside a section the replay performs the section's list of actions one by one; addresses, masks and values of the register accesses are reduced to the block they touch. The same holds for HandshakeToApply and Run.
- Host.ProbeDevice: failing configuration reads are not modelled; memory is plain, and what answers on a bus does not depend on the bus numbers.
- SuccessIsSafeIff: is about walks that succeed; a walk that fails early may have been safe although the condition does
  not hold.
- PlanMatchesTrace: memory is plain, so registers with side effects on read are covered only by the theorems about any device.

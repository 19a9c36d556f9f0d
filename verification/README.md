# A verified model of WBox's x86 core

WBox runs guest code on an x86 core derived from 86Box. This project models the parts of
that core whose correctness depends on many steps agreeing with each other, and proves
properties of them that hold for every input and every run:

- **SMM entry and exit** (`CpuModel`, `SmramImage`, `SmramMemory`, `SmmSpec`,
  `SmmTransparency`, `SmmExact`, `SmmEntry`, `SmmExit`, `SmmCpu`, `SmiLatch`): the 128-dword
  P6 save map, how it is stored and read back through two different RAM masks, what the
  handler and RSM find there, and when an SMI is invisible to the interrupted program.
- **The status summary and block selection** (`ModeSwitch`, `StatusRuns`): the summary bits
  that the recompiler matches compiled blocks by, over all runs of mode switches.
- **The 6x86 dual-pipe timing model** (`TimingMasks`, `EffectiveAddress`, `PairSpec`,
  `PairTheorems`, `PairCost`, `PairScheduler`): an online scheduler with a one-slot buffer,
  proved to issue the greedy partition of the instruction list and to charge its price.
- **Fetch and data fast paths** (`CodeFetch`, `MemAccess`, `BlockFootprint`): the one-page
  code cache, the lookup tables and the pointers left by address decoding, against byte-wise
  access to translated memory; where the bytes of a compiled block can lie.
- **Cycle accounting** (`CycleLedger`, `PrefetchQueue`): the time-stamp ledger, the exact
  condition under which the executive's loop ends, the prefetch queue's ledger.
- **Supporting operations** (`StackOps`, `IoPerm`, `Divide`, `RealModeInt`): stack pushes and
  pops with 16-bit wrap, the I/O permission bitmap, 64-by-32-bit division, real-mode vectoring.

The build modelled is the one with `USE_DYNAREC` and `USE_NEW_DYNAREC`, without
`USE_DEBUG_REGS_486`, `USE_ACYCS`, `USE_GDBSTUB` or any logging option.

Code that updates state in place is a class whose methods are proved equal to a function on
states (`View()` gives the state); the theorems are about those functions. Words are bounded
integers, wrap-around is written out, memory is a function from addresses to bytes. A C bit
mask is the set of the numbers of its one bits.

## Where the code differs from what one would expect

The model follows the code. These differences are stated by the lemmas named:

1. RSM does not give the RAM mask back. It derives 0xFFFFFFFF or 0xFFEFFFFF from the saved
   A20 gate, so a mask that comes from the RAM size is lost, and so is the one a hard reset
   leaves: all lines, with the gate closed. The first SMI after a reset masks A20
   (`SmmExact.ResetNotTransparent`). And with `unmask_a20_in_smm` the save map is written
   through the old mask and read through the unmasked one. Both conditions together, and
   nothing else but caches and summary as a restore leaves them, make SMIs transparent
   (`SmmExact.TransparentExactly`, `SmmExact.ReachableExactly`).
2. RSM with a second SMI latched re-enters SMM with the HLT mark of the first entry, so a
   program interrupted in HLT finds EIP two lower (`SmmTransparency.LatchedSmiTransparent`).
3. SYSCALL and SYSRET do not check CR0.PE but set the protected-mode bit of the summary; it
   stays right exactly in protected mode (`StatusRuns.SyscallStatusExactly`,
   `StatusRuns.SysretStatusExactly`). SYSCALL does not go to its target
   (`ModeSwitch.SyscallTargetExactly`), and SYSRET writes the attributes of SS into CS
   (`ModeSwitch.SysretSsExactly`).
4. An expand-down segment with limit 0xFFFFFFFF gets a window that accepts every offset
   instead of none (`CpuModel.WindowMatchesManual`).
5. `exec386_dynarec` never returns when it is given cycles but too few for one period
   (`CycleLedger.EndsExactly`).
6. The address mask of the timing models misses registers for SIB base field 5
   (`EffectiveAddress.AddressMaskExactly`). For 16-bit addressing it holds register numbers
   where register bits belong, and is right only for the form without registers
   (`EffectiveAddress.Address16MaskExactly`).
7. The 6x86 model tests bit 21 of masks that never have it (`TimingMasks.MasksNarrow`). When
   two instructions pair it drops the address stall of the first
   (`PairTheorems.PairChargeExactly`), and working that stall out can hide the second's
   (`PairTheorems.HiddenStallExactly`). An instruction that waited in vain for a partner is
   charged the decode delay of the instruction after it, not its own (`PairCost.BlockPrice`).
8. The prefetch queue miscounts the bytes of forms with a SIB byte: it takes none for a SIB
   byte without displacement, five for base field 5 with a displacement byte, and charges
   some register operands (`PrefetchQueue.EaBytesExactly`, `PrefetchQueue.EaBytesMiscounts`).

## Model

| member | source | states |
|---|---|---|
| SmmExact.TransparentExactly | src/cpu/386_common.c:1271-1461 | From any state at all, every handler that keeps the save area is invisible to the interrupted program, whatever memory held, if and only if segment caches and status summary are as a restore leaves them, the RAM mask is the one of the A20 gate, and every slot RSM takes state from is read where it was written |
| SmmExact.ReachableExactly | src/cpu/386_common.c:1356-1378 | The last condition in the terms of a caller: A20 is not unmasked, or no observed slot of the save area has an address bit that the RAM mask takes away |
| SmmExact.ResetNotTransparent | src/cpu/x86.c:279-282 | In the state a hard reset leaves, all address lines with the A20 gate closed, an SMI is not transparent; after the first one a settled program's next ones are |
| SmmExact.ExitRebuilt | src/cpu/386_common.c:943-1018 | Whatever SMRAM holds, RSM leaves every segment cache, use32 and stack32 as a rebuild would compute them |
| SmmTransparency.SmiTransparent | src/cpu/386_common.c:1421-1461 | Entry, any handler that leaves SMBASE and the save area alone, and RSM restore registers, flags, CR0/3/4, DR6/7, all eight segment registers with windows, bases, limits and attributes of both table registers, use32, stack32, SMBASE and the status summary; EIP is one lower after HLT, and the RAM mask is the one of the A20 gate, whatever it was |
| SmmTransparency.LatchedSmiTransparent | src/cpu/x86_ops_misc.h:1049-1052 | The same across an SMI latched in SMM and served by RSM at once, whose save is made under the derived RAM mask; EIP is lowered twice when entered from HLT |
| SmmTransparency.SegsRoundTrip | src/cpu/386_common.c:943-1018 | Restoring segments from any map that holds a rebuilt state gives back all its segment caches, use32, stack32 and the segment bits of the summary |
| SmmTransparency.CoreRoundTrip | src/cpu/386_common.c:926-941 | Restoring registers and control state from a map that holds a state gives back that state, but for the HLT adjustment of EIP and the RAM mask, which follows the A20 gate |
| SmmExact.LostSlotShows | src/cpu/386_common.c:1429-1440 | Any one observed slot that the two masks send apart suffices: some memory contents make the interrupted program see a different state |
| SmramMemory.SlotSurvivesExactly | src/cpu/386_common.c:1357-1378 | A slot of any save map reads back as stored, for all earlier memory contents, iff the masks of the write and the read agree on its address |
| SmramMemory.LostSlot | src/cpu/386_common.c:1429-1433 | Where they disagree, what is read is exactly what memory held before the save: no slot overlaps the read address, for any masks that keep the low ten lines |
| SmramImage.ImageIsImage | src/cpu/386_common.c:303-370 | The map has every field at the slot of the P6 layout, selectors and attributes packed together, and zero in the unused slots |
| SmramImage.ImageUnique | src/cpu/386_common.c:839-921 | That description leaves no freedom: any array with those fields is the map |
| CpuModel.WindowMatchesManual | src/cpu/386_common.c:603-618 | The rebuilt offset window accepts exactly the offsets of section 6.3.1.2 of the 80386 Programmer's Reference Manual iff the segment is not expand-down with limit 0xFFFFFFFF |
| CpuModel.FlatExactly | src/cpu/386_common.c:624-636 | DS or SS is summarised as flat iff every offset is accepted and is its own linear address |
| SmmCpu.Processor.SetStack32 | src/cpu/386_common.c:575-587 | stack32 and its summary bit end up equal, set only in protected mode outside V86 |
| SmmCpu.Processor.SetUse32 | src/cpu/386_common.c:589-601 | use32 and its summary bit end up in step, set only in protected mode outside V86 |
| SmmCpu.Processor.SmmSegLoad | src/cpu/386_common.c:603-638 | One rebuild changes that segment's cache and, for CS, DS and SS, the derived mode, and nothing else of the state; what the rebuild computes is in SmmExit.LeftSegment and LeftSizes |
| SmmCpu.Processor.SaveStateP6 | src/cpu/386_common.c:839-921 | The array filled field by field is the save map of the processor's state |
| SmmCpu.Processor.RestoreStateP6 | src/cpu/386_common.c:923-1029 | The whole new state as a function of the old state and any array contents |
| SmmCpu.Processor.EnterSmm | src/cpu/386_common.c:1308-1382 | The whole state after entry, memory included, is the one that the SmmEntry rows give in numbers and the transparency rows speak of |
| SmmEntry.HandlerStarts | src/cpu/386_common.c:1318-1326 | The handler starts at SMBASE + 0x8000 with the interrupted registers, flags 2, EFLAGS and CR4 zero, DR7 0x400, and CR0 without PG, TS, EM and PE but with every other bit as it was |
| SmmEntry.HandlerSegments | src/cpu/386_common.c:1327-1352 | CS has base SMBASE and selector SMBASE >> 4, the five data segments base and selector zero, all six reach over 4G and are checked; system segments and table registers are untouched |
| SmmEntry.HandlerMode | src/cpu/386_common.c:1347-1382 | 16-bit code and stack in real mode at level 0, with every summary bit off |
| SmmEntry.HandlerLatch | src/cpu/386_common.c:1363-1378 | A waiting SMI makes this the second level and is used up, NMIs are masked, the HLT mark is that of this entry, and A20 is unmasked with the mask put aside where the machine does so |
| SmmEntry.HandlerFindsProgram | src/cpu/386_common.c:303-370 | After entry the memory below SMBASE + 0x10000 holds the interrupted program: every register, segment and table at its P6 offset, each dword and packed field in numbers |
| SmmCpu.Processor.LeaveSmm | src/cpu/386_common.c:1423-1459 | The whole state after exit, whatever SMRAM holds, is the one that the SmmExit rows give in numbers and the transparency rows speak of |
| SmmExit.LeftCore | src/cpu/386_common.c:926-941 | Each register, EIP with the HLT restart, flags, control and debug registers, SMBASE and RAM mask after RSM are those of the dwords at the P6 offsets, whatever these hold |
| SmmExit.LeftSegment | src/cpu/386_common.c:603-618 | Each segment register after RSM has the selector, base, limit and attributes of its dwords; it is unchecked iff its selector is null in protected mode outside V86, and its window is that of its type, size and limit |
| SmmExit.LeftSizes | src/cpu/386_common.c:589-637 | After RSM use32 is 0x300 iff restored CR0.PE is set, VM clear and the D/B bit of CS's attribute dword set, and zero otherwise; stack32 likewise with SS |
| SmmExit.LeftPrivilege | src/cpu/386_common.c:986-986 | The privilege level after RSM is that of the CPL slot, in CS's access byte and in oldcpl |
| SmmExit.LeftTables | src/cpu/386_common.c:959-969 | Both table registers after RSM have the base, limit and attributes of their dwords |
| Words.DwordInMemory | src/cpu/386_common.c:1357-1360 | Dwords are in memory lowest byte first, and storing one touches four bytes only |
| SmmCpu.Processor.EnterSmmCheck | src/cpu/386_common.c:1386-1418 | An SMI is served outside SMM, latched in the first level, dropped in the second, and always taken off the line |
| SmmCpu.Processor.ResumeFromSmm | src/cpu/x86_ops_misc.h:1046-1059 | RSM is illegal outside SMM and changes nothing; inside it leaves, and re-enters at once if an SMI is latched |
| SmiLatch.LedgerSound | src/cpu/386_common.c:1363-1418 | In every run of ledger events: in_smm is 0, 1 or 2, nothing is latched at 2, NMIs are masked throughout SMM, and SMIs taken equal SMIs served plus merged plus the one waiting |
| SmiLatch.RunSound | src/cpu/386_common.c:1386-1461 | The same for every run of the whole processor through raises, checks, RSMs with any SMRAM contents, and steps that leave the latch alone |
| SmiLatch.LedgerFollowsRun | src/cpu/386_common.c:1386-1461 | In every such run the ledger's latch is the processor's at every state |
| SmiLatch.RaisesMerge | src/cpu/386_common.c:2140-2147 | Any number of raises before a check count as one SMI, and the check takes it and clears the line whatever the level |
| SmiLatch.TwoSmisServed | src/cpu/386_common.c:1389-1416 | From outside SMM two successive SMIs are both served, one inside the other's RSM, and none is merged |
| SmiLatch.LedgerFollowsCheck | src/cpu/386_common.c:1386-1418 | The latch of the ledger and of the processor move together at a check |
| SmiLatch.LedgerFollowsResume | src/cpu/x86_ops_misc.h:1046-1059 | RSM moves both latches alike, latched re-entry included; outside SMM neither moves |
| SmiLatch.ExitLatch | src/cpu/386_common.c:1446-1457 | Leaving SMM goes to level 0 and lets NMIs through again, and touches nothing else of the latch |
| StatusRuns.StatusAlways | src/cpu/386_common.c:575-638 | In every run of SMM entries, RSMs with arbitrary SMRAM, SYSENTER, SYSEXIT, SYSCALL, SYSRET and plain instructions, the six summary bits say what use32, stack32, DS, SS, CR0 and EFLAGS say |
| StatusRuns.SelectionSafe | src/cpu/386_dynarec.c:411-441 | In every run, a block recorded under a flat DS or SS is never selected while that segment is not flat, nor in another operand size, stack size or processor mode |
| StatusRuns.MatchEncoded | src/cpu/386_dynarec.c:416-416 | The two bit-wise tests of the lookup hold iff the six conditions on the summaries do |
| StatusRuns.EntryStatus | src/cpu/386_common.c:1338-1382 | Entry makes the summary right from any state, consistent or not |
| StatusRuns.ExitStatus | src/cpu/386_common.c:1444-1455 | Exit makes it right whatever SMRAM holds |
| StatusRuns.SysenterStatus | src/cpu/386_common.c:1860-1896 | A successful SYSENTER keeps the summary right although it never sets the protected-mode bit |
| StatusRuns.SysexitStatus | src/cpu/386_common.c:1953-1983 | A successful SYSEXIT keeps the summary right although it never clears the V86 bit |
| StatusRuns.SyscallStatusExactly | src/cpu/386_common.c:2005-2043 | SYSCALL keeps the summary right iff CR0.PE is set |
| StatusRuns.SysretStatusExactly | src/cpu/386_common.c:2057-2104 | SYSRET keeps the summary right iff CR0.PE is set |
| ModeSwitch.SyscallTargetExactly | src/cpu/386_common.c:2005-2043 | SYSCALL ends at the target in STAR iff the program counter was there already; the return address is in ECX in any case |
| ModeSwitch.SysretSsExactly | src/cpu/386_common.c:2087-2095 | SYSRET leaves a flat 32-bit SS iff SS had those attributes before, and a flat 32-bit CS always |
| ModeSwitch.SysenterIs | src/cpu/386_common.c:1837-1896 | SYSENTER succeeds iff in protected mode with a selector that is not null; then EIP and ESP are the MSRs', IF, VM and RF off, CS and SS flat ring 0 segments, and no other register or flag has moved |
| ModeSwitch.SysexitIs | src/cpu/386_common.c:1918-1983 | SYSEXIT succeeds iff also in ring 0; then EIP is the old EDX and ESP the old ECX, CS and SS are flat ring 3 segments 16 and 24 above the MSR, and nothing else has moved |
| ModeSwitch.SyscallIs | src/cpu/386_common.c:2005-2043 | SYSCALL leaves the return address in ECX, IF and VM off, and flat ring 0 segments from STAR; no other register or flag moves |
| ModeSwitch.SysretIs | src/cpu/386_common.c:2057-2104 | SYSRET succeeds iff in ring 0; then EIP is ECX, IF is on, CS and SS have STAR's ring 3 selectors, and no other register or flag has moved |
| ModeSwitch.SysenterReturns | src/cpu/386_common.c:1953-1983 | A kernel entered by SYSENTER that puts the caller's EIP in EDX and its ESP in ECX resumes the caller with SYSEXIT |
| SmmCpu.Processor.Sysenter | src/cpu/386_common.c:1837-1896 | Refused outside protected mode or with a null selector, with nothing changed; otherwise the state of ModeSwitch.SysenterIs |
| SmmCpu.Processor.Sysexit | src/cpu/386_common.c:1918-1983 | Refused outside protected mode, with a null selector or outside ring 0, with nothing changed; otherwise the state of ModeSwitch.SysexitIs |
| SmmCpu.Processor.SyscallOp | src/cpu/386_common.c:1999-2048 | The whole new state: ECX holds the return address and EIP is left alone |
| SmmCpu.Processor.Sysret | src/cpu/386_common.c:2051-2109 | Refused outside ring 0; otherwise the whole new state, in which the attributes of SS are the old ones |
| EffectiveAddress.AddressMaskExactly | src/cpu/codegen_timing_common.h:119-139 | With 32-bit addressing the mask names exactly the registers that can change the effective address, iff the SIB base field is not 5 or that form reads no register |
| EffectiveAddress.OutsideMaskIrrelevant | src/cpu/386_dynarec.c:76-123 | Without SIB base 5, two register files that agree on the mask give the same effective address, for every displacement |
| EffectiveAddress.PlainSum | src/cpu/386_dynarec.c:107-123 | Without a SIB byte the address is register plus sign-extended byte or dword displacement, mod 2^32 |
| EffectiveAddress.SibSum | src/cpu/386_dynarec.c:81-106 | With one it is base plus displacement plus index times 1, 2, 4 or 8, mod 2^32, with no index for number 4 and no base register for number 5 with mod 0 |
| EffectiveAddress.Sum16Is | src/cpu/386_dynarec.c:134-159 | A 16-bit address is BX or BP plus SI or DI, or one of them, plus displacement, mod 2^16 |
| EffectiveAddress.Address16MaskExactly | src/cpu/386_dynarec.c:134-159 | With 16-bit addressing the mask names exactly the registers that can change the effective address iff the form is the plain displacement |
| EffectiveAddress.Mask16Misses | src/cpu/codegen_timing_common.h:140-169 | Every other form reads a register, and its mask names none of those it reads |
| TimingMasks.MasksNarrow | src/cpu/codegen_timing_common.h:119-232 | No mask ever reaches bit 10, so the tests for implicit use of ESP on masks cannot succeed |
| TimingMasks.DstNames | src/cpu/codegen_timing_common.h:206-231 | The destination mask names exactly the ModR/M registers, fixed registers, MMX unit and implicit ESP that the table entry says are written, byte registers folded into four |
| TimingMasks.SrcNames | src/cpu/codegen_timing_common.h:179-204 | The source mask names exactly those the entry says are read, and those of the address mask |
| TimingMasks.AddrNames | src/cpu/codegen_timing_common.h:119-139 | The 32-bit address mask names exactly the base and index of the form, and implicit ESP |
| TimingMasks.Addr16Names | src/cpu/codegen_timing_common.h:140-169 | The 16-bit one has the bits of the combined register numbers |
| PairTheorems.BlockRefinesPartition | src/cpu/codegen_timing_686.c:986-1077 | For every block: each instruction is issued once and in order, alone or in a legal pair, and an instruction issued alone could not have led the group after it |
| PairTheorems.BlockIndependent | src/cpu/codegen_timing_686.c:1013-1037 | In every block, the second of a pair reads no register that the first writes, and nothing the first writes there moves the second's 32-bit address (SIB base 5 apart), in terms of table entry and ModR/M bits |
| PairCost.BlockPrice | src/cpu/codegen_timing_686.c:981-1077 | Every block costs exactly the price of its partition, read off group by group: the slower half and the second's stall for a pair; count, stall and a decode delay for an instruction alone, its own, its successor's if it waited for one, or what the one before left behind |
| PairTheorems.BlockIssuesPartition | src/cpu/codegen_timing_686.c:814-1077 | The online scheduler with its one-slot buffer issues the greedy partition of the whole list, and its buffer ends empty |
| PairTheorems.BlockCyclesSound | src/cpu/codegen_timing_686.c:981-1077 | Although the decode delay goes negative, a block costs a cycle at least for each group that takes time, and at most counts and penalised prefixes plus three cycles an instruction |
| PairTheorems.BlockThroughput | src/cpu/codegen_timing_686.c:1021-1037 | n instructions that all take time cost n / 2 cycles at least |
| PairTheorems.AbortUnreachable | src/cpu/codegen_timing_686.c:1022-1027 | No block of instructions whose pairable table entries have a nonzero count runs into the "Pairable 0 cycles" abort |
| PairTheorems.AbortExactly | src/cpu/codegen_timing_686.c:986-1038 | Any block runs into the abort iff its partition has a pair in which both halves count zero cycles |
| PairTheorems.PairChargeExactly | src/cpu/codegen_timing_686.c:993-1032 | A pair is charged its slower half and both address stalls, each against the marks it found, iff the first has no stall |
| PairTheorems.HiddenStallExactly | src/cpu/codegen_timing_686.c:848-865 | Working out the first's stall changes the second's iff both address through a register the group before modified |
| PairTheorems.StallExactly | src/cpu/codegen_timing_686.c:848-865 | With an exact address mask an address stall is two cycles iff the address reads what the group before wrote, none iff it reads neither that nor what the group before that wrote, and one otherwise; only a stall of two clears the marks |
| PairSpec.PartitionFlattens | src/cpu/codegen_timing_686.c:1041-1066 | The groups, laid end to end, are the instruction list |
| PairSpec.PartitionLegal | src/cpu/codegen_timing_686.c:995-1021 | In every pair the second is not NP, the first neither NP nor X_BRANCH, and the first's destination mask misses the second's source mask |
| PairSpec.PartitionMaximal | src/cpu/codegen_timing_686.c:1021-1038 | No pair is missed: an instruction left alone could not lead the next group's first |
| PairSpec.PairingExactly | src/cpu/codegen_timing_686.c:995-1053 | An instruction waits for a partner iff its class is X or XY, and can follow one iff its class is not NP, it is not caught by the X-pipe test, and the masks are disjoint |
| PairSpec.EntryReadBack | src/cpu/codegen_timing_686.c:800-812 | A table entry made of a class and a count that fits has that class and that count |
| PairSpec.MultiReadBack | src/cpu/codegen_timing_686.c:800-807 | An entry with two counts has the one of the operand size, and does not pair |
| PairSpec.PenalisedExactly | src/cpu/codegen_timing_686.c:828-846 | The free prefixes are D8 to DF, and 0F before a byte 80 to 8F |
| PairScheduler.Scheduler.CheckAgi | src/cpu/codegen_timing_686.c:848-865 | The stall and the marks left are those of the mask without the implicit-ESP extension, which never applies |
| PairScheduler.Scheduler.PrefixByte | src/cpu/codegen_timing_686.c:828-846 | Escape bytes and the 0F of conditional jumps cost nothing, any other prefix one cycle |
| PairScheduler.Scheduler.Opcode | src/cpu/codegen_timing_686.c:981-1067 | The whole new scheduler state, or the abort exactly when both halves count zero |
| PairScheduler.Scheduler.BlockEnd | src/cpu/codegen_timing_686.c:1069-1077 | A buffered instruction is issued alone with the delay still pending |
| PairScheduler.TimeBlock | src/cpu/codegen_timing_686.c:814-1077 | A whole block through the in-place scheduler gives up iff its partition has a pair that takes no time, and otherwise issues the partition, costs its price and stays between both cycle bounds |
| CodeFetch.Fetcher.FastReadB | src/cpu/386_common.h:350-370 | Aborts exactly when the page is unmapped, otherwise the byte of translated memory; the cache stays empty or true |
| CodeFetch.Fetcher.FastReadW | src/cpu/386_common.h:372-397 | Aborts exactly when a touched page is unmapped, otherwise the two bytes, across page ends and the 4G wrap |
| CodeFetch.Fetcher.FastReadL | src/cpu/386_common.h:399-426 | Aborts exactly when a touched page is unmapped, otherwise the four bytes, at every page offset |
| CodeFetch.Fetcher.FastReadWFetch | src/cpu/386_common.h:489-515 | Touches the next page only when the first opcode byte says the instruction is longer |
| CodeFetch.Fetcher.FastReadLFetch | src/cpu/386_common.h:517-546 | Aborts exactly when one of the bytes it has to fetch is unmapped; an opcode that fits in its page leaves that page cached |
| CodeFetch.PrefetchExact | src/cpu/386_common.h:530-545 | What is fetched agrees with the full dword on the table length, on all of it for length 3, and an opcode of length 1 or 2 that fits in a mapped page cannot abort |
| CodeFetch.ByteTranslated | src/cpu/386_common.h:361-369 | A fetched byte is the one at the frame of its page number plus the low twelve bits of its address |
| MemAccess.Bus.Run | src/cpu/386_common.h:129-171 | Every sequence of table changes, decodings, loads and stores through what decoding left behind, and macro accesses gives the results and the memory of byte-wise access; the tables may hold any part of the mapping at any moment, a pointer may be used long after, and pages may alias |
| MemAccess.ReadExactly | src/cpu/386_common.h:132-135 | Byte-wise reading yields the bytes in order of address, each at the frame of its own page, and nothing iff one is not mapped |
| MemAccess.WriteFaults | src/cpu/386_common.h:152-171 | Byte-wise writing faults iff one of the bytes is not mapped |
| MemAccess.WriteExactly | src/cpu/386_common.h:152-171 | Without fault each byte is left in its place, wherever no two bytes share one |
| MemAccess.WriteTouchesOnly | src/cpu/386_common.h:152-171 | No RAM outside these places changes, fault or not |
| MemAccess.Bus.ReadMem | src/cpu/386_common.h:132-135 | A read macro, fast or slow, yields the bytes at the wrapped address or faults if one is unmapped |
| MemAccess.Bus.WriteMem | src/cpu/386_common.h:152-171 | A write macro, fast or slow, has the effect and the fault of byte-wise stores |
| MemAccess.Bus.Decode | src/cpu/386_dynarec.c:124-130 | A pointer that decoding leaves behind points at the frame of the address, with room for a dword before the page ends |
| MemAccess.Bus.GetEa | src/cpu/386_common.h:709-737 | Reading through the decoded pointer or around it gives the bytes at the effective address |
| MemAccess.Bus.SetEa | src/cpu/386_common.h:782-810 | Writing through the decoded pointer or around it has the effect of byte-wise stores |
| MemAccess.DirectRead | src/cpu/386_common.h:129-134 | A direct read inside one page is the byte-wise read, at any offset and size that fit |
| MemAccess.DirectWrite | src/cpu/386_common.h:152-171 | A direct write inside one page is the byte-wise write, with aliased pages seeing it |
| BlockFootprint.BuildBlock | src/cpu/386_dynarec.c:535-626 | Every byte of every instruction run while building a block lies in the start's line or page or in the one of the second address checked for dirtiness, even when a branch moves backwards or round the 4G wrap; the loop ends early only when told to or when the distance reaches 1000, or 103 less the start's place in its line |
| BlockFootprint.InstructionCovered | src/cpu/386_dynarec.c:457-488 | The same for one instruction of at most 15 bytes started within the block size, at every start address |
| BlockFootprint.PlacesExactly | src/cpu/386_dynarec.c:466-466 | The two places are the start's 64-byte line and the next, or the start's page and that of the start plus 0x400, round the 4G wrap |
| CycleLedger.Executive.UpdateTsc | src/cpu/386_dynarec.c:258-284 | The time stamp moves up to what the block has consumed so far and never back |
| CycleLedger.Executive.RunBlock | src/cpu/386_dynarec.c:774-863 | One block moves the time stamp by its charge, however many updates it made on the way |
| CycleLedger.ChargedExactly | src/cpu/386_dynarec.c:852-863 | The charge is what the block consumed, iff it gave back nothing below what an update had already counted; always when it only consumes |
| CycleLedger.EndsExactly | src/cpu/386_dynarec.c:755-767 | With blocks that take cycles, the executive's loop ends iff the period is positive or there is nothing to run |
| CycleLedger.StuckWithoutPeriod | src/cpu/386_dynarec.c:755-767 | Otherwise every turn leaves cycles_main as it is and runs no block |
| CycleLedger.PeriodExactly | src/cpu/386_dynarec.c:755-755 | The period is a 200th, or in the finer setting a 2000th, of the cycles, rounded towards zero |
| CycleLedger.Executive.RunPeriod | src/cpu/386_dynarec.c:767-874 | A period consumes its cycles and overshoots by less than the largest block, and the time stamp moves by just that |
| CycleLedger.Executive.Execute | src/cpu/386_dynarec.c:745-878 | A whole call ends, moves the time stamp by old cycles_main plus cycs minus new cycles_main, and leaves cycles_main above minus a period and the largest block |
| PrefetchQueue.Queue.Run | src/cpu/386_common.c:515-567 | The queue stays in 0..16, equals fetched minus consumed minus discarded, and each call charges one fetch for each width of the deficit begun |
| PrefetchQueue.Queue.FillUp | src/cpu/386_common.c:550-554 | Stalls are just enough fetches to cover the deficit |
| PrefetchQueue.Queue.Refill | src/cpu/386_common.c:559-562 | Refills are as many as the spare cycles pay for |
| PrefetchQueue.Queue.Flush | src/cpu/386_common.c:569-573 | What a flush empties is entered as discarded |
| PrefetchQueue.JustEnoughExactly | src/cpu/386_common.c:551-554 | "Just enough" stalls are the deficit over the width, rounded up, and none without a deficit |
| PrefetchQueue.EaBytesExactly | src/cpu/386_common.c:525-548 | The queue takes as many bytes as the SIB byte and displacement really have iff there is no SIB form, or mod is 2, or mod is zero just when the base field is 5 |
| PrefetchQueue.EaBytesMiscounts | src/cpu/386_common.c:526-533 | Inputs of the three ways it goes wrong: ModR/M 0x04 with an ordinary SIB byte, 0x44 and 0xC4 with base field 5 |
| PrefetchQueue.MemCyclesRates | src/cpu/386_common.c:518-518 | Each kind of memory access is charged at its own rate, and charges add up |
| StackOps.PushesThenPops | src/cpu/386_ops.h:52-118 | Any sequence of word and dword pushes of at most the pointer's range, then the matching pops, gives the values back in reverse and restores SP or ESP |
| StackOps.PushExactly | src/cpu/386_ops.h:52-84 | After a push the value lies lowest byte first at SS base plus the new pointer, every other byte is as it was, and the pointer is lower by its size, the upper half of ESP kept on a 16-bit stack |
| StackOps.PopExactly | src/cpu/386_ops.h:86-118 | A pop yields the bytes at SS base plus the pointer and then moves it up; memory stays |
| StackOps.SlotsApart | src/cpu/386_ops.h:53-84 | Two pushes of such a sequence never overlap in linear memory, dwords that straddle 64K included |
| StackOps.Machine.PushValue | src/cpu/386_ops.h:52-84 | Aborts exactly when one of the bytes at SS base plus the lowered pointer is unmapped, with the pointer unchanged; otherwise the push of StackOps.PushExactly |
| StackOps.Machine.PopValue | src/cpu/386_ops.h:86-118 | Aborts exactly when one of the bytes at SS base plus the pointer is unmapped, with the pointer unchanged and zero returned; otherwise the pop of StackOps.PopExactly |
| IoPerm.Guard.CheckIo | src/cpu/386_common.c:1652-1683 | For a 386 TSS the result is zero iff the bitmap bits of all the ports are clear and every byte that holds one is within the limit (section 8.3.2 of the 80386 Programmer's Reference Manual) |
| IoPerm.GrantedExactly | src/cpu/386_common.c:1664-1680 | The bitmap starts at the word at TSS + 0x66, and port p is bit p % 8, least significant first, of its byte p / 8 |
| IoPerm.TwoBytes | src/cpu/386_common.c:1671-1677 | For a group that runs into the next byte, one masked word within the limit decides the same as the ports one by one |
| IoPerm.OneByte | src/cpu/386_common.c:1677-1680 | The same for a group in one byte |
| IoPerm.Guard.CheckIoPerm | src/cpu/386_common.h:208-220 | An access goes ahead iff in real mode, privileged outside V86, or permitted by the bitmap; the fault kind follows V86 mode |
| Divide.Divider.Divl | src/cpu/386_common.c:1698-1725 | Faults iff EDX is at least the divisor, registers unchanged; otherwise dividend = quotient * divisor + remainder with the remainder below the divisor |
| Divide.Divider.Idivl | src/cpu/386_common.c:1727-1754 | Faults iff the divisor is zero or the dividend's magnitude reaches a bound comparable without dividing; otherwise the division identity with the remainder smaller than the divisor and of the dividend's sign |
| Divide.TwosComplement | src/cpu/386_common.c:1740-1743 | EDX:EAX is the 64-bit two's complement dividend, and results are 32-bit two's complement numbers |
| Divide.FitsExactly | src/cpu/386_common.c:1741-1748 | The truncated quotient fits 32 bits iff the dividend's magnitude is below 2^31 divisors, or one more when the signs differ |
| Divide.DividesUnique | src/cpu/386_common.c:1741-1742 | No other quotient and remainder satisfy the identity with that range and sign |
| Divide.QuotDivides | src/cpu/386_common.c:1741-1742 | C's truncating quotient and remainder do |
| RealModeInt.EscalationEnds | src/cpu/386_common.c:1506-1518 | A software interrupt looks at three vectors at most, and resets iff its own vector is outside a table too short for vector 8 |
| RealModeInt.VectorTaken | src/cpu/386_common.c:1506-1518 | The vector delivered is the own one, or 13 for a software interrupt, or 8, the first in this order that the table reaches, and a reset otherwise |
| RealModeInt.FrameReturns | src/cpu/386_common.c:1519-1529 | Popping three words after a delivery gives back IP, CS and flags and restores the stack pointer |
| RealModeInt.FrameInMemory | src/cpu/386_common.c:1519-1529 | From the new pointer upwards memory holds the words IP, CS and flags, low byte first, at SS base and round the wrap of the stack; the pointer is six lower |
| RealModeInt.FrameTouchesOnly | src/cpu/386_common.c:1519-1529 | Every byte outside these three words is as it was |
| RealModeInt.Processor.X86Int | src/cpu/386_common.c:1496-1544 | Ends in a reset with memory as it was and no frame in it, or in exactly one six-byte frame with the instruction's start, I and T cleared and no other flag changed, and IP and CS from the table at four times the last vector tried; 70 cycles for each vector tried |
| RealModeInt.Processor.X86IntSw | src/cpu/386_common.c:1546-1597 | The same for a software interrupt; the frame holds the next instruction when its own vector is delivered and the instruction's start when it escalates |

## Left out

- SmmCpu.Processor.EnterSmm: addresses beyond the RAM size, stale lookup-table entries, SMRAM remapping and the flags' lazy form are not modelled; the lookup tables are taken as flushed and flags as rebuilt. RAM masks are any that keep the low ten lines, as every RAM size in kilobytes gives.
- SmmCpu.Processor.LeaveSmm: GDT and IDT selectors, CR2 and DR0 to DR3 are not in the P6 map, so nothing is said of them.
- SmmCpu.Processor.EnterSmmCheck: in_smm values other than 0, 1 and 2 are served like 0, as in builds without logging; the fatal error of logging builds is not modelled.
- SmmCpu.Processor.Sysenter: the callback tried first, and the flags `in_sys`, `codegen_flat_ss`, `oldpc` and `cpu_end_block_after_ins` of all four mode switches are not modelled.
- SmmCpu.Processor.SmiRaise: the fast-off timer is not modelled; what a raise means to the latch is in SmiLatch.RaisesMerge.
- StatusRuns.StatusAlways: segment loads, MOV to CR0, task switches and interrupts in protected mode are in files not modelled; a plain instruction is one that leaves mode, DS, SS, CR0 and EFLAGS alone.
- StatusRuns.SelectionSafe: dirty masks, the block tree and the block hash are not modelled; the compared fields are.
- EffectiveAddress.OutsideMaskIrrelevant: the choice of the default segment is not part of the address modelled.
- PairScheduler.Scheduler.Opcode: the tables and their selection by prefix and opcode are parameters; the X-against-X test looks the new opcode up in the previous instruction's table and is an arbitrary boolean per instruction.
- CodeFetch.Fetcher.FastReadB: getpccache and the page-table walk are an assumed translation function; a new translation comes with a flush.
- MemAccess.Bus.Run: only RAM pages; segment-limit checks before a store and register operands are not modelled. An aborted store leaves what byte-wise stores before the fault leave.
- BlockFootprint.BuildBlock: the instructions of a block, their lengths and where they branch are an arbitrary list; code generation and its own size limits are not modelled.
- CycleLedger.Executive.Execute: 32-bit overflow of the cycle counters, 64-bit wrap of the time stamp, timers, resets and the debugger stub are not modelled.
- StackOps.Machine.PushValue: says nothing of memory after an abort; the slow path's partial stores are in code not modelled.
- IoPerm.Guard.CheckIo: after an abort the result is left open, as the caller discards it; the TSS of a 286 task is judged by privilege alone, as in the code.
- Divide.Divider.Idivl: -2^63 / -1, undefined in C, is excluded.
- RealModeInt.Processor.X86Int: of a soft reset only CS, IP, flags, ESP and the stack size are modelled, not its delay after HLT nor its leaving SMM; page faults while the frame is stored, protected mode and the software-interrupt callback are not modelled.
- Save maps of the P5, AMD-K and Cyrix layouts: not used by entry and exit.
- Additive timing models (486, WinChip and others), opcode tables, the interpreter loops, `386.c`, tracing and `main.c`.
- The variants of the macros for the 286 and 386 and for debug registers.

/** The status summary is inductive, and compiled blocks are matched by it: no
    block recorded in one mode is ever selected in a mode it does not fit. */
module StatusRuns {
  import opened Words
  import opened CpuModel
  import Img = SmramImage
  import opened SmramMemory
  import opened SmmSpec
  import opened ModeSwitch

  /** The bits that segment loads look after say what the state says. */
  ghost predicate SegBitsOk(s: Cpu) {
    && s.mode.status.use32 == (s.mode.use32 != 0)
    && s.mode.status.stack32 == s.mode.stack32
    && s.mode.status.notFlatDs == !Flat(s.segs.ds)
    && s.mode.status.notFlatSs == !Flat(s.segs.ss)
  }

  lemma ReloadedStatus(s: Cpu)
    ensures SegBitsOk(ReloadAll(s)) && ReloadAll(s).core == s.core
  {
  }

  lemma EnteredStatus(s: Cpu)
    ensures SegBitsOk(Entered(s)) && Entered(s).core == EntryCore(s.core)
  {
    ReloadedStatus(Preloaded(s.(latch := s.latch.(inSmm := 1))));
  }

  /** The last steps of entry turn off the bits for protected and V86 mode. */
  lemma DoneStatus(t: Cpu, inHlt: bool)
    requires SegBitsOk(t) && !PE(t.core)
    ensures StatusOk(EntryDone(t, inHlt))
  {
  }

  /** From any state. */
  lemma EntryStatus(s: Cpu, inHlt: bool)
    ensures StatusOk(Enter(s, inHlt))
  {
    EnteredStatus(s);
    EntryUnprotected(s.core);
    var stored := WriteSlots(s.mem, s.core.rammask, s.core.smbase, Img.Image(s, inHlt), Img.SLOTS);
    DoneStatus(Entered(s).(mem := stored), inHlt);
  }

  lemma RestoredStatus(s: Cpu, img: seq<Word32>)
    requires |img| == Img.SLOTS
    ensures SegBitsOk(RestoreSegs(s, img)) && RestoreSegs(s, img).core == s.core
  {
  }

  /** Whatever SMRAM holds. */
  lemma ExitStatus(s: Cpu)
    ensures StatusOk(Leave(s))
  {
    var img := ReadSlots(s.mem, s.core.rammask, s.core.smbase);
    var undone := Undone(s);
    RestoredStatus(RestorePlain(undone, img), img);
  }

  lemma SysenterStatus(s: Cpu, msr: SysenterMsrs)
    requires StatusOk(s) && Sysenter(s, msr).Some?
    ensures StatusOk(Sysenter(s, msr).value)
  {
    SysenterMode(s, msr);
  }

  lemma SysexitStatus(s: Cpu, msr: SysenterMsrs)
    requires StatusOk(s) && Sysexit(s, msr).Some?
    ensures StatusOk(Sysexit(s, msr).value)
  {
  }

  /** SYSCALL and SYSRET do not check for protected mode, and the summary stays
      right exactly when the processor is in it. */
  lemma SyscallStatusExactly(s: Cpu, star: Star)
    requires StatusOk(s)
    ensures StatusOk(Syscall(s, star)) <==> PE(s.core)
  {
  }

  lemma SysretStatusExactly(s: Cpu, star: Star)
    requires StatusOk(s) && Cpl(s.segs) == 0
    ensures StatusOk(Sysret(s, star).value) <==> PE(s.core)
  {
  }

  // -------- runs --------

  datatype Step =
    | Smi(inHlt: bool)
    | Resume(sram: Memory)
    | SysenterStep(msr: SysenterMsrs)
    | SysexitStep(msr: SysenterMsrs)
    | SyscallStep(star: Star)
    | SysretStep(star: Star)
    | Plain

  /** s goes to t. A plain step is any instruction that leaves the mode, DS, SS,
      CR0 and EFLAGS as they are. Resume is RSM with memory contents sram. */
  ghost predicate Next(s: Cpu, step: Step, t: Cpu) {
    match step
    case Smi(inHlt) => t == Enter(s, inHlt)
    case Resume(sram) => t == Leave(s.(mem := sram))
    case SysenterStep(msr) => Sysenter(s, msr) == Some(t)
    case SysexitStep(msr) => Sysexit(s, msr) == Some(t)
    case SyscallStep(star) => PE(s.core) && t == Syscall(s, star)
    case SysretStep(star) => PE(s.core) && Sysret(s, star) == Some(t)
    case Plain => t.mode == s.mode && t.segs.ds == s.segs.ds && t.segs.ss == s.segs.ss
                  && t.core.cr0 == s.core.cr0 && t.core.eflags == s.core.eflags
  }

  lemma NextStatus(s: Cpu, step: Step, t: Cpu)
    requires StatusOk(s) && Next(s, step, t)
    ensures StatusOk(t)
  {
    match step
    case Smi(inHlt) => EntryStatus(s, inHlt);
    case Resume(sram) => ExitStatus(s.(mem := sram));
    case SysenterStep(msr) => SysenterStatus(s, msr);
    case SysexitStep(msr) => SysexitStatus(s, msr);
    case SyscallStep(star) => SyscallStatusExactly(s, star);
    case SysretStep(star) => SysretStatusExactly(s, star);
    case Plain =>
  }

  ghost predicate Run(states: seq<Cpu>, steps: seq<Step>) {
    && |states| == |steps| + 1
    && forall i | 0 <= i < |steps| :: Next(states[i], steps[i], states[i + 1])
  }

  lemma {:induction false} StatusAlways(states: seq<Cpu>, steps: seq<Step>, i: nat)
    requires Run(states, steps) && i < |states| && StatusOk(states[0])
    ensures StatusOk(states[i])
  {
    if i > 0 {
      StatusAlways(states, steps, i - 1);
      NextStatus(states[i - 1], steps[i - 1], states[i]);
    }
  }

  // -------- block selection --------

  /** What the lookup compares of a recorded block. */
  datatype Block = Block(pc: Word32, cs: Word32, phys: Word32, status: Status)

  predicate StatusMatches(block: Status, cur: Status) {
    && (block.use32, block.stack32, block.pmode, block.v86) == (cur.use32, cur.stack32, cur.pmode, cur.v86)
    && (cur.notFlatDs ==> block.notFlatDs)
    && (cur.notFlatSs ==> block.notFlatSs)
  }

  predicate Selected(b: Block, s: Cpu, phys: Word32) {
    && b.pc == Wrap32(s.segs.cs.base + s.core.pc)
    && b.cs == s.segs.cs.base
    && b.phys == phys
    && StatusMatches(b.status, s.mode.status)
  }

  function Record(s: Cpu, phys: Word32): Block {
    Block(Wrap32(s.segs.cs.base + s.core.pc), s.segs.cs.base, phys, s.mode.status)
  }

  function BitIf(on: bool, bit: bv16): bv16 {
    if on then bit else 0
  }

  /** cpu_cur_status with the new recompiler. */
  function Encode(st: Status): bv16 {
    BitIf(st.use32, 0x1) | BitIf(st.stack32, 0x2) | BitIf(st.pmode, 0x4) | BitIf(st.v86, 0x8)
    | BitIf(st.notFlatDs, 0x100) | BitIf(st.notFlatSs, 0x200)
  }

  /** The comparison of the lookup, on the encoded summaries. */
  lemma MatchEncoded(block: Status, cur: Status)
    ensures StatusMatches(block, cur)
       <==> (Encode(block) ^ Encode(cur)) & 0xff == 0
            && Encode(block) & Encode(cur) & 0xff00 == Encode(cur) & 0xff00
  {
  }

  /** In every run, a block recorded in state i and selected in state j was
      recorded in the mode of state j, with DS and SS no flatter than they are. */
  lemma SelectionSafe(states: seq<Cpu>, steps: seq<Step>, i: nat, j: nat, recorded: Word32, phys: Word32)
    requires Run(states, steps) && StatusOk(states[0]) && i < |states| && j < |states|
    requires Selected(Record(states[i], recorded), states[j], phys)
    ensures Flat(states[i].segs.ds) ==> Flat(states[j].segs.ds)
    ensures Flat(states[i].segs.ss) ==> Flat(states[j].segs.ss)
    ensures (states[i].mode.use32 != 0) == (states[j].mode.use32 != 0)
    ensures states[i].mode.stack32 == states[j].mode.stack32
    ensures PE(states[i].core) == PE(states[j].core)
    ensures ProtectedNotV86(states[i].core) == ProtectedNotV86(states[j].core)
  {
    StatusAlways(states, steps, i);
    StatusAlways(states, steps, j);
  }
}

/** SYSENTER, SYSEXIT, SYSCALL and SYSRET as functions on states. A #GP is raised
    before anything changes. */
module ModeSwitch {
  import opened Words
  import opened CpuModel

  datatype SysenterMsrs = SysenterMsrs(cs: Word16, esp: Word32, eip: Word32)

  /** The fields of STAR: the SYSCALL target, and the two selector bases. */
  datatype Star = Star(target: Word32, callBase: Word16, retBase: Word16)

  const ECX: nat := 1
  const EDX: nat := 2
  const ESP: nat := 4

  /** s & 0xfffc. */
  function Ring0Selector(s: int): Word16 {
    Wrap16(s) / 4 * 4
  }

  /** (s & 0xfffc) | 3. */
  function Ring3Selector(s: int): Word16 {
    Wrap16(s) / 4 * 4 + 3
  }

  function FlatSeg(seg: Word16, access: Byte, arHigh: Byte): Seg {
    Seg(0, 0xffffffff, access, arHigh, seg, 0, 0xffffffff, true)
  }

  function ClearIf(flags: Word16): Word16 {
    flags - 0x200 * (flags / 0x200 % 2)
  }

  function SetIf(flags: Word16): Word16 {
    ClearIf(flags) + 0x200
  }

  function ClearVm(eflags: Word16): Word16 {
    eflags - 2 * (eflags / 2 % 2)
  }

  function ClearRfVm(eflags: Word16): Word16 {
    eflags / 4 * 4
  }

  /** use32 and stack32 set for 32-bit code, as far as the mode of c allows. */
  function Mode32(c: Core, status: Status): Mode {
    var on := ProtectedNotV86(c);
    Mode(if on then 0x300 else 0, on, status.(use32 := on, stack32 := on))
  }

  function Sysenter(s: Cpu, msr: SysenterMsrs): Option<Cpu> {
    if !PE(s.core) || msr.cs / 8 == 0 then None
    else
      var c := s.core.(eflags := ClearRfVm(s.core.eflags), flags := ClearIf(s.core.flags),
                       regs := s.core.regs[ESP := msr.esp], pc := msr.eip);
      Some(s.(core := c,
              segs := s.segs.(cs := FlatSeg(Ring0Selector(msr.cs), 0x9b, 0xcf),
                              ss := FlatSeg(Ring0Selector(msr.cs + 8), 0x93, 0xcf)),
              mode := Mode32(c, s.mode.status.(notFlatSs := false, v86 := false)),
              oldcpl := 0))
  }

  function Sysexit(s: Cpu, msr: SysenterMsrs): Option<Cpu> {
    if msr.cs / 8 == 0 || !PE(s.core) || Cpl(s.segs) != 0 then None
    else
      var c := s.core.(regs := s.core.regs[ESP := s.core.regs[ECX]], pc := s.core.regs[EDX]);
      Some(s.(core := c,
              segs := s.segs.(cs := FlatSeg(Ring3Selector(msr.cs + 16), 0xfb, 0xcf),
                              ss := FlatSeg(Ring3Selector(msr.cs + 24), 0xf3, 0xcf)),
              mode := Mode32(c, s.mode.status.(notFlatSs := false, pmode := true)),
              oldcpl := 3))
  }

  /** EIP is left as it is. */
  function Syscall(s: Cpu, star: Star): Cpu {
    var c := s.core.(eflags := ClearVm(s.core.eflags), flags := ClearIf(s.core.flags),
                     regs := s.core.regs[ECX := s.core.pc]);
    s.(core := c,
       segs := s.segs.(cs := FlatSeg(Ring0Selector(star.callBase), 0x9b, 0xcf),
                       ss := FlatSeg(Ring0Selector(star.callBase + 8), 0x93, 0xcf)),
       mode := Mode32(c, s.mode.status.(notFlatSs := false, v86 := false, pmode := true)),
       oldcpl := 0)
  }

  /** The attributes of SS stay as they are. */
  function Sysret(s: Cpu, star: Star): Option<Cpu> {
    if Cpl(s.segs) != 0 then None
    else
      var c := s.core.(flags := SetIf(s.core.flags), pc := s.core.regs[ECX]);
      Some(s.(core := c,
              segs := s.segs.(cs := FlatSeg(Ring3Selector(star.retBase), 0xfb, 0xcf),
                              ss := FlatSeg(Ring3Selector(star.retBase + 8), 0xf3, s.segs.ss.arHigh)),
              mode := Mode32(c, s.mode.status.(notFlatSs := false, pmode := true)),
              oldcpl := 3))
  }

  /** By AMD's definition SYSCALL goes to the target in STAR. It does so exactly when
      the program counter is there already; nothing else differs. */
  lemma SyscallTargetExactly(s: Cpu, star: Star)
    ensures var t := Syscall(s, star);
            t == t.(core := t.core.(pc := star.target)) <==> s.core.pc == star.target
    ensures Syscall(s, star).core.regs[ECX] == s.core.pc
  {
    var t := Syscall(s, star);
    assert t.core.pc == s.core.pc;
    assert t.core.(pc := star.target).pc == star.target;
  }

  /** SYSRET leaves a flat 32-bit SS exactly when SS had those attributes before. */
  lemma SysretSsExactly(s: Cpu, star: Star)
    requires Cpl(s.segs) == 0
    ensures Sysret(s, star).value.segs.ss == FlatSeg(Ring3Selector(star.retBase + 8), 0xf3, 0xcf)
       <==> s.segs.ss.arHigh == 0xcf
    ensures Sysret(s, star).value.segs.cs == FlatSeg(Ring3Selector(star.retBase), 0xfb, 0xcf)
  {
  }

  // -------- what each of them does, in numbers --------

  predicate FlatWith(g: Seg, seg: int, access: Byte, arHigh: Byte) {
    g == Seg(0, 0xffffffff, access, arHigh, g.seg, 0, 0xffffffff, true) && g.seg == seg
  }

  /** t has the register file of s, but for r, which has v. */
  predicate OnlyRegister(t: Core, s: Core, r: nat, v: Word32)
    requires r < 8
  {
    t.regs[r] == v && forall k | 0 <= k < 8 && k != r :: t.regs[k] == s.regs[k]
  }

  /** Outside the registers, EIP and flags given here, and CS and SS, nothing moves. */
  ghost predicate OnlyProgramCounter(t: Cpu, s: Cpu) {
    && t.core == s.core.(pc := t.core.pc, regs := t.core.regs, flags := t.core.flags, eflags := t.core.eflags)
    && t.segs == s.segs.(cs := t.segs.cs, ss := t.segs.ss)
    && t == s.(core := t.core, segs := t.segs, mode := t.mode, oldcpl := t.oldcpl)
  }

  /** IF, bit 9, is on or off, and the other flags are as they were. */
  predicate OnlyIf(flags: Word16, was: Word16, on: bool) {
    flags / 0x200 % 2 == (if on then 1 else 0) && flags % 0x200 == was % 0x200 && flags / 0x400 == was / 0x400
  }

  lemma ClearIfIs(flags: Word16)
    ensures OnlyIf(ClearIf(flags), flags, false) && OnlyIf(SetIf(flags), flags, true)
  {
    var hi, b, lo := flags / 0x400, flags / 0x200 % 2, flags % 0x200;
    assert flags == 0x400 * hi + 0x200 * b + lo;
    assert ClearIf(flags) == 0x400 * hi + lo;
    assert SetIf(flags) == 0x400 * hi + 0x200 + lo;
  }

  lemma ClearRfVmIs(eflags: Word16)
    ensures ClearRfVm(eflags) % 4 == 0 && ClearRfVm(eflags) / 4 == eflags / 4
    ensures ClearRfVm(eflags) / 2 % 2 == 0
  {
    var q := eflags / 4;
    assert ClearRfVm(eflags) == 4 * q;
    assert ClearRfVm(eflags) / 2 == 2 * q;
  }

  lemma SysenterMode(s: Cpu, msr: SysenterMsrs)
    requires Sysenter(s, msr).Some?
    ensures var t := Sysenter(s, msr).value;
            t.mode == Mode(0x300, true,
                           s.mode.status.(notFlatSs := false, v86 := false, use32 := true, stack32 := true))
    ensures var c := Sysenter(s, msr).value.core; PE(c) && !VM(c)
  {
    ClearRfVmIs(s.core.eflags);
  }

  /** t is s at level 0 in the kernel that the MSRs name, with IF, VM and RF off. */
  ghost predicate EnteredKernel(t: Cpu, s: Cpu, msr: SysenterMsrs) {
    && t.core.pc == msr.eip && OnlyRegister(t.core, s.core, 4, msr.esp) && OnlyProgramCounter(t, s)
    && OnlyIf(t.core.flags, s.core.flags, false)
    && t.core.eflags % 4 == 0 && t.core.eflags / 4 == s.core.eflags / 4
    && FlatWith(t.segs.cs, msr.cs / 4 * 4, 0x9b, 0xcf)
    && FlatWith(t.segs.ss, (msr.cs + 8) % 0x1_0000 / 4 * 4, 0x93, 0xcf)
    && t.segs.cs.access / 0x20 % 4 == 0 == t.oldcpl && t.mode.use32 == 0x300 && t.mode.stack32
  }

  lemma SysenterCore(s: Cpu, msr: SysenterMsrs)
    requires Sysenter(s, msr).Some?
    ensures var t := Sysenter(s, msr).value;
            && t.core == s.core.(pc := msr.eip, regs := s.core.regs[4 := msr.esp],
                                 flags := ClearIf(s.core.flags), eflags := ClearRfVm(s.core.eflags))
            && t.oldcpl == 0
  {
  }

  lemma SysenterFrame(s: Cpu, msr: SysenterMsrs)
    requires Sysenter(s, msr).Some?
    ensures var t := Sysenter(s, msr).value;
            && OnlyProgramCounter(t, s)
            && FlatWith(t.segs.cs, msr.cs / 4 * 4, 0x9b, 0xcf)
            && FlatWith(t.segs.ss, (msr.cs + 8) % 0x1_0000 / 4 * 4, 0x93, 0xcf)
  {
  }

  lemma KernelOf(t: Cpu, s: Cpu, msr: SysenterMsrs)
    requires t.core == s.core.(pc := msr.eip, regs := s.core.regs[4 := msr.esp],
                               flags := ClearIf(s.core.flags), eflags := ClearRfVm(s.core.eflags))
    requires t.oldcpl == 0 && t.mode.use32 == 0x300 && t.mode.stack32 && OnlyProgramCounter(t, s)
    requires FlatWith(t.segs.cs, msr.cs / 4 * 4, 0x9b, 0xcf)
    requires FlatWith(t.segs.ss, (msr.cs + 8) % 0x1_0000 / 4 * 4, 0x93, 0xcf)
    ensures EnteredKernel(t, s, msr)
  {
    ClearIfIs(s.core.flags);
    ClearRfVmIs(s.core.eflags);
  }

  /** SYSENTER succeeds in protected mode when the selector MSR is not null. */
  lemma SysenterIs(s: Cpu, msr: SysenterMsrs)
    ensures Sysenter(s, msr).Some? <==> s.core.cr0 % 2 == 1 && msr.cs >= 8
    ensures Sysenter(s, msr).Some? ==> EnteredKernel(Sysenter(s, msr).value, s, msr)
  {
    if Sysenter(s, msr).Some? {
      SysenterMode(s, msr);
      SysenterCore(s, msr);
      SysenterFrame(s, msr);
      KernelOf(Sysenter(s, msr).value, s, msr);
    }
  }

  /** SYSEXIT goes to EDX with ESP from ECX at level 3; flags stay. */
  lemma SysexitIs(s: Cpu, msr: SysenterMsrs)
    ensures Sysexit(s, msr).Some? <==> s.core.cr0 % 2 == 1 && msr.cs >= 8 && s.segs.cs.access / 0x20 % 4 == 0
    ensures Sysexit(s, msr).Some? ==>
              var t := Sysexit(s, msr).value;
              && t.core.pc == s.core.regs[2] && OnlyRegister(t.core, s.core, 4, s.core.regs[1])
              && OnlyProgramCounter(t, s) && t.core.flags == s.core.flags && t.core.eflags == s.core.eflags
              && FlatWith(t.segs.cs, (msr.cs + 16) % 0x1_0000 / 4 * 4 + 3, 0xfb, 0xcf)
              && FlatWith(t.segs.ss, (msr.cs + 24) % 0x1_0000 / 4 * 4 + 3, 0xf3, 0xcf)
              && t.segs.cs.access / 0x20 % 4 == 3 == t.oldcpl
              && t.mode.use32 == (if s.core.eflags / 2 % 2 == 0 then 0x300 else 0)
              && (t.mode.stack32 <==> s.core.eflags / 2 % 2 == 0)
  {
  }

  /** SYSCALL keeps the return address in ECX and goes to level 0, with IF and VM off. */
  lemma SyscallIs(s: Cpu, star: Star)
    ensures var t := Syscall(s, star);
            && t.core.pc == s.core.pc && OnlyRegister(t.core, s.core, 1, s.core.pc) && OnlyProgramCounter(t, s)
            && OnlyIf(t.core.flags, s.core.flags, false)
            && t.core.eflags / 2 % 2 == 0 && t.core.eflags % 2 == s.core.eflags % 2
            && t.core.eflags / 4 == s.core.eflags / 4
            && FlatWith(t.segs.cs, star.callBase / 4 * 4, 0x9b, 0xcf)
            && FlatWith(t.segs.ss, (star.callBase + 8) % 0x1_0000 / 4 * 4, 0x93, 0xcf)
            && t.segs.cs.access / 0x20 % 4 == 0 == t.oldcpl
            && t.mode.use32 == (if s.core.cr0 % 2 == 1 then 0x300 else 0)
            && (t.mode.stack32 <==> s.core.cr0 % 2 == 1)
  {
    ClearIfIs(s.core.flags);
    ClearVmIs(s.core.eflags);
  }

  lemma ClearVmIs(eflags: Word16)
    ensures var e := ClearVm(eflags); e / 2 % 2 == 0 && e % 2 == eflags % 2 && e / 4 == eflags / 4
  {
    var hi, b, lo := eflags / 4, eflags / 2 % 2, eflags % 2;
    assert eflags == 4 * hi + 2 * b + lo;
    assert ClearVm(eflags) == 4 * hi + lo;
  }

  /** SYSRET goes to ECX at level 3 with IF on; no other register moves. */
  lemma SysretIs(s: Cpu, star: Star)
    ensures Sysret(s, star).Some? <==> s.segs.cs.access / 0x20 % 4 == 0
    ensures Sysret(s, star).Some? ==>
              var t := Sysret(s, star).value;
              && t.core.pc == s.core.regs[1] && t.core.regs == s.core.regs && OnlyProgramCounter(t, s)
              && OnlyIf(t.core.flags, s.core.flags, true) && t.core.eflags == s.core.eflags
              && FlatWith(t.segs.cs, star.retBase / 4 * 4 + 3, 0xfb, 0xcf)
              && FlatWith(t.segs.ss, (star.retBase + 8) % 0x1_0000 / 4 * 4 + 3, 0xf3, s.segs.ss.arHigh)
              && t.segs.cs.access / 0x20 % 4 == 3 == t.oldcpl
  {
    ClearIfIs(s.core.flags);
  }

  /** A kernel entered by SYSENTER that puts the caller's EIP in EDX and its ESP in ECX
      resumes the caller with SYSEXIT, on flat level 3 code and stack segments. */
  lemma SysenterReturns(s: Cpu, msr: SysenterMsrs, k: Cpu)
    requires Sysenter(s, msr).Some?
    requires k.core.cr0 == Sysenter(s, msr).value.core.cr0 && k.segs.cs == Sysenter(s, msr).value.segs.cs
    requires k.core.eflags == Sysenter(s, msr).value.core.eflags
    requires k.core.regs[2] == s.core.pc && k.core.regs[1] == s.core.regs[4]
    ensures Sysexit(k, msr).Some?
    ensures var t := Sysexit(k, msr).value;
            && t.core.pc == s.core.pc && t.core.regs[4] == s.core.regs[4]
            && FlatWith(t.segs.cs, (msr.cs + 16) % 0x1_0000 / 4 * 4 + 3, 0xfb, 0xcf)
            && FlatWith(t.segs.ss, (msr.cs + 24) % 0x1_0000 / 4 * 4 + 3, 0xf3, 0xcf)
            && t.mode.use32 == 0x300 && t.mode.stack32
  {
    SysenterIs(s, msr);
    SysexitIs(k, msr);
  }
}

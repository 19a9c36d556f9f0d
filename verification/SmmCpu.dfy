/** SMM entry and exit as the processor does them, updating its state in place. */
module SmmCpu {
  import opened Words
  import opened CpuModel
  import Img = SmramImage
  import opened SmramMemory
  import opened SmmSpec
  import opened ModeSwitch

  class Processor {
    var core: Core
    var segs: Segs
    var gdt: Seg
    var idt: Seg
    var mode: Mode
    var latch: Latch
    var op32: Word32
    var oldcpl: Byte
    var oldRammask: RamMask
    var a20: bool
    var unmaskA20: bool
    var mem: Memory

    constructor (s: Cpu)
      ensures View() == s
    {
      core, segs, gdt, idt, mode, latch := s.core, s.segs, s.gdt, s.idt, s.mode, s.latch;
      op32, oldcpl, oldRammask := s.op32, s.oldcpl, s.oldRammask;
      a20, unmaskA20, mem := s.a20, s.unmaskA20, s.mem;
    }

    ghost function View(): Cpu
      reads this
    {
      Cpu(core, segs, gdt, idt, mode, latch, op32, oldcpl, oldRammask, a20, unmaskA20, mem)
    }

    method SetStack32(on: bool)
      modifies this`mode
      ensures mode == old(mode).(stack32 := ProtectedNotV86(core) && on,
                                 status := old(mode).status.(stack32 := ProtectedNotV86(core) && on))
    {
      if PE(core) && !VM(core) {
        mode := mode.(stack32 := on);
      } else {
        mode := mode.(stack32 := false);
      }
      if mode.stack32 {
        mode := mode.(status := mode.status.(stack32 := true));
      } else {
        mode := mode.(status := mode.status.(stack32 := false));
      }
    }

    method SetUse32(on: bool)
      modifies this`mode
      ensures mode == old(mode).(use32 := if ProtectedNotV86(core) && on then 0x300 else 0,
                                 status := old(mode).status.(use32 := ProtectedNotV86(core) && on))
    {
      if PE(core) && !VM(core) {
        mode := mode.(use32 := if on then 0x300 else 0);
      } else {
        mode := mode.(use32 := 0);
      }
      if mode.use32 != 0 {
        mode := mode.(status := mode.status.(use32 := true));
      } else {
        mode := mode.(status := mode.status.(use32 := false));
      }
    }

    /** The first half of the segment-cache rebuild. */
    method RebuildWindow(g: Seg) returns (s: Seg)
      ensures s == Windowed(core, g)
    {
      s := g;
      if s.access / 8 % 4 != 2 || !Bit(s.access, 4) {
        s := s.(limitHigh := s.limit, limitLow := 0);
      } else {
        s := s.(limitHigh := if Bit(s.arHigh, 0x40) then 0xffffffff else 0xffff, limitLow := Wrap32(s.limit + 1));
      }
      if PE(core) && !VM(core) {
        s := s.(checked := s.seg != 0);
      } else {
        s := s.(checked := true);
      }
    }

    method SetNotFlatDs(s: Seg)
      modifies this`mode
      ensures mode == old(mode).(status := old(mode).status.(notFlatDs := !Flat(s)))
    {
      if s.base == 0 && s.limitLow == 0 && s.limitHigh == 0xffffffff {
        mode := mode.(status := mode.status.(notFlatDs := false));
      } else {
        mode := mode.(status := mode.status.(notFlatDs := true));
      }
    }

    method SetNotFlatSs(s: Seg)
      modifies this`mode
      ensures mode == old(mode).(status := old(mode).status.(notFlatSs := !Flat(s)))
    {
      if s.base == 0 && s.limitLow == 0 && s.limitHigh == 0xffffffff {
        mode := mode.(status := mode.status.(notFlatSs := false));
      } else {
        mode := mode.(status := mode.status.(notFlatSs := true));
      }
    }

    /** The second half of the segment-cache rebuild. */
    method RebuildMode(r: SegReg, s: Seg)
      modifies this`mode
      ensures mode == ModeAfterLoad(core, old(mode), r, s)
    {
      if r == CS {
        SetUse32(Bit(s.arHigh, 0x40));
      }
      if r == DS {
        SetNotFlatDs(s);
      }
      if r == SS {
        SetNotFlatSs(s);
        SetStack32(Bit(s.arHigh, 0x40));
      }
    }

    method SmmSegLoad(r: SegReg)
      modifies this`segs, this`mode
      ensures View() == Reload(old(View()), r)
    {
      var s := RebuildWindow(segs.Get(r));
      segs := segs.Set(r, s);
      RebuildMode(r, s);
    }

    static method SaveDesc(saved: array<Word32>, at: nat, g: Seg)
      requires at + 2 < saved.Length
      modifies saved
      ensures saved[..] == Img.StoreDesc(old(saved[..]), at, g)
    {
      saved[at] := g.base;
      saved[at + 1] := g.limit;
      saved[at + 2] := 0x100_0000 * g.arHigh + 0x1_0000 * g.access + g.seg;
    }

    method SaveRegister(saved: array<Word32>, r: SegReg, ghost s: Cpu, ghost inHlt: bool, ghost tables: bool)
      requires s.segs == segs && Img.Partly(saved[..], s, inHlt, Img.Rank(r), tables)
      modifies saved
      ensures Img.Partly(saved[..], s, inHlt, Img.Rank(r) + 1, tables)
    {
      Img.PartlyRegister(saved[..], s, inHlt, tables, r);
      saved[Img.SelSlot(r)] := segs.Get(r).seg;
      assert saved[..] == old(saved[..])[Img.SelSlot(r) := segs.Get(r).seg];
      SaveDesc(saved, Img.DescSlot(r), segs.Get(r));
    }

    method SaveTables(saved: array<Word32>, ghost s: Cpu, ghost inHlt: bool, ghost done: nat)
      requires s.gdt == gdt && s.idt == idt && Img.Partly(saved[..], s, inHlt, done, false)
      modifies saved
      ensures Img.Partly(saved[..], s, inHlt, done, true)
    {
      Img.PartlyTables(saved[..], s, inHlt, done);
      SaveDesc(saved, Img.IDTR, idt);
      SaveDesc(saved, Img.GDTR, gdt);
    }

    method SaveRegs(saved: array<Word32>)
      requires saved.Length == Img.SLOTS
      modifies saved
      ensures forall n | 0 <= n < 8 :: saved[Img.EAX - n] == core.regs[n]
      ensures forall i | 0 <= i < Img.SLOTS && !(4 <= i <= Img.EAX) :: saved[i] == old(saved[i])
    {
      for n := 0 to 8
        invariant forall k | 0 <= k < n :: saved[Img.EAX - k] == core.regs[k]
        invariant forall i | 0 <= i < Img.SLOTS && !(4 <= i <= Img.EAX) :: saved[i] == old(saved[i])
      {
        saved[Img.EAX - n] := core.regs[n];
      }
    }

    method SaveCore(saved: array<Word32>)
      requires saved.Length == Img.SLOTS
      modifies saved
      ensures Img.CoreSlots(saved[..], core)
      ensures forall i | 14 <= i < Img.SLOTS && i != Img.CR4 && i != Img.SMBASE :: saved[i] == old(saved[i])
    {
      saved[Img.SMBASE] := core.smbase;
      SaveRegs(saved);
      saved[Img.EIP] := core.pc;
      saved[Img.EFLAGS] := 0x1_0000 * core.eflags + core.flags;
      saved[Img.CR0] := core.cr0;
      saved[Img.CR3] := core.cr3;
      saved[Img.CR4] := core.cr4;
      saved[Img.DR6] := core.dr6;
      saved[Img.DR7] := core.dr7;
      forall k | 0 <= k < 8
        ensures saved[..][Img.EAX - k] == core.regs[k]
      {
        assert saved[Img.EAX - k] == core.regs[k];
      }
    }

    method SaveControl(saved: array<Word32>, inHlt: bool)
      requires saved.Length == Img.SLOTS && forall i | 0 <= i < Img.SLOTS :: saved[i] == 0
      modifies saved
      ensures Img.CoreSlots(saved[..], core)
      ensures Img.ControlSlots(saved[..], View(), inHlt)
      ensures forall i | 14 <= i < Img.SLOTS && !Img.IsControl(i) :: saved[i] == 0
    {
      saved[Img.REVISION] := Img.REVISION_ID;
      saved[Img.AUTOHALT] := if inHlt then 1 else 0;
      saved[Img.CPL] := Cpl(segs);
      saved[Img.A20M] := if !a20 then 1 else 0;
      SaveCore(saved);
    }

    method SaveSegments(saved: array<Word32>, ghost s: Cpu, ghost inHlt: bool)
      requires s.segs == segs && Img.Partly(saved[..], s, inHlt, 2, true)
      modifies saved
      ensures Img.Partly(saved[..], s, inHlt, 8, true)
    {
      SaveRegister(saved, ES, s, inHlt, true);
      SaveRegister(saved, CS, s, inHlt, true);
      SaveRegister(saved, DS, s, inHlt, true);
      SaveRegister(saved, SS, s, inHlt, true);
      SaveRegister(saved, FS, s, inHlt, true);
      SaveRegister(saved, GS, s, inHlt, true);
    }

    method SaveStateP6(saved: array<Word32>, inHlt: bool)
      requires saved.Length == Img.SLOTS && forall i | 0 <= i < Img.SLOTS :: saved[i] == 0
      modifies saved
      ensures saved[..] == Img.Image(View(), inHlt)
    {
      ghost var s := View();
      SaveControl(saved, inHlt);
      Img.PartlyControl(saved[..], s, inHlt);
      SaveRegister(saved, TR, s, inHlt, false);
      SaveRegister(saved, LDT, s, inHlt, false);
      SaveTables(saved, s, inHlt, 2);
      SaveSegments(saved, s, inHlt);
      Img.PartlyAll(saved[..], s, inHlt);
      Img.ImageUnique(saved[..], s, inHlt);
    }

    method RestoreDesc(saved: array<Word32>, at: nat, g: Seg) returns (d: Seg)
      requires at + 2 < saved.Length
      ensures d == RestoredDesc(saved[..], at, g)
    {
      d := g.(base := saved[at], limit := saved[at + 1]);
      d := d.(access := saved[at + 2] / 0x1_0000 % 0x100, arHigh := saved[at + 2] / 0x100_0000);
    }

    method RestoreRegister(saved: array<Word32>, r: SegReg)
      requires saved.Length == Img.SLOTS
      modifies this`segs, this`mode
      ensures View() == RestoreSeg(old(View()), saved[..], r)
    {
      var d := RestoreDesc(saved, Img.DescSlot(r), segs.Get(r));
      d := d.(seg := saved[Img.SelSlot(r)] % 0x1_0000);
      segs := segs.Set(r, d);
      SmmSegLoad(r);
    }

    method RestoreSavedCpl(saved: array<Word32>)
      requires saved.Length == Img.SLOTS
      modifies this`segs
      ensures View() == WithSavedCpl(old(View()), saved[..])
    {
      var cpl := saved[Img.CPL] % 4;
      segs := segs.(cs := segs.cs.(access := segs.cs.access - 32 * Dpl(segs.cs.access) + 32 * cpl));
    }

    method RestoreCore(saved: array<Word32>)
      requires saved.Length == Img.SLOTS
      modifies this`core
      ensures core == RestoredCore(saved[..]).(smbase := old(core).smbase, rammask := old(core).rammask)
    {
      var regs: seq<Word32> := core.regs;
      for n := 0 to 8
        invariant |regs| == 8 && forall k | 0 <= k < n :: regs[k] == saved[Img.EAX - k]
      {
        regs := regs[n := saved[Img.EAX - n]];
      }
      core := core.(regs := regs);
      if saved[Img.AUTOHALT] % 0x1_0000 != 0 {
        var eip: int := saved[Img.EIP];
        core := core.(pc := Wrap32(eip - 1));
      } else {
        core := core.(pc := saved[Img.EIP]);
      }
      core := core.(eflags := saved[Img.EFLAGS] / 0x1_0000, flags := saved[Img.EFLAGS] % 0x1_0000);
      core := core.(cr0 := saved[Img.CR0], cr3 := saved[Img.CR3], cr4 := saved[Img.CR4]);
      core := core.(dr6 := saved[Img.DR6], dr7 := saved[Img.DR7]);
      assert core.regs == RestoredCore(saved[..]).regs;
    }

    /** SMBASE and the RAM mask are restored last; no rebuild looks at them. */
    method RestoreStateP6(saved: array<Word32>)
      requires saved.Length == Img.SLOTS
      modifies this
      ensures View() == Restore(old(View()), saved[..])
    {
      RestoreRegisters(saved);
      RestoreSegments(saved);
      var mask := ALL_LINES;
      if saved[Img.A20M] % 2 == 1 {
        mask := NO_A20;
      }
      core := core.(rammask := mask, smbase := saved[Img.SMBASE]);
    }

    method RestoreRegisters(saved: array<Word32>)
      requires saved.Length == Img.SLOTS
      modifies this`core, this`idt, this`gdt
      ensures View() == RestorePlain(old(View()), saved[..])
    {
      RestoreCore(saved);
      idt := RestoreDesc(saved, Img.IDTR, idt);
      gdt := RestoreDesc(saved, Img.GDTR, gdt);
    }

    method RestoreSegments(saved: array<Word32>)
      requires saved.Length == Img.SLOTS
      modifies this`segs, this`mode
      ensures View() == RestoreSegs(old(View()), saved[..])
    {
      RestoreRegister(saved, TR);
      RestoreRegister(saved, LDT);
      RestoreRegister(saved, ES);
      RestoreRegister(saved, CS);
      RestoreSavedCpl(saved);
      RestoreRegister(saved, DS);
      RestoreRegister(saved, SS);
      RestoreRegister(saved, FS);
      RestoreRegister(saved, GS);
    }

    method Preload()
      modifies this`core, this`segs
      ensures View() == Preloaded(old(View()))
    {
      core := core.(cr0 := SmmCr0(core.cr0), flags := 2, eflags := 0);
      core := core.(cr4 := 0, dr7 := 0x400, pc := 0x8000);
      segs := segs.(ds := segs.ds.(seg := 0, base := 0, limit := 0xffffffff, access := 0x93, arHigh := 0x80));
      segs := segs.(es := segs.ds, ss := segs.ds, fs := segs.ds, gs := segs.ds);
      var cs := segs.cs.(seg := Wrap16(core.smbase / 16), base := core.smbase, limit := 0xffffffff);
      segs := segs.(cs := cs.(access := 0x93, arHigh := 0x80, checked := true));
    }

    method EnterState()
      requires latch.inSmm == 1
      modifies this
      ensures View() == Entered(old(View()))
    {
      Preload();
      ReloadSegments();
      op32 := mode.use32;
    }

    method ReloadSegments()
      modifies this`segs, this`mode
      ensures View() == ReloadAll(old(View()))
    {
      SmmSegLoad(ES);
      SmmSegLoad(CS);
      SmmSegLoad(DS);
      SmmSegLoad(SS);
      SmmSegLoad(FS);
      SmmSegLoad(GS);
    }

    method StoreImage(saved: array<Word32>)
      requires saved.Length == Img.SLOTS
      modifies this`mem
      ensures mem == WriteSlots(old(mem), core.rammask, core.smbase, saved[..], Img.SLOTS)
    {
      var base: int := core.smbase;
      var at: int := Wrap32(base + 0x1_0000);
      for n := 0 to Img.SLOTS
        invariant at == Wrap32(base + 0x1_0000 - 4 * n)
        invariant mem == WriteSlots(old(mem), core.rammask, core.smbase, saved[..], n)
      {
        WrapStep(base + 0x1_0000 - 4 * n, -4);
        at := Wrap32(at - 4);
        assert at == SlotAddr(core.smbase, n);
        mem := Store4(mem, MaskAddr(at, core.rammask), saved[n]);
      }
    }

    /** Entry up to the point where the save map is stored. */
    method PrepareEntry(saved: array<Word32>, inHlt: bool)
      requires saved.Length == Img.SLOTS && forall i | 0 <= i < Img.SLOTS :: saved[i] == 0
      modifies this, saved
      ensures saved[..] == Img.Image(old(View()), inHlt)
      ensures View() == Entered(old(View()))
    {
      latch := latch.(inSmm := 1);
      SaveStateP6(saved, inHlt);
      Img.ImageIgnoresLatch(old(View()), latch, inHlt);
      EnterState();
    }

    method EnterSmm(inHlt: bool)
      modifies this
      ensures View() == Enter(old(View()), inHlt)
    {
      var saved := new Word32[Img.SLOTS](_ => 0);
      EnteredParts(View());
      PrepareEntry(saved, inHlt);
      StoreImage(saved);
      FinishEntry(inHlt);
    }

    method FinishEntry(inHlt: bool)
      modifies this
      ensures View() == EntryDone(old(View()), inHlt)
    {
      latch := latch.(nmiMask := false);
      if latch.latched {
        latch := latch.(inSmm := 2, latched := false);
      } else {
        latch := latch.(inSmm := 1);
      }
      latch := latch.(inHlt := inHlt);
      if unmaskA20 {
        oldRammask := core.rammask;
        core := core.(rammask := ALL_LINES);
      }
      oldcpl := 0;
      mode := mode.(status := mode.status.(pmode := false, v86 := false));
    }

    method LoadImage(saved: array<Word32>)
      requires saved.Length == Img.SLOTS
      modifies saved
      ensures saved[..] == ReadSlots(mem, core.rammask, core.smbase)
    {
      var base: int := core.smbase;
      var at: int := Wrap32(base + 0x1_0000);
      for n := 0 to Img.SLOTS
        invariant at == Wrap32(base + 0x1_0000 - 4 * n)
        invariant forall k | 0 <= k < n :: saved[k] == ReadSlots(mem, core.rammask, core.smbase)[k]
      {
        WrapStep(base + 0x1_0000 - 4 * n, -4);
        at := Wrap32(at - 4);
        assert at == SlotAddr(core.smbase, n);
        saved[n] := Read4(mem, MaskAddr(at, core.rammask));
      }
    }

    method LeaveSmm()
      modifies this
      ensures View() == Leave(old(View()))
    {
      var saved := new Word32[Img.SLOTS](_ => 0);
      LoadImage(saved);
      LeaveWith(saved);
    }

    method LeaveWith(saved: array<Word32>)
      requires saved.Length == Img.SLOTS
      modifies this
      ensures View() == ExitDone(Restore(Undone(old(View())), saved[..]))
    {
      UndoUnmask();
      RestoreStateP6(saved);
      FinishExit();
    }

    method UndoUnmask()
      modifies this`core
      ensures View() == Undone(old(View()))
    {
      if unmaskA20 {
        core := core.(rammask := oldRammask);
      }
    }

    method FinishExit()
      modifies this
      ensures View() == ExitDone(old(View()))
    {
      latch := latch.(inSmm := 0);
      var pe, vm := PE(core), VM(core);
      var status := mode.status.(pmode := false, v86 := false);
      if pe {
        status := status.(pmode := true);
        if vm {
          status := status.(v86 := true);
        }
      }
      mode := mode.(status := status);
      latch := latch.(nmiMask := true);
      oldcpl := Cpl(segs);
    }

    method SmiRaise()
      modifies this`latch
      ensures latch == old(latch).(line := true)
    {
      latch := latch.(line := true);
    }

    method EnterSmmCheck(inHlt: bool)
      modifies this
      ensures View() == Check(old(View()), inHlt)
    {
      if latch.line {
        if latch.inSmm == 1 {
          latch := latch.(latched := true);
        } else if latch.inSmm != 2 {
          EnterSmm(inHlt);
        }
        latch := latch.(line := false);
      }
    }

    /** Outside SMM the instruction is illegal and nothing happens here. */
    method ResumeFromSmm() returns (legal: bool)
      modifies this
      ensures legal == (old(latch).inSmm != 0)
      ensures View() == if legal then Rsm(old(View())) else old(View())
    {
      legal := latch.inSmm != 0;
      if legal {
        LeaveSmm();
        if latch.latched {
          EnterSmm(latch.inHlt);
        }
      }
    }

    /** use32 and stack32 of 32-bit code, after the summary has been set by hand. */
    method Set32()
      modifies this`mode
      ensures mode == Mode32(core, old(mode).status)
    {
      mode := mode.(status := mode.status.(use32 := true, stack32 := true));
      SetUse32(true);
      SetStack32(true);
    }

    method Sysenter(msr: SysenterMsrs) returns (ok: bool)
      modifies this
      ensures var r := ModeSwitch.Sysenter(old(View()), msr);
              ok == r.Some? && View() == if ok then r.value else old(View())
    {
      if !PE(core) || msr.cs / 8 == 0 {
        return false;
      }
      core := core.(eflags := ClearRfVm(core.eflags), flags := ClearIf(core.flags));
      core := core.(regs := core.regs[ESP := msr.esp], pc := msr.eip);
      segs := segs.(cs := FlatSeg(Ring0Selector(msr.cs), 0x9b, 0xcf));
      oldcpl := 0;
      segs := segs.(ss := FlatSeg(Ring0Selector(msr.cs + 8), 0x93, 0xcf));
      mode := mode.(status := mode.status.(notFlatSs := false, v86 := false));
      Set32();
      return true;
    }

    method Sysexit(msr: SysenterMsrs) returns (ok: bool)
      modifies this
      ensures var r := ModeSwitch.Sysexit(old(View()), msr);
              ok == r.Some? && View() == if ok then r.value else old(View())
    {
      if msr.cs / 8 == 0 || !PE(core) || Cpl(segs) != 0 {
        return false;
      }
      core := core.(regs := core.regs[ESP := core.regs[ECX]], pc := core.regs[EDX]);
      segs := segs.(cs := FlatSeg(Ring3Selector(msr.cs + 16), 0xfb, 0xcf));
      oldcpl := 3;
      segs := segs.(ss := FlatSeg(Ring3Selector(msr.cs + 24), 0xf3, 0xcf));
      mode := mode.(status := mode.status.(notFlatSs := false, pmode := true));
      Set32();
      return true;
    }

    method SyscallOp(star: Star)
      modifies this
      ensures View() == Syscall(old(View()), star)
    {
      core := core.(eflags := ClearVm(core.eflags), flags := ClearIf(core.flags));
      core := core.(regs := core.regs[ECX := core.pc]);
      segs := segs.(cs := FlatSeg(Ring0Selector(star.callBase), 0x9b, 0xcf));
      oldcpl := 0;
      segs := segs.(ss := FlatSeg(Ring0Selector(star.callBase + 8), 0x93, 0xcf));
      mode := mode.(status := mode.status.(notFlatSs := false, v86 := false, pmode := true));
      Set32();
    }

    method Sysret(star: Star) returns (ok: bool)
      modifies this
      ensures var r := ModeSwitch.Sysret(old(View()), star);
              ok == r.Some? && View() == if ok then r.value else old(View())
    {
      if Cpl(segs) != 0 {
        return false;
      }
      core := core.(flags := SetIf(core.flags));
      core := core.(pc := core.regs[ECX]);
      segs := segs.(cs := FlatSeg(Ring3Selector(star.retBase), 0xfb, 0xcf));
      oldcpl := 3;
      segs := segs.(ss := segs.ss.(seg := Ring3Selector(star.retBase + 8), base := 0, limitLow := 0));
      segs := segs.(ss := segs.ss.(limit := 0xffffffff, limitHigh := 0xffffffff, access := 0xf3));
      segs := segs.(cs := segs.cs.(arHigh := 0xcf), ss := segs.ss.(checked := true));
      mode := mode.(status := mode.status.(notFlatSs := false, pmode := true));
      Set32();
      return true;
    }
  }
}

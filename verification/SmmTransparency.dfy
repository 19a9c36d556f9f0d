/** What an interrupted program finds after an SMI: everything as it was, except that
    EIP is one less for every entry made from HLT, and the RAM mask is derived anew. */
module SmmTransparency {
  import opened Words
  import opened CpuModel
  import Img = SmramImage
  import opened SmramMemory
  import opened SmmSpec

  /** Every slot that leaving SMM takes state from is read where it was written. */
  ghost predicate SaveAreaReachable(s: Cpu) {
    forall n | 0 <= n < Img.SLOTS :: Img.Observed(n) ==> SlotAgrees(s.core.smbase, s.core.rammask, EnteredMask(s), n)
  }

  /** In state h, SMBASE and the save area are as state e left them. */
  ghost predicate KeepsSaveArea(e: Cpu, h: Cpu) {
    && h.core.smbase == e.core.smbase
    && ReadSlots(h.mem, h.core.rammask, h.core.smbase) == ReadSlots(e.mem, e.core.rammask, e.core.smbase)
  }

  /** The state in front of an SMI: caches rebuilt and summary right. */
  ghost predicate Settled(s: Cpu) {
    Rebuilt(s) && StatusOk(s)
  }

  /** Base, limit and attributes of a descriptor table register. */
  predicate SameTable(g: Seg, h: Seg) {
    (g.base, g.limit, g.access, g.arHigh) == (h.base, h.limit, h.access, h.arHigh)
  }

  ghost predicate SameProgramState(r: Cpu, s: Cpu) {
    && r.core == s.core
    && r.segs == s.segs
    && SameTable(r.gdt, s.gdt)
    && SameTable(r.idt, s.idt)
    && r.mode.use32 == s.mode.use32
    && r.mode.stack32 == s.mode.stack32
    && r.mode.status == s.mode.status
  }

  /** Leaving SMM does not give the RAM mask back but derives one from the A20 gate. */
  function AfterSmi(s: Cpu, inHlt: bool): Cpu {
    s.(core := s.core.(pc := HaltRestart(s.core.pc, inHlt), rammask := GateMask(s.a20)))
  }

  /** The control bits a rebuild looks at. */
  predicate SameModeBits(c: Core, d: Core) {
    c.cr0 == d.cr0 && c.eflags == d.eflags
  }

  lemma SegRoundTrip(img: seq<Word32>, r: SegReg, g: Seg, stale: Seg, c: Core)
    requires |img| == Img.SLOTS && Img.SegSlots(img, r, g) && Windowed(c, g) == g
    ensures Windowed(c, RestoredSeg(img, r, stale)) == g
  {
    Img.FieldsOfSelectorAr(g);
    var w := RestoredSeg(img, r, stale);
    assert w == g.(limitLow := w.limitLow, limitHigh := w.limitHigh, checked := w.checked);
  }

  lemma RestoreSegRoundTrip(t: Cpu, img: seq<Word32>, r: SegReg, s: Cpu, inHlt: bool)
    requires Img.HoldsState(img, s, inHlt) && Rebuilt(s) && SameModeBits(t.core, s.core)
    ensures RestoreSeg(t, img, r) == t.(segs := t.segs.Set(r, s.segs.Get(r)),
                                        mode := ModeAfterLoad(t.core, t.mode, r, s.segs.Get(r)))
  {
    assert Img.SegSlots(img, r, s.segs.Get(r));
    assert Windowed(s.core, s.segs.Get(r)) == s.segs.Get(r);
    SegRoundTrip(img, r, s.segs.Get(r), t.segs.Get(r), t.core);
  }

  lemma CoreRoundTrip(img: seq<Word32>, s: Cpu, inHlt: bool)
    requires Img.HoldsState(img, s, inHlt)
    ensures RestoredCore(img) == AfterSmi(s, inHlt).core
  {
    var c := RestoredCore(img);
    forall n | 0 <= n < 8
      ensures c.regs[n] == s.core.regs[n]
    {
      assert img[Img.EAX - n] == s.core.regs[n];
    }
    assert c.regs == s.core.regs;
  }

  /** t and u differ in segments and mode only. */
  ghost predicate SameButSegments(t: Cpu, u: Cpu) {
    u == t.(segs := u.segs, mode := u.mode)
  }

  lemma RestoreTwo(t: Cpu, img: seq<Word32>, a: SegReg, b: SegReg, s: Cpu, inHlt: bool) returns (u: Cpu)
    requires Img.HoldsState(img, s, inHlt) && Rebuilt(s) && SameModeBits(t.core, s.core)
    ensures u == RestoreSeg(RestoreSeg(t, img, a), img, b) && SameButSegments(t, u)
    ensures u.segs == t.segs.Set(a, s.segs.Get(a)).Set(b, s.segs.Get(b))
    ensures u.mode == ModeAfterLoad(t.core, ModeAfterLoad(t.core, t.mode, a, s.segs.Get(a)), b, s.segs.Get(b))
  {
    var t1 := RestoreSeg(t, img, a);
    RestoreSegRoundTrip(t, img, a, s, inHlt);
    u := RestoreSeg(t1, img, b);
    RestoreSegRoundTrip(t1, img, b, s, inHlt);
  }

  lemma CplRoundTrip(t: Cpu, img: seq<Word32>, s: Cpu, inHlt: bool)
    requires Img.HoldsState(img, s, inHlt) && t.segs.cs == s.segs.cs
    ensures WithSavedCpl(t, img) == t
  {
    assert img[Img.CPL] == Cpl(s.segs);
  }

  lemma SegsRoundTrip(t: Cpu, img: seq<Word32>, s: Cpu, inHlt: bool)
    requires Img.HoldsState(img, s, inHlt) && Rebuilt(s) && SameModeBits(t.core, s.core)
    ensures var r := RestoreSegs(t, img);
            SameButSegments(t, r) && r.segs == s.segs
            && r.mode.use32 == s.mode.use32 && r.mode.stack32 == s.mode.stack32
            && r.mode.status == Status(s.mode.use32 != 0, s.mode.stack32, t.mode.status.pmode, t.mode.status.v86,
                                       !Flat(s.segs.ds), !Flat(s.segs.ss))
  {
    var t1 := RestoreTwo(t, img, TR, LDT, s, inHlt);
    var t2 := RestoreTwo(t1, img, ES, CS, s, inHlt);
    CplRoundTrip(t2, img, s, inHlt);
    assert t2.mode.use32 == s.mode.use32;
    var t3 := RestoreTwo(t2, img, DS, SS, s, inHlt);
    assert t3.mode.use32 == s.mode.use32 && t3.mode.stack32 == s.mode.stack32;
    var t4 := RestoreTwo(t3, img, FS, GS, s, inHlt);
    assert t4 == RestoreSegs(t, img);
  }

  /** r has the registers, segments and tables of s, but for EIP and RAM mask; its summary still
      lacks the protected-mode bits. */
  ghost predicate Restored(r: Cpu, s: Cpu, inHlt: bool) {
    && r.core == AfterSmi(s, inHlt).core
    && r.segs == s.segs
    && SameTable(r.gdt, s.gdt)
    && SameTable(r.idt, s.idt)
    && r.mode.use32 == s.mode.use32 && r.mode.stack32 == s.mode.stack32
    && r.mode.status == Status(s.mode.use32 != 0, s.mode.stack32, r.mode.status.pmode, r.mode.status.v86,
                               !Flat(s.segs.ds), !Flat(s.segs.ss))
  }

  lemma RestoreRoundTrip(t: Cpu, img: seq<Word32>, s: Cpu, inHlt: bool)
    requires Img.HoldsState(img, s, inHlt) && Rebuilt(s)
    ensures Restored(Restore(t, img), s, inHlt)
  {
    CoreRoundTrip(img, s, inHlt);
    var plain := RestorePlain(t, img);
    TablesRoundTrip(t, img, s, inHlt);
    SegsRoundTrip(plain, img, s, inHlt);
    RestoreKeepsSegments(t, img);
  }

  lemma TablesRoundTrip(t: Cpu, img: seq<Word32>, s: Cpu, inHlt: bool)
    requires Img.HoldsState(img, s, inHlt)
    ensures SameTable(RestorePlain(t, img).gdt, s.gdt) && SameTable(RestorePlain(t, img).idt, s.idt)
    ensures SameModeBits(RestorePlain(t, img).core, s.core)
  {
    Img.FieldsOfSelectorAr(s.gdt);
    Img.FieldsOfSelectorAr(s.idt);
  }

  lemma RestoreKeepsSegments(t: Cpu, img: seq<Word32>)
    requires |img| == Img.SLOTS
    ensures var r := RestoreSegs(RestorePlain(t, img), img);
            Restore(t, img) == r.(core := RestoredCore(img))
  {
  }

  lemma ExitShows(r: Cpu, s: Cpu, inHlt: bool)
    requires Restored(r, s, inHlt) && StatusOk(s)
    ensures SameProgramState(ExitDone(r), AfterSmi(s, inHlt))
  {
  }

  lemma EntryKeeps(s: Cpu, inHlt: bool)
    ensures var e := Enter(s, inHlt);
            && e.core.smbase == s.core.smbase
            && e.core.rammask == EnteredMask(s)
            && e.mem == WriteSlots(s.mem, s.core.rammask, s.core.smbase, Img.Image(s, inHlt), Img.SLOTS)
  {
  }

  /** After entry the save area, seen as the processor will read it, holds the state. */
  lemma SaveAreaHolds(s: Cpu, inHlt: bool)
    requires SaveAreaReachable(s)
    ensures var e := Enter(s, inHlt);
            Img.HoldsState(ReadSlots(e.mem, e.core.rammask, e.core.smbase), s, inHlt)
  {
    var e := Enter(s, inHlt);
    var img := Img.Image(s, inHlt);
    var back := ReadSlots(e.mem, e.core.rammask, e.core.smbase);
    EntryKeeps(s, inHlt);
    Img.ImageIsImage(s, inHlt);
    forall n | 0 <= n < Img.SLOTS && Img.Observed(n)
      ensures back[n] == img[n]
    {
      SlotSurvivesExactly(s.core.smbase, s.core.rammask, EnteredMask(s), img, n);
    }
    Img.HoldsStateOnObserved(img, back, s, inHlt);
  }

  /** SMM transparency, but for the RAM mask. */
  lemma SmiTransparent(s: Cpu, inHlt: bool, h: Cpu)
    requires Settled(s) && SaveAreaReachable(s) && KeepsSaveArea(Enter(s, inHlt), h)
    ensures SameProgramState(Leave(h), AfterSmi(s, inHlt))
  {
    SaveAreaHolds(s, inHlt);
    var img := ReadSlots(h.mem, h.core.rammask, h.core.smbase);
    var undone := Undone(h);
    RestoreRoundTrip(undone, img, s, inHlt);
    ExitShows(Restore(undone, img), s, inHlt);
  }

  lemma SettledAlike(s: Cpu, t: Cpu)
    requires Settled(s) && SameProgramState(t, s)
    ensures Settled(t)
  {
    forall r: SegReg
      ensures Windowed(t.core, t.segs.Get(r)) == t.segs.Get(r)
    {
      assert Windowed(s.core, s.segs.Get(r)) == s.segs.Get(r);
    }
  }

  lemma SettledAfter(s: Cpu, inHlt: bool)
    requires Settled(s)
    ensures Settled(AfterSmi(s, inHlt))
  {
    var t := AfterSmi(s, inHlt);
    forall r: SegReg
      ensures Windowed(t.core, t.segs.Get(r)) == t.segs.Get(r)
    {
      assert Windowed(s.core, s.segs.Get(r)) == s.segs.Get(r);
    }
  }

  lemma ReachableAlike(s: Cpu, t: Cpu)
    requires SaveAreaReachable(s) && t.core.smbase == s.core.smbase
    requires t.core.rammask == s.core.rammask && t.unmaskA20 == s.unmaskA20
    ensures SaveAreaReachable(t)
  {
    forall n | 0 <= n < Img.SLOTS && Img.Observed(n)
      ensures SlotAgrees(t.core.smbase, t.core.rammask, EnteredMask(t), n)
    {
      assert SlotAgrees(s.core.smbase, s.core.rammask, EnteredMask(s), n);
    }
  }

  /** An SMI latched during the handler is served by RSM at once. When the first
      entry was made from HLT, the second is too, so EIP ends up two lower. The second
      save is made under the RAM mask that the first RSM derived. */
  lemma LatchedSmiTransparent(s: Cpu, inHlt: bool, h1: Cpu, h2: Cpu)
    requires Settled(s) && SaveAreaReachable(s) && SaveAreaReachable(AfterSmi(s, inHlt))
    requires KeepsSaveArea(Enter(s, inHlt), h1)
    requires h1.latch.inSmm == 1 && h1.latch.latched && h1.latch.inHlt == Enter(s, inHlt).latch.inHlt
    requires h1.a20 == s.a20 && h1.unmaskA20 == s.unmaskA20
    requires KeepsSaveArea(Rsm(h1), h2)
    ensures Rsm(h1).latch.inSmm == 2
    ensures SameProgramState(Leave(h2), AfterSmi(AfterSmi(s, inHlt), inHlt))
  {
    SmiTransparent(s, inHlt, h1);
    EntryMarks(s, inHlt);
    RsmRelatches(h1);
    SettledAfter(s, inHlt);
    SecondTransparent(AfterSmi(s, inHlt), inHlt, Leave(h1), h2);
  }

  lemma SecondTransparent(s: Cpu, inHlt: bool, t: Cpu, h: Cpu)
    requires Settled(s) && SaveAreaReachable(s) && SameProgramState(t, s)
    requires t.a20 == s.a20 && t.unmaskA20 == s.unmaskA20 && KeepsSaveArea(Enter(t, inHlt), h)
    ensures SameProgramState(Leave(h), AfterSmi(s, inHlt))
  {
    SettledAlike(s, t);
    ReachableAlike(s, t);
    SmiTransparent(t, inHlt, h);
    AfterAlike(t, s, inHlt);
  }

  lemma AfterAlike(t: Cpu, s: Cpu, inHlt: bool)
    requires SameProgramState(t, s) && t.a20 == s.a20
    ensures forall r: Cpu :: SameProgramState(r, AfterSmi(t, inHlt)) ==> SameProgramState(r, AfterSmi(s, inHlt))
  {
  }

  lemma EntryMarks(s: Cpu, inHlt: bool)
    ensures Enter(s, inHlt).latch.inHlt == inHlt
  {
  }

  lemma RsmRelatches(h: Cpu)
    requires h.latch.inSmm == 1 && h.latch.latched
    ensures Rsm(h) == Enter(Leave(h), h.latch.inHlt) && Rsm(h).latch.inSmm == 2
    ensures Leave(h).a20 == h.a20 && Leave(h).unmaskA20 == h.unmaskA20
  {
  }
}

/** What the SMI handler finds, in numbers: where it starts and in which state, and where
    in memory the interrupted program's state is. */
module SmmEntry {
  import opened Words
  import opened CpuModel
  import Img = SmramImage
  import opened SmramMemory
  import opened SmmSpec

  // -------- CR0 --------

  lemma BitsFromFour(x: nat, k: nat)
    requires k >= 4
    ensures BitSet(x, k) <==> BitSet(x / 16, k - 4)
  {
    var a := x / 2;
    var b := a / 2;
    var c := b / 2;
    assert BitSet(x, k) == BitSet(a, k - 1) == BitSet(b, k - 2) == BitSet(c, k - 3) == BitSet(c / 2, k - 4);
    assert c / 2 == x / 16;
  }

  lemma BitsBelowFour(x: nat, k: nat)
    requires k < 4
    ensures BitSet(x, k) <==> (if k == 0 then x else if k == 1 then x / 2 else if k == 2 then x / 4 else x / 8) % 2 == 1
  {
    var a := x / 2;
    var b := a / 2;
    var c := b / 2;
    assert BitSet(x, k) == if k == 0 then x % 2 == 1 else BitSet(a, k - 1);
    assert k > 0 ==> BitSet(a, k - 1) == if k == 1 then a % 2 == 1 else BitSet(b, k - 2);
    assert k > 1 ==> BitSet(b, k - 2) == if k == 2 then b % 2 == 1 else BitSet(c, k - 3);
    assert b == x / 4 && c == x / 8;
  }

  lemma SmmCr0Parts(cr0: Word32)
    ensures var c := SmmCr0(cr0);
            c / 16 == cr0 % 0x8000_0000 / 16 && c % 2 == 0 && c / 2 % 2 == cr0 / 2 % 2
            && c / 4 % 2 == 0 && c / 8 % 2 == 0
  {
    var q, t := cr0 % 0x8000_0000 / 16, cr0 / 2 % 2;
    assert SmmCr0(cr0) == 16 * q + 2 * t;
  }

  lemma Cr0Bits(cr0: Word32, k: nat)
    ensures BitSet(SmmCr0(cr0), k) <==> BitSet(cr0, k) && k != 0 && k != 2 && k != 3 && k != 31
  {
    SmmCr0Parts(cr0);
    if k < 4 {
      BitsBelowFour(SmmCr0(cr0), k);
      BitsBelowFour(cr0, k);
    } else {
      BitsFromFour(SmmCr0(cr0), k);
      BitsFromFour(cr0 % 0x8000_0000, k);
      WithoutTop(cr0, cr0 % 0x8000_0000, k);
    }
  }

  lemma WithoutTop(w: Word32, low: nat, k: nat)
    requires low == w % 0x8000_0000
    ensures BitSet(low, k) <==> BitSet(w, k) && k != 31
  {
    Powers();
    LowBits(w, 31, k);
    LowBits(w, 32, k);
    assert w % TwoTo(32) == w;
  }

  lemma Powers()
    ensures TwoTo(31) == 0x8000_0000 && TwoTo(32) == TWO32
  {
    assert TwoTo(4) == 0x10;
    assert TwoTo(8) == 0x100;
    assert TwoTo(12) == 0x1000;
    assert TwoTo(16) == 0x1_0000;
    assert TwoTo(20) == 0x10_0000;
    assert TwoTo(24) == 0x100_0000;
    assert TwoTo(28) == 0x1000_0000;
  }

  // -------- the processor --------

  /** The handler starts at SMBASE + 0x8000, without paging or protection, with
      interrupts off; CR0 loses PG, TS, EM and PE and keeps every other bit. */
  lemma HandlerStarts(s: Cpu, inHlt: bool)
    ensures var e := Enter(s, inHlt);
            && Wrap32(e.segs.cs.base + e.core.pc) == Wrap32(s.core.smbase + 0x8000) && e.core.pc == 0x8000
            && e.core.flags == 2 && e.core.eflags == 0 && e.core.cr4 == 0 && e.core.dr7 == 0x400
            && e.core.regs == s.core.regs && e.core.cr3 == s.core.cr3 && e.core.dr6 == s.core.dr6
            && e.core.smbase == s.core.smbase
    ensures forall k: nat ::
              BitSet(Enter(s, inHlt).core.cr0, k) <==> BitSet(s.core.cr0, k) && k != 0 && k != 2 && k != 3 && k != 31
  {
    EnteredParts(s);
    HandlerCode(s, inHlt);
    forall k: nat
      ensures BitSet(SmmCr0(s.core.cr0), k) <==> BitSet(s.core.cr0, k) && k != 0 && k != 2 && k != 3 && k != 31
    {
      Cr0Bits(s.core.cr0, k);
    }
  }

  lemma HandlerCode(s: Cpu, inHlt: bool)
    ensures Enter(s, inHlt).segs.cs
         == Seg(s.core.smbase, 0xffffffff, 0x93, 0x80, s.core.smbase / 16 % 0x1_0000, 0, 0xffffffff, true)
  {
    EnterShows(s, inHlt, CS);
    CodeWindow(s);
  }

  lemma CodeWindow(s: Cpu)
    ensures Windowed(EntryCore(s.core), EntryCode(s.segs.cs, s.core.smbase))
         == Seg(s.core.smbase, 0xffffffff, 0x93, 0x80, s.core.smbase / 16 % 0x1_0000, 0, 0xffffffff, true)
  {
    EntryUnprotected(s.core);
  }

  lemma DataWindow(s: Cpu)
    ensures IsFlatData(Windowed(EntryCore(s.core), EntryData(s.segs.ds)))
  {
    EntryUnprotected(s.core);
  }

  predicate IsFlatData(g: Seg) {
    g == Seg(0, 0xffffffff, 0x93, 0x80, 0, 0, 0xffffffff, true)
  }

  /** CS starts at SMBASE with selector SMBASE >> 4, the five data segments at zero with
      selector zero, and all six reach over 4G. The system segments are untouched. */
  lemma HandlerSegments(s: Cpu, inHlt: bool)
    ensures var e := Enter(s, inHlt).segs;
            && e.cs == Seg(s.core.smbase, 0xffffffff, 0x93, 0x80, s.core.smbase / 16 % 0x1_0000, 0, 0xffffffff, true)
            && IsFlatData(e.es) && IsFlatData(e.ds) && IsFlatData(e.ss) && IsFlatData(e.fs) && IsFlatData(e.gs)
            && e.tr == s.segs.tr && e.ldt == s.segs.ldt
    ensures Enter(s, inHlt).gdt == s.gdt && Enter(s, inHlt).idt == s.idt
  {
    HandlerCode(s, inHlt);
    DataWindow(s);
    EnterShows(s, inHlt, ES);
    EnterShows(s, inHlt, DS);
    EnterShows(s, inHlt, SS);
    EnterShows(s, inHlt, FS);
    EnterShows(s, inHlt, GS);
    EnterShows(s, inHlt, TR);
    EnterShows(s, inHlt, LDT);
    HandlerTables(s, inHlt);
  }

  lemma HandlerTables(s: Cpu, inHlt: bool)
    ensures Enter(s, inHlt).gdt == s.gdt && Enter(s, inHlt).idt == s.idt
  {
    EnteredParts(s);
  }

  /** 16-bit code and stack in real mode, at privilege level 0, with DS and SS flat. */
  lemma HandlerMode(s: Cpu, inHlt: bool)
    ensures var e := Enter(s, inHlt);
            && e.mode == Mode(0, false, Status(false, false, false, false, false, false))
            && e.op32 == 0 && e.oldcpl == 0
  {
  }

  /** The latch: an SMI that waited makes this the second level. NMIs are masked, the SMI
      line is left to the caller, and the HLT mark is that of this entry. A20 is
      unmasked where the machine does so, with the mask put aside. */
  lemma HandlerLatch(s: Cpu, inHlt: bool)
    ensures var e := Enter(s, inHlt);
            && e.latch.inSmm == (if s.latch.latched then 2 else 1) && !e.latch.latched
            && e.latch.inHlt == inHlt && !e.latch.nmiMask && e.latch.line == s.latch.line
            && e.core.rammask == (if s.unmaskA20 then 0xffffffff else s.core.rammask)
            && e.oldRammask == (if s.unmaskA20 then s.core.rammask else s.oldRammask)
            && e.a20 == s.a20 && e.unmaskA20 == s.unmaskA20
  {
    EnteredParts(s);
  }

  // -------- the save map in memory --------

  /** A dword for each offset from SMBASE. */
  type Area = nat -> Word32

  /** The dwords of memory m under a RAM mask. */
  function AreaOf(m: Memory, smbase: Word32, mask: RamMask): Area {
    (off: nat) => Read4(m, MaskAddr(Wrap32(smbase + off), mask))
  }

  function OffsetOf(n: nat): nat
    requires n < 128
  {
    0xfffc - 4 * n
  }

  /** The slots of a map go down from offset 0xFFFC. */
  predicate Lays(d: Area, img: seq<Word32>) {
    |img| == 128 && forall n | 0 <= n < 128 :: img[n] == d(OffsetOf(n))
  }

  lemma ReadLays(m: Memory, smbase: Word32, mask: RamMask)
    ensures Lays(AreaOf(m, smbase, mask), ReadSlots(m, mask, smbase))
  {
    var d, img := AreaOf(m, smbase, mask), ReadSlots(m, mask, smbase);
    forall n | 0 <= n < 128
      ensures img[n] == d(OffsetOf(n))
    {
      assert SlotAddr(smbase, n) == Wrap32(smbase + OffsetOf(n));
    }
  }

  /** The P6 map: where the selector of r is, and where its base, with the limit one
      dword below and selector and attributes two. */
  function Offsets(r: SegReg): (nat, nat) {
    match r
    case ES => (0xffa8, 0xff8c)
    case CS => (0xffac, 0xff98)
    case SS => (0xffb0, 0xffa4)
    case DS => (0xffb4, 0xff34)
    case FS => (0xffb8, 0xff40)
    case GS => (0xffbc, 0xff4c)
    case LDT => (0xffc0, 0xff80)
    case TR => (0xffc4, 0xff64)
  }

  predicate Describes(d: Area, at: nat, g: Seg)
    requires at >= 8
  {
    && d(at) == g.base
    && d(at - 4) == g.limit
    && d(at - 8) == 0x100_0000 * g.arHigh + 0x1_0000 * g.access + g.seg
  }

  /** The control part of the map, with the revision that announces SMBASE relocation
      and I/O restart. */
  predicate HoldsCore(d: Area, s: Cpu, inHlt: bool) {
    && d(0xfffc) == s.core.cr0 && d(0xfff8) == s.core.cr3 && d(0xff14) == s.core.cr4
    && d(0xfff4) == 0x1_0000 * s.core.eflags + s.core.flags && d(0xfff0) == s.core.pc
    && d(0xffcc) == s.core.dr6 && d(0xffc8) == s.core.dr7
    && d(0xff20) == s.segs.cs.access / 0x20 % 4
    && d(0xff18) == (if s.a20 then 0 else 1)
    && d(0xff00) == (if inHlt then 1 else 0)
    && d(0xfefc) == 0x20030000 && d(0xfef8) == s.core.smbase
  }

  predicate HoldsRegister(d: Area, s: Cpu, r: nat)
    requires r < 8
  {
    d(0xffd0 + 4 * r) == s.core.regs[r]
  }

  predicate HoldsSegment(d: Area, s: Cpu, r: SegReg) {
    var (sel, desc) := Offsets(r);
    d(sel) == s.segs.Get(r).seg && Describes(d, desc, s.segs.Get(r))
  }

  predicate HoldsProgram(d: Area, s: Cpu, inHlt: bool) {
    && HoldsCore(d, s, inHlt)
    && (forall r: nat | r < 8 :: HoldsRegister(d, s, r))
    && (forall r: SegReg :: HoldsSegment(d, s, r))
    && Describes(d, 0xff74, s.gdt)
    && Describes(d, 0xff58, s.idt)
  }

  lemma LaidCore(d: Area, img: seq<Word32>, s: Cpu, inHlt: bool)
    requires Lays(d, img) && Img.IsImage(img, s, inHlt)
    ensures HoldsCore(d, s, inHlt)
  {
    LaidSlots(d, img);
  }

  lemma LaidSlots(d: Area, img: seq<Word32>)
    requires Lays(d, img)
    ensures d(0xfffc) == img[0] && d(0xfff8) == img[1] && d(0xfff4) == img[2] && d(0xfff0) == img[3]
    ensures d(0xffcc) == img[12] && d(0xffc8) == img[13] && d(0xff20) == img[55] && d(0xff18) == img[57]
    ensures d(0xff14) == img[58] && d(0xff00) == img[63] && d(0xfefc) == img[64] && d(0xfef8) == img[65]
  {
    assert OffsetOf(0) == 0xfffc && OffsetOf(1) == 0xfff8 && OffsetOf(2) == 0xfff4 && OffsetOf(3) == 0xfff0;
    assert OffsetOf(12) == 0xffcc && OffsetOf(13) == 0xffc8 && OffsetOf(55) == 0xff20 && OffsetOf(57) == 0xff18;
    assert OffsetOf(58) == 0xff14 && OffsetOf(63) == 0xff00 && OffsetOf(64) == 0xfefc && OffsetOf(65) == 0xfef8;
  }

  lemma LaidRegister(d: Area, img: seq<Word32>, s: Cpu, inHlt: bool, r: nat)
    requires Lays(d, img) && Img.IsImage(img, s, inHlt) && r < 8
    ensures HoldsRegister(d, s, r)
  {
    assert OffsetOf(11 - r) == 0xffd0 + 4 * r;
    assert img[Img.EAX - r] == s.core.regs[r];
  }

  lemma LaidThree(d: Area, img: seq<Word32>, n: nat)
    requires Lays(d, img) && n + 2 < 128
    ensures var at := OffsetOf(n); d(at) == img[n] && d(at - 4) == img[n + 1] && d(at - 8) == img[n + 2]
  {
    assert OffsetOf(n + 1) == OffsetOf(n) - 4 && OffsetOf(n + 2) == OffsetOf(n) - 8;
  }

  lemma OffsetsAreSlots(r: SegReg)
    ensures Offsets(r) == (OffsetOf(Img.SelSlot(r)), OffsetOf(Img.DescSlot(r)))
  {
  }

  lemma LaidSegment(d: Area, img: seq<Word32>, s: Cpu, inHlt: bool, r: SegReg)
    requires Lays(d, img) && Img.IsImage(img, s, inHlt)
    ensures HoldsSegment(d, s, r)
  {
    assert Img.SegSlots(img, r, s.segs.Get(r));
    OffsetsAreSlots(r);
    LaidThree(d, img, Img.DescSlot(r));
  }

  lemma LaidTables(d: Area, img: seq<Word32>, s: Cpu, inHlt: bool)
    requires Lays(d, img) && Img.IsImage(img, s, inHlt)
    ensures Describes(d, 0xff74, s.gdt) && Describes(d, 0xff58, s.idt)
  {
    LaidThree(d, img, 34);
    LaidThree(d, img, 41);
  }

  lemma LaidProgram(d: Area, img: seq<Word32>, s: Cpu, inHlt: bool)
    requires Lays(d, img) && Img.IsImage(img, s, inHlt)
    ensures HoldsProgram(d, s, inHlt)
  {
    LaidCore(d, img, s, inHlt);
    LaidTables(d, img, s, inHlt);
    forall r: nat | r < 8
      ensures HoldsRegister(d, s, r)
    {
      LaidRegister(d, img, s, inHlt, r);
    }
    forall r: SegReg
      ensures HoldsSegment(d, s, r)
    {
      LaidSegment(d, img, s, inHlt, r);
    }
  }

  lemma StoredReadsBack(m: Memory, mask: RamMask, smbase: Word32, img: seq<Word32>)
    requires |img| == Img.SLOTS
    ensures ReadSlots(WriteSlots(m, mask, smbase, img, Img.SLOTS), mask, smbase) == img
  {
    var now := WriteSlots(m, mask, smbase, img, Img.SLOTS);
    forall n | 0 <= n < Img.SLOTS
      ensures ReadSlots(now, mask, smbase)[n] == img[n]
    {
      SlotSurvives(m, mask, smbase, img, Img.SLOTS, n);
    }
  }

  /** After entry, under the RAM mask it was stored with, the map below SMBASE + 0x10000
      holds the interrupted program at the places of the P6. */
  lemma HandlerFindsProgram(s: Cpu, inHlt: bool)
    ensures HoldsProgram(AreaOf(Enter(s, inHlt).mem, s.core.smbase, s.core.rammask), s, inHlt)
  {
    var img := Img.Image(s, inHlt);
    Img.ImageIsImage(s, inHlt);
    StoredMemory(s, inHlt);
    StoredReadsBack(s.mem, s.core.rammask, s.core.smbase, img);
    ReadLays(Enter(s, inHlt).mem, s.core.smbase, s.core.rammask);
    LaidProgram(AreaOf(Enter(s, inHlt).mem, s.core.smbase, s.core.rammask), img, s, inHlt);
  }

  lemma StoredMemory(s: Cpu, inHlt: bool)
    ensures Enter(s, inHlt).mem
         == WriteSlots(s.mem, s.core.rammask, s.core.smbase, Img.Image(s, inHlt), Img.SLOTS)
  {
  }
}

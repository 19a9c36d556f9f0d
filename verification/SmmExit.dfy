/** What RSM makes of whatever is in the save map, in numbers. */
module SmmExit {
  import opened Words
  import opened CpuModel
  import Img = SmramImage
  import opened SmramMemory
  import opened SmmSpec
  import opened SmmEntry
  import opened SmmExact

  /** The save map as the processor reads it on the way out. */
  function AreaRead(h: Cpu): Area {
    AreaOf(h.mem, h.core.smbase, h.core.rammask)
  }

  function MapRead(h: Cpu): seq<Word32> {
    ReadSlots(h.mem, h.core.rammask, h.core.smbase)
  }

  predicate CoreFrom(c: Core, d: Area) {
    && c.cr0 == d(0xfffc) && c.cr3 == d(0xfff8) && c.cr4 == d(0xff14)
    && c.flags == d(0xfff4) % 0x1_0000 && c.eflags == d(0xfff4) / 0x1_0000
    && c.pc == (if d(0xff00) % 0x1_0000 == 0 then d(0xfff0)
                else if d(0xfff0) == 0 then 0xffffffff else d(0xfff0) - 1)
    && c.dr6 == d(0xffcc) && c.dr7 == d(0xffc8) && c.smbase == d(0xfef8)
    && c.rammask == (if d(0xff18) % 2 == 1 then 0xffefffff else 0xffffffff)
    && forall r | 0 <= r < 8 :: c.regs[r] == d(0xffd0 + 4 * r)
  }

  lemma CoreOfMap(d: Area, img: seq<Word32>)
    requires Lays(d, img)
    ensures CoreFrom(RestoredCore(img), d)
  {
    LaidSlots(d, img);
    forall r | 0 <= r < 8
      ensures RestoredCore(img).regs[r] == d(0xffd0 + 4 * r)
    {
      assert OffsetOf(11 - r) == 0xffd0 + 4 * r;
    }
  }

  predicate Protected(c: Core) {
    c.cr0 % 2 == 1 && c.eflags / 2 % 2 == 0
  }

  /** Segment g as loaded from its selector, base, limit and attribute dwords. Only a null
      selector in protected mode outside V86 is left unchecked. */
  predicate SegFrom(g: Seg, c: Core, sel: Word32, base: Word32, limit: Word32, attrs: Word32) {
    && g.seg == sel % 0x1_0000 && g.base == base && g.limit == limit && g.arHigh == attrs / 0x100_0000
    && (g.checked <==> !Protected(c) || sel % 0x1_0000 != 0)
    && WindowFrom(g)
  }

  /** Expand-down is a data segment type with bit 2 of the access byte set. */
  predicate WindowFrom(g: Seg) {
    if g.access / 8 % 4 == 2 && g.access / 4 % 2 == 1 then
      && g.limitLow == (g.limit + 1) % TWO32
      && g.limitHigh == if g.arHigh / 0x40 % 2 == 1 then 0xffffffff else 0xffff
    else g.limitLow == 0 && g.limitHigh == g.limit
  }

  lemma WindowInNumbers(c: Core, g: Seg)
    requires Windowed(c, g) == g
    ensures WindowFrom(g) && (g.checked <==> !Protected(c) || g.seg != 0)
  {
  }

  predicate AccessFrom(access: Byte, saved: Byte, r: SegReg) {
    if r == CS then access % 0x20 == saved % 0x20 && access / 0x80 == saved / 0x80 else access == saved
  }

  predicate SegLoaded(g: Seg, c: Core, d: Area, r: SegReg) {
    var (sel, desc) := Offsets(r);
    && SegFrom(g, c, d(sel), d(desc), d(desc - 4), d(desc - 8))
    && AccessFrom(g.access, d(desc - 8) / 0x1_0000 % 0x100, r)
  }

  lemma SegOfMap(d: Area, img: seq<Word32>, g: Seg, c: Core, r: SegReg)
    requires Lays(d, img) && ShowsSeg(g, img, r) && Windowed(c, g) == g
    ensures SegLoaded(g, c, d, r)
  {
    OffsetsAreSlots(r);
    LaidThree(d, img, Img.DescSlot(r));
    WindowInNumbers(c, g);
  }

  lemma SizesInNumbers(c: Core, g: Seg, attrs: Word32)
    requires g.arHigh == attrs / 0x100_0000
    ensures Use32Of(c, g) == if Protected(c) && attrs / 0x4000_0000 % 2 == 1 then 0x300 else 0
    ensures Stack32Of(c, g) <==> Protected(c) && attrs / 0x4000_0000 % 2 == 1
  {
    assert attrs / 0x100_0000 / 0x40 == attrs / 0x4000_0000;
  }

  /** Registers and control state after RSM. */
  lemma LeftCore(h: Cpu)
    ensures CoreFrom(Leave(h).core, AreaRead(h))
  {
    LeaveShows(h, CS);
    ReadLays(h.mem, h.core.smbase, h.core.rammask);
    CoreOfMap(AreaRead(h), MapRead(h));
  }

  lemma ShownSeg(t: Cpu, img: seq<Word32>, r: SegReg)
    requires |img| == Img.SLOTS && ShowsMap(t, img, r) && Rebuilt(t)
    ensures ShowsSeg(t.segs.Get(r), img, r) && Windowed(t.core, t.segs.Get(r)) == t.segs.Get(r)
  {
  }

  /** Every segment register after RSM; the privilege level comes from its own slot. */
  lemma LeftSegment(h: Cpu, r: SegReg)
    ensures SegLoaded(Leave(h).segs.Get(r), Leave(h).core, AreaRead(h), r)
  {
    ExitRebuilt(h);
    LeaveShows(h, r);
    ShownSeg(Leave(h), MapRead(h), r);
    ReadLays(h.mem, h.core.smbase, h.core.rammask);
    SegOfMap(AreaRead(h), MapRead(h), Leave(h).segs.Get(r), Leave(h).core, r);
  }

  lemma LeftPrivilege(h: Cpu)
    ensures Leave(h).segs.cs.access / 0x20 % 4 == AreaRead(h)(0xff20) % 4 == Leave(h).oldcpl
  {
    LeaveShows(h, CS);
    ReadLays(h.mem, h.core.smbase, h.core.rammask);
    LaidSlots(AreaRead(h), MapRead(h));
    OldCplIsCpl(h);
  }

  lemma OldCplIsCpl(h: Cpu)
    ensures Leave(h).oldcpl == Cpl(Leave(h).segs)
  {
  }

  predicate SizesFrom(t: Cpu, cs: Word32, ss: Word32) {
    && t.mode.use32 == (if Protected(t.core) && cs / 0x4000_0000 % 2 == 1 then 0x300 else 0)
    && (t.mode.stack32 <==> Protected(t.core) && ss / 0x4000_0000 % 2 == 1)
  }

  lemma SizesOf(t: Cpu, cs: Word32, ss: Word32)
    requires Rebuilt(t) && t.segs.cs.arHigh == cs / 0x100_0000 && t.segs.ss.arHigh == ss / 0x100_0000
    ensures SizesFrom(t, cs, ss)
  {
    SizesInNumbers(t.core, t.segs.cs, cs);
    SizesInNumbers(t.core, t.segs.ss, ss);
  }

  /** 32-bit code and a 32-bit stack after RSM exactly in protected mode outside V86 with
      the D/B bit, bit 30 of the attribute dwords of CS and SS in the map. */
  lemma LeftSizes(h: Cpu)
    ensures SizesFrom(Leave(h), AreaRead(h)(0xff90), AreaRead(h)(0xff9c))
  {
    ExitRebuilt(h);
    LeftSegment(h, CS);
    LeftSegment(h, SS);
    SizesOf(Leave(h), AreaRead(h)(0xff90), AreaRead(h)(0xff9c));
  }

  predicate TableFrom(g: Seg, base: Word32, limit: Word32, attrs: Word32) {
    && g.base == base && g.limit == limit
    && g.access == attrs / 0x1_0000 % 0x100 && g.arHigh == attrs / 0x100_0000
  }

  lemma LeftTables(h: Cpu)
    ensures var d := AreaRead(h);
            && TableFrom(Leave(h).gdt, d(0xff74), d(0xff70), d(0xff6c))
            && TableFrom(Leave(h).idt, d(0xff58), d(0xff54), d(0xff50))
  {
    LeaveShows(h, CS);
    ReadLays(h.mem, h.core.smbase, h.core.rammask);
    LaidThree(AreaRead(h), MapRead(h), 34);
    LaidThree(AreaRead(h), MapRead(h), 41);
  }
}

/** The 128-dword SMRAM state save map in the P6 layout: what each slot holds, and
    how the map is filled register by register. Slot n is the dword at
    SMBASE + 0x8000 + 0x7FFC - 4 * n. */
module SmramImage {
  import opened Words
  import opened CpuModel

  const SLOTS: nat := 128
  const CR0: nat := 0
  const CR3: nat := 1
  const EFLAGS: nat := 2
  const EIP: nat := 3
  const EAX: nat := 11
  const DR6: nat := 12
  const DR7: nat := 13
  const GDTR: nat := 34
  const IDTR: nat := 41
  const CPL: nat := 55
  const A20M: nat := 57
  const CR4: nat := 58
  const AUTOHALT: nat := 63
  const REVISION: nat := 64
  const SMBASE: nat := 65
  const REVISION_ID: Word32 := 0x20030000

  /** The slot of r's selector; its base, limit and selector-with-attributes slots
      start at DescSlot(r). */
  function SelSlot(r: SegReg): nat {
    match r
    case TR => 14 case LDT => 15 case GS => 16 case FS => 17
    case DS => 18 case SS => 19 case CS => 20 case ES => 21
  }

  function DescSlot(r: SegReg): nat {
    match r
    case SS => 22 case CS => 25 case ES => 28 case LDT => 31
    case TR => 38 case GS => 44 case FS => 47 case DS => 50
  }

  function SelectorAr(g: Seg): Word32 {
    0x100_0000 * g.arHigh + 0x1_0000 * g.access + g.seg
  }

  function AccessOf(w: Word32): Byte {
    w / 0x1_0000 % 0x100
  }

  function ArHighOf(w: Word32): Byte {
    w / 0x100_0000
  }

  function Low16(w: Word32): Word16 {
    w % 0x1_0000
  }

  function High16(w: Word32): Word16 {
    w / 0x1_0000
  }

  function FlagsDword(c: Core): Word32 {
    0x1_0000 * c.eflags + c.flags
  }

  lemma FieldsOfSelectorAr(g: Seg)
    ensures AccessOf(SelectorAr(g)) == g.access && ArHighOf(SelectorAr(g)) == g.arHigh
  {
  }

  predicate DescriptorAt(img: seq<Word32>, at: nat, g: Seg)
    requires at + 2 < |img|
  {
    img[at] == g.base && img[at + 1] == g.limit && img[at + 2] == SelectorAr(g)
  }

  predicate Unused(n: int) {
    n == 37 || n == 53 || n == 54 || n == 56 || 59 <= n <= 62 || 66 <= n < SLOTS
  }

  predicate CoreSlots(img: seq<Word32>, c: Core)
    requires |img| == SLOTS
  {
    && img[CR0] == c.cr0
    && img[CR3] == c.cr3
    && img[EFLAGS] == FlagsDword(c)
    && img[EIP] == c.pc
    && (forall n :: 0 <= n < 8 ==> img[EAX - n] == c.regs[n])
    && img[DR6] == c.dr6
    && img[DR7] == c.dr7
    && img[CR4] == c.cr4
    && img[SMBASE] == c.smbase
  }

  predicate SegSlots(img: seq<Word32>, r: SegReg, g: Seg)
    requires |img| == SLOTS
  {
    img[SelSlot(r)] == g.seg && DescriptorAt(img, DescSlot(r), g)
  }

  predicate IsControl(n: int) {
    n == CPL || n == A20M || n == CR4 || n == AUTOHALT || n == REVISION || n == SMBASE
  }

  predicate ControlSlots(img: seq<Word32>, s: Cpu, inHlt: bool)
    requires |img| == SLOTS
  {
    && img[CPL] == Cpl(s.segs)
    && img[A20M] == (if s.a20 then 0 else 1)
    && img[AUTOHALT] == (if inHlt then 1 else 0)
    && img[REVISION] == REVISION_ID
  }

  /** The slots that leaving SMM takes state from: all that are used but the revision. */
  predicate Observed(n: int) {
    0 <= n < SLOTS && !Unused(n) && n != REVISION
  }

  predicate TableSlots(img: seq<Word32>, s: Cpu, inHlt: bool)
    requires |img| == SLOTS
  {
    && DescriptorAt(img, GDTR, s.gdt)
    && DescriptorAt(img, IDTR, s.idt)
    && img[CPL] == Cpl(s.segs)
    && img[A20M] == (if s.a20 then 0 else 1)
    && img[AUTOHALT] == (if inHlt then 1 else 0)
  }

  // -------- storing register by register --------

  function StoreDesc(img: seq<Word32>, at: nat, g: Seg): (out: seq<Word32>)
    requires at + 2 < |img|
    ensures |out| == |img|
  {
    img[at := g.base][at + 1 := g.limit][at + 2 := SelectorAr(g)]
  }

  function StoreRegister(img: seq<Word32>, r: SegReg, g: Seg): (out: seq<Word32>)
    requires |img| == SLOTS
    ensures |out| == SLOTS
  {
    StoreDesc(img[SelSlot(r) := g.seg], DescSlot(r), g)
  }

  /** Every slot that leaving SMM takes state from holds what s had in it. */
  ghost predicate HoldsState(img: seq<Word32>, s: Cpu, inHlt: bool) {
    && |img| == SLOTS
    && CoreSlots(img, s.core)
    && (forall r: SegReg :: SegSlots(img, r, s.segs.Get(r)))
    && TableSlots(img, s, inHlt)
  }

  /** img is the save map of state s, entered from HLT or not. */
  ghost predicate IsImage(img: seq<Word32>, s: Cpu, inHlt: bool) {
    && HoldsState(img, s, inHlt)
    && img[REVISION] == REVISION_ID
    && (forall n | 0 <= n < SLOTS :: Unused(n) ==> img[n] == 0)
  }

  /** The segment register whose selector, or whose descriptor, slot n belongs to. */
  function SelOwner(n: int): SegReg {
    if n == 14 then TR else if n == 15 then LDT else if n == 16 then GS else if n == 17 then FS
    else if n == 18 then DS else if n == 19 then SS else if n == 20 then CS else ES
  }

  function DescOwner(n: int): SegReg {
    if n < 25 then SS else if n < 28 then CS else if n < 31 then ES else if n < 34 then LDT
    else if n < 41 then TR else if n < 47 then GS else if n < 50 then FS else DS
  }

  function DescriptorWord(g: Seg, k: int): Word32 {
    if k == 0 then g.base else if k == 1 then g.limit else SelectorAr(g)
  }

  /** The content of slot n, in the order of the map. */
  function SlotValue(s: Cpu, inHlt: bool, n: nat): Word32 {
    if n == CR0 then s.core.cr0
    else if n == CR3 then s.core.cr3
    else if n == EFLAGS then FlagsDword(s.core)
    else if n == EIP then s.core.pc
    else if n <= EAX then s.core.regs[EAX - n]
    else if n == DR6 then s.core.dr6
    else if n == DR7 then s.core.dr7
    else if n <= 21 then s.segs.Get(SelOwner(n)).seg
    else if GDTR <= n < GDTR + 3 then DescriptorWord(s.gdt, n - GDTR)
    else if IDTR <= n < IDTR + 3 then DescriptorWord(s.idt, n - IDTR)
    else if n < 53 && n != 37 then DescriptorWord(s.segs.Get(DescOwner(n)), n - DescSlot(DescOwner(n)))
    else if n == CPL then Cpl(s.segs)
    else if n == A20M then if s.a20 then 0 else 1
    else if n == CR4 then s.core.cr4
    else if n == AUTOHALT then if inHlt then 1 else 0
    else if n == REVISION then REVISION_ID
    else if n == SMBASE then s.core.smbase
    else 0
  }

  function Image(s: Cpu, inHlt: bool): (img: seq<Word32>)
    ensures |img| == SLOTS
  {
    seq(SLOTS, n requires 0 <= n < SLOTS => SlotValue(s, inHlt, n))
  }

  lemma ImageSegSlots(s: Cpu, inHlt: bool, r: SegReg)
    ensures SegSlots(Image(s, inHlt), r, s.segs.Get(r))
  {
    match r
    case ES => case CS => case DS => case SS => case FS => case GS => case TR => case LDT =>
  }

  lemma ImageCoreSlots(s: Cpu, inHlt: bool)
    ensures CoreSlots(Image(s, inHlt), s.core)
  {
  }

  lemma ImageTableSlots(s: Cpu, inHlt: bool)
    ensures TableSlots(Image(s, inHlt), s, inHlt)
  {
  }

  lemma ImageIsImage(s: Cpu, inHlt: bool)
    ensures IsImage(Image(s, inHlt), s, inHlt)
  {
    ImageCoreSlots(s, inHlt);
    ImageTableSlots(s, inHlt);
    forall r: SegReg {
      ImageSegSlots(s, inHlt, r);
    }
  }

  lemma RegisterSlotsApart(q: SegReg, r: SegReg)
    requires q != r
    ensures SelSlot(q) != SelSlot(r)
    ensures DescSlot(q) + 3 <= DescSlot(r) || DescSlot(r) + 3 <= DescSlot(q)
    ensures SelSlot(q) < 22 <= DescSlot(r)
  {
  }

  lemma DescOwnerSlot(n: nat)
    requires 22 <= n < 53 && n != 37 && !(GDTR <= n < GDTR + 3) && !(IDTR <= n < IDTR + 3)
    ensures DescSlot(DescOwner(n)) <= n < DescSlot(DescOwner(n)) + 3
  {
  }

  lemma SelOwnerSlot(n: nat)
    requires 14 <= n <= 21
    ensures SelSlot(SelOwner(n)) == n
  {
  }

  lemma DescSlotUnique(img: seq<Word32>, r: SegReg, g: Seg, n: nat)
    requires |img| == SLOTS && SegSlots(img, r, g) && DescSlot(r) <= n < DescSlot(r) + 3
    ensures img[n] == DescriptorWord(g, n - DescSlot(r))
  {
    assert n == DescSlot(r) || n == DescSlot(r) + 1 || n == DescSlot(r) + 2;
  }

  lemma OtherSlotUnique(img: seq<Word32>, s: Cpu, inHlt: bool, n: nat)
    requires IsImage(img, s, inHlt)
    requires n < SLOTS && !(14 <= n < 34) && !(38 <= n < 41) && !(44 <= n < 53)
    ensures img[n] == SlotValue(s, inHlt, n)
  {
    if 4 <= n <= EAX {
      assert img[EAX - (EAX - n)] == s.core.regs[EAX - n];
    }
  }

  lemma SlotUnique(img: seq<Word32>, s: Cpu, inHlt: bool, n: nat)
    requires IsImage(img, s, inHlt) && n < SLOTS
    ensures img[n] == SlotValue(s, inHlt, n)
  {
    if !(14 <= n < 34) && !(38 <= n < 41) && !(44 <= n < 53) {
      OtherSlotUnique(img, s, inHlt, n);
    } else if n <= 21 {
      SelOwnerSlot(n);
      assert SegSlots(img, SelOwner(n), s.segs.Get(SelOwner(n)));
    } else {
      DescOwnerSlot(n);
      DescSlotUnique(img, DescOwner(n), s.segs.Get(DescOwner(n)), n);
    }
  }

  lemma ImageUnique(img: seq<Word32>, s: Cpu, inHlt: bool)
    requires IsImage(img, s, inHlt)
    ensures img == Image(s, inHlt)
  {
    forall n | 0 <= n < SLOTS
      ensures img[n] == Image(s, inHlt)[n]
    {
      SlotUnique(img, s, inHlt, n);
    }
  }

  /** Two maps that agree in the observed slots hold the same state. */
  lemma HoldsStateOnObserved(img: seq<Word32>, other: seq<Word32>, s: Cpu, inHlt: bool)
    requires HoldsState(img, s, inHlt) && |other| == SLOTS
    requires forall n | 0 <= n < SLOTS :: Observed(n) ==> other[n] == img[n]
    ensures HoldsState(other, s, inHlt)
  {
    forall n | 0 <= n < 8
      ensures other[EAX - n] == s.core.regs[n]
    {
      assert img[EAX - n] == s.core.regs[n];
    }
    forall r: SegReg
      ensures SegSlots(other, r, s.segs.Get(r))
    {
      assert SegSlots(img, r, s.segs.Get(r));
    }
  }

  /** The place of r in the order in which the save goes through the registers. */
  function Rank(r: SegReg): nat {
    match r
    case TR => 0 case LDT => 1 case ES => 2 case CS => 3
    case DS => 4 case SS => 5 case FS => 6 case GS => 7
  }

  /** The control slots and those of the first done registers are written, the
      tables too if so marked, and the unused slots are zero. */
  ghost predicate Partly(img: seq<Word32>, s: Cpu, inHlt: bool, done: nat, tables: bool) {
    && |img| == SLOTS
    && CoreSlots(img, s.core)
    && ControlSlots(img, s, inHlt)
    && (forall n | 0 <= n < SLOTS :: Unused(n) ==> img[n] == 0)
    && (tables ==> DescriptorAt(img, GDTR, s.gdt) && DescriptorAt(img, IDTR, s.idt))
    && (forall r: SegReg | Rank(r) < done :: SegSlots(img, r, s.segs.Get(r)))
  }

  predicate SameOutside(was: seq<Word32>, now: seq<Word32>, at: nat, other: nat) {
    && |was| == |now| == SLOTS
    && (forall n | 0 <= n < SLOTS && n != other && !(at <= n < at + 3) :: now[n] == was[n])
  }

  /** A descriptor slot group meets no control slot, no unused slot and no other group. */
  predicate DescGroup(at: nat) {
    22 <= at <= 50 && (at < 53 - 2) && (at + 2 < 37 || 37 < at)
  }

  lemma CoreSlotsKept(was: seq<Word32>, now: seq<Word32>, at: nat, other: nat, c: Core)
    requires SameOutside(was, now, at, other) && DescGroup(at) && 14 <= other <= 21
    requires CoreSlots(was, c)
    ensures CoreSlots(now, c)
  {
    forall n | 0 <= n < 8
      ensures now[EAX - n] == c.regs[n]
    {
      assert was[EAX - n] == c.regs[n];
    }
  }

  lemma StoreRegisterKeeps(img: seq<Word32>, r: SegReg, g: Seg, q: SegReg, h: Seg)
    requires |img| == SLOTS && q != r && SegSlots(img, q, h)
    ensures SegSlots(StoreRegister(img, r, g), q, h)
  {
    RegisterSlotsApart(q, r);
  }

  lemma StoreRegisterHolds(img: seq<Word32>, r: SegReg, g: Seg)
    requires |img| == SLOTS
    ensures SegSlots(StoreRegister(img, r, g), r, g)
  {
    RegisterSlotsApart(r, if r == TR then LDT else TR);
  }

  lemma PartlyRegister(img: seq<Word32>, s: Cpu, inHlt: bool, tables: bool, r: SegReg)
    requires Partly(img, s, inHlt, Rank(r), tables)
    ensures Partly(StoreRegister(img, r, s.segs.Get(r)), s, inHlt, Rank(r) + 1, tables)
  {
    var g := s.segs.Get(r);
    var now := StoreRegister(img, r, g);
    assert SameOutside(img, now, DescSlot(r), SelSlot(r)) && DescGroup(DescSlot(r));
    CoreSlotsKept(img, now, DescSlot(r), SelSlot(r), s.core);
    forall q: SegReg | Rank(q) <= Rank(r)
      ensures SegSlots(now, q, s.segs.Get(q))
    {
      if Rank(q) == Rank(r) {
        StoreRegisterHolds(img, r, g);
      } else {
        StoreRegisterKeeps(img, r, g, q, s.segs.Get(q));
      }
    }
  }

  lemma PartlyTables(img: seq<Word32>, s: Cpu, inHlt: bool, done: nat)
    requires Partly(img, s, inHlt, done, false)
    ensures Partly(StoreDesc(StoreDesc(img, IDTR, s.idt), GDTR, s.gdt), s, inHlt, done, true)
  {
    var mid := StoreDesc(img, IDTR, s.idt);
    var now := StoreDesc(mid, GDTR, s.gdt);
    forall n | 0 <= n < 8
      ensures now[EAX - n] == s.core.regs[n]
    {
      assert img[EAX - n] == s.core.regs[n];
    }
    forall q: SegReg | Rank(q) < done
      ensures SegSlots(now, q, s.segs.Get(q))
    {
      assert SegSlots(img, q, s.segs.Get(q));
      match q
      case ES => case CS => case DS => case SS => case FS => case GS => case TR => case LDT =>
    }
  }

  lemma PartlyAll(img: seq<Word32>, s: Cpu, inHlt: bool)
    requires Partly(img, s, inHlt, 8, true)
    ensures IsImage(img, s, inHlt)
  {
    assert forall r: SegReg :: Rank(r) < 8;
  }

  /** The save begins with the control slots; the registers follow in rank order. */
  lemma PartlyControl(img: seq<Word32>, s: Cpu, inHlt: bool)
    requires |img| == SLOTS && CoreSlots(img, s.core) && ControlSlots(img, s, inHlt)
    requires forall i | 14 <= i < SLOTS && !IsControl(i) :: img[i] == 0
    ensures Partly(img, s, inHlt, 0, false)
  {
  }

  lemma ImageIgnoresLatch(s: Cpu, l: Latch, inHlt: bool)
    ensures Image(s.(latch := l), inHlt) == Image(s, inHlt)
  {
    forall n | 0 <= n < SLOTS
      ensures SlotValue(s.(latch := l), inHlt, n) == SlotValue(s, inHlt, n)
    {
    }
  }
}

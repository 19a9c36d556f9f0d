/** Exactly when an SMI is transparent. The state must be as a restore leaves it, RAM mask
    included. And with A20 unmasked during SMM the save map is written through one mask
    and read through another; one observed slot that the two send apart is enough for
    some memory contents to show through. */
module SmmExact {
  import opened Words
  import opened CpuModel
  import Img = SmramImage
  import opened SmramMemory
  import opened SmmSpec
  import opened SmmTransparency
  import StatusRuns

  /** The state that the interrupted program should find. */
  function Interrupted(s: Cpu, inHlt: bool): Cpu {
    s.(core := s.core.(pc := HaltRestart(s.core.pc, inHlt)))
  }

  ghost predicate OneSmi(s: Cpu, inHlt: bool, m: Memory, h: Cpu) {
    KeepsSaveArea(Enter(s.(mem := m), inHlt), h) ==> SameProgramState(Leave(h), Interrupted(s, inHlt))
  }

  /** Whatever memory holds, and whatever a handler does that keeps the save area. */
  ghost predicate Transparent(s: Cpu, inHlt: bool) {
    forall m: Memory, h: Cpu :: OneSmi(s, inHlt, m, h)
  }

  /** Reachable means: no unmasking, or no observed slot has an address bit that the
      mask in force takes away. */
  lemma ReachableExactly(s: Cpu)
    ensures SaveAreaReachable(s)
       <==> !s.unmaskA20
            || forall n | 0 <= n < Img.SLOTS :: Img.Observed(n) ==> Within(SlotAddr(s.core.smbase, n), s.core.rammask)
  {
    if s.unmaskA20 {
      AllLinesAreOnes();
      forall n | 0 <= n < Img.SLOTS
        ensures SlotAgrees(s.core.smbase, s.core.rammask, ALL_LINES, n)
           <==> Within(SlotAddr(s.core.smbase, n), s.core.rammask)
      {
        AndKeepsExactly(SlotAddr(s.core.smbase, n), s.core.rammask);
        AndOnes(SlotAddr(s.core.smbase, n), ALL_LINES);
      }
    }
  }

  // -------- what a restored state shows of the map --------

  ghost predicate ShowsSeg(g: Seg, img: seq<Word32>, r: SegReg)
    requires |img| == Img.SLOTS
  {
    && g.base == img[Img.DescSlot(r)]
    && g.limit == img[Img.DescSlot(r) + 1]
    && g.arHigh == Img.ArHighOf(img[Img.DescSlot(r) + 2])
    && g.seg == Img.Low16(img[Img.SelSlot(r)])
    && ShowsAccess(g.access, Img.AccessOf(img[Img.DescSlot(r) + 2]), r)
  }

  /** The privilege level in CS's access byte comes from a slot of its own. */
  predicate ShowsAccess(access: Byte, saved: Byte, r: SegReg) {
    if r == CS then access % 0x20 == saved % 0x20 && access / 0x80 == saved / 0x80 else access == saved
  }

  lemma RestoreSegShows(t: Cpu, img: seq<Word32>, r: SegReg, q: SegReg)
    requires |img| == Img.SLOTS
    ensures ShowsSeg(RestoreSeg(t, img, r).segs.Get(r), img, r)
    ensures q != r ==> RestoreSeg(t, img, r).segs.Get(q) == t.segs.Get(q)
  {
  }

  lemma RestoreTwoShow(t: Cpu, img: seq<Word32>, a: SegReg, b: SegReg, q: SegReg) returns (u: Cpu)
    requires |img| == Img.SLOTS && a != b
    ensures u == RestoreSeg(RestoreSeg(t, img, a), img, b)
    ensures q == a || q == b ==> ShowsSeg(u.segs.Get(q), img, q)
    ensures q != a && q != b ==> u.segs.Get(q) == t.segs.Get(q)
    ensures SameButSegments(t, u)
  {
    RestoreSegShows(t, img, a, q);
    var t1 := RestoreSeg(t, img, a);
    u := RestoreSeg(t1, img, b);
    RestoreSegShows(t1, img, b, q);
  }

  lemma SavedCplShows(t: Cpu, img: seq<Word32>, q: SegReg) returns (u: Cpu)
    requires |img| == Img.SLOTS
    ensures u == WithSavedCpl(t, img) && SameButSegments(t, u)
    ensures q != CS ==> u.segs.Get(q) == t.segs.Get(q)
    ensures ShowsSeg(t.segs.cs, img, CS) ==> ShowsSeg(u.segs.cs, img, CS)
    ensures Cpl(u.segs) == img[Img.CPL] % 4
  {
    u := WithSavedCpl(t, img);
    DplSet(t.segs.cs.access, img[Img.CPL] % 4);
  }

  lemma DplSet(access: Byte, dpl: Byte)
    requires dpl < 4
    ensures Dpl(WithDpl(access, dpl)) == dpl
    ensures WithDpl(access, dpl) % 0x20 == access % 0x20 && WithDpl(access, dpl) / 0x80 == access / 0x80
  {
    var top, low := access / 0x80, access % 0x20;
    assert access == 0x80 * top + 0x20 * Dpl(access) + low;
    assert WithDpl(access, dpl) == 0x80 * top + 0x20 * dpl + low;
  }

  lemma RestoredShows(t: Cpu, img: seq<Word32>, q: SegReg) returns (u: Cpu)
    requires |img| == Img.SLOTS
    ensures u == RestoreSegs(t, img) && SameButSegments(t, u)
    ensures ShowsSeg(u.segs.Get(q), img, q)
    ensures q == CS ==> Cpl(u.segs) == img[Img.CPL] % 4
  {
    var t1 := RestoreTwoShow(t, img, TR, LDT, q);
    var t2 := RestoreTwoShow(t1, img, ES, CS, q);
    var t3 := SavedCplShows(t2, img, q);
    var t4 := RestoreTwoShow(t3, img, DS, SS, q);
    u := RestoreTwoShow(t4, img, FS, GS, q);
    assert u == RestoreSegs(t, img);
  }

  /** A table register shows the three slots at at. */
  ghost predicate ShowsTable(g: Seg, img: seq<Word32>, at: nat)
    requires at + 2 < |img|
  {
    && g.base == img[at]
    && g.limit == img[at + 1]
    && g.access == Img.AccessOf(img[at + 2])
    && g.arHigh == Img.ArHighOf(img[at + 2])
  }

  /** What the state after RSM shows of the map it was read from. */
  ghost predicate ShowsMap(r: Cpu, img: seq<Word32>, q: SegReg)
    requires |img| == Img.SLOTS
  {
    && r.core == RestoredCore(img)
    && ShowsSeg(r.segs.Get(q), img, q)
    && (q == CS ==> Cpl(r.segs) == img[Img.CPL] % 4)
    && ShowsTable(r.gdt, img, Img.GDTR)
    && ShowsTable(r.idt, img, Img.IDTR)
  }

  lemma LeftShows(t: Cpu, img: seq<Word32>, q: SegReg)
    requires |img| == Img.SLOTS
    ensures ShowsMap(ExitDone(Restore(t, img)), img, q)
  {
    var u := RestoredShows(RestorePlain(t, img), img, q);
  }

  lemma LeaveShows(h: Cpu, q: SegReg)
    ensures ShowsMap(Leave(h), ReadSlots(h.mem, h.core.rammask, h.core.smbase), q)
  {
    var undone := Undone(h);
    LeftShows(undone, ReadSlots(h.mem, h.core.rammask, h.core.smbase), q);
  }

  // -------- contents of a lost slot that show --------

  predicate AttributeSlot(n: int) {
    22 <= n < 53 && n != 37 && n == Img.DescSlot(Img.DescOwner(n)) + 2
  }

  /** A byte that, all over slot n, cannot pass for the content of the slot. */
  function Intruder(s: Cpu, inHlt: bool, n: nat): Byte {
    if n == Img.EIP then
      var pc := HaltRestart(s.core.pc, inHlt);
      if pc == Fourfold(1) || Wrap32(pc + 1) == Fourfold(1) then 2 else 1
    else if n == Img.A20M then if s.core.rammask == NO_A20 then 0 else 1
    else if n == Img.GDTR + 2 then if s.gdt.arHigh == 0 then 1 else 0
    else if n == Img.IDTR + 2 then if s.idt.arHigh == 0 then 1 else 0
    else if AttributeSlot(n) then if s.segs.Get(Img.DescOwner(n)).arHigh == 0 then 1 else 0
    else if Img.SlotValue(s, inHlt, n) == 0 then 1 else 0
  }

  predicate CoreSlot(n: int) {
    Img.Observed(n) && !(14 <= n < 53) && n != Img.CPL
  }

  lemma CoreIntruderShows(s: Cpu, inHlt: bool, n: nat, img: seq<Word32>)
    requires CoreSlot(n) && |img| == Img.SLOTS
    requires img[n] == Fourfold(Intruder(s, inHlt, n))
    requires n == Img.AUTOHALT ==> img[Img.EIP] == s.core.pc
    ensures RestoredCore(img) != Interrupted(s, inHlt).core
  {
    var c := RestoredCore(img);
    if 4 <= n <= Img.EAX {
      assert c.regs[Img.EAX - n] == img[n];
    }
  }

  /** The segment register that slot n belongs to, if any. */
  function Owner(n: int): SegReg {
    if n <= 21 then Img.SelOwner(n) else if n == Img.CPL then CS else Img.DescOwner(n)
  }

  lemma SelectorIntruderShows(s: Cpu, inHlt: bool, n: nat, img: seq<Word32>, g: Seg)
    requires 14 <= n <= 21 && |img| == Img.SLOTS && img[n] == Fourfold(Intruder(s, inHlt, n))
    requires ShowsSeg(g, img, Img.SelOwner(n))
    ensures g != s.segs.Get(Img.SelOwner(n))
  {
    Img.SelOwnerSlot(n);
  }

  predicate SegDescSlot(n: int) {
    22 <= n < 53 && n != 37 && !(Img.GDTR <= n < Img.GDTR + 3) && !(Img.IDTR <= n < Img.IDTR + 3)
  }

  lemma DescriptorIntruderShows(s: Cpu, inHlt: bool, n: nat, img: seq<Word32>, g: Seg)
    requires SegDescSlot(n) && |img| == Img.SLOTS && img[n] == Fourfold(Intruder(s, inHlt, n))
    requires ShowsSeg(g, img, Img.DescOwner(n))
    ensures g != s.segs.Get(Img.DescOwner(n))
  {
    var r := Img.DescOwner(n);
    Img.DescOwnerSlot(n);
    assert n == Img.DescSlot(r) || n == Img.DescSlot(r) + 1 || n == Img.DescSlot(r) + 2;
  }

  lemma IntruderShows(s: Cpu, inHlt: bool, n: nat, img: seq<Word32>, r: Cpu)
    requires Img.Observed(n) && |img| == Img.SLOTS
    requires img[n] == Fourfold(Intruder(s, inHlt, n))
    requires n == Img.AUTOHALT ==> img[Img.EIP] == s.core.pc
    requires ShowsMap(r, img, Owner(n))
    ensures !SameProgramState(r, Interrupted(s, inHlt))
  {
    if CoreSlot(n) {
      CoreIntruderShows(s, inHlt, n, img);
    } else if 14 <= n <= 21 {
      SelectorIntruderShows(s, inHlt, n, img, r.segs.Get(Owner(n)));
    } else if SegDescSlot(n) {
      DescriptorIntruderShows(s, inHlt, n, img, r.segs.Get(Owner(n)));
    }
  }

  /** h has the save map of memory full of byte c, stored from s. */
  ghost predicate StoredOver(s: Cpu, c: Byte, image: seq<Word32>, h: Cpu) {
    && |image| == Img.SLOTS && image[Img.EIP] == s.core.pc
    && h.core.smbase == s.core.smbase
    && h.core.rammask == EnteredMask(s)
    && h.mem == WriteSlots(Filled(c), s.core.rammask, s.core.smbase, image, Img.SLOTS)
  }

  lemma LostRead(s: Cpu, c: Byte, image: seq<Word32>, h: Cpu, n: nat)
    requires StoredOver(s, c, image, h) && n < Img.SLOTS
    requires !SlotAgrees(s.core.smbase, s.core.rammask, EnteredMask(s), n)
    ensures ReadSlots(h.mem, h.core.rammask, h.core.smbase)[n] == Fourfold(c)
  {
    LostSlot(Filled(c), s.core.smbase, s.core.rammask, EnteredMask(s), image, n);
    FilledReads(c, MaskAddr(SlotAddr(s.core.smbase, n), EnteredMask(s)));
  }

  lemma PcRead(s: Cpu, c: Byte, image: seq<Word32>, h: Cpu)
    requires StoredOver(s, c, image, h)
    requires SlotAgrees(s.core.smbase, s.core.rammask, EnteredMask(s), Img.EIP)
    ensures ReadSlots(h.mem, h.core.rammask, h.core.smbase)[Img.EIP] == s.core.pc
  {
    SlotSurvives(Filled(c), s.core.rammask, s.core.smbase, image, Img.SLOTS, Img.EIP);
  }

  lemma EntersOver(s: Cpu, inHlt: bool, c: Byte) returns (image: seq<Word32>, h: Cpu)
    ensures h == Enter(s.(mem := Filled(c)), inHlt) && StoredOver(s, c, image, h)
  {
    var m := s.(mem := Filled(c));
    h := Enter(m, inHlt);
    EntryKeeps(m, inHlt);
    image := Img.Image(m, inHlt);
  }

  /** One lost slot and memory full of its intruder, or of the program counter's if that
      slot is lost as well. */
  lemma LostSlotShows(s: Cpu, inHlt: bool, n: nat)
    requires Img.Observed(n) && !SlotAgrees(s.core.smbase, s.core.rammask, EnteredMask(s), n)
    ensures !Transparent(s, inHlt)
  {
    var shown := if SlotAgrees(s.core.smbase, s.core.rammask, EnteredMask(s), Img.EIP) then n else Img.EIP;
    var c := Intruder(s, inHlt, shown);
    var image, h := EntersOver(s, inHlt, c);
    LostRead(s, c, image, h, shown);
    if shown != Img.EIP {
      PcRead(s, c, image, h);
    }
    NotTransparent(s, inHlt, shown, c, h);
  }

  lemma NotTransparent(s: Cpu, inHlt: bool, n: nat, c: Byte, h: Cpu)
    requires h == Enter(s.(mem := Filled(c)), inHlt)
    requires Img.Observed(n) && c == Intruder(s, inHlt, n)
    requires ReadSlots(h.mem, h.core.rammask, h.core.smbase)[n] == Fourfold(c)
    requires n != Img.EIP ==> ReadSlots(h.mem, h.core.rammask, h.core.smbase)[Img.EIP] == s.core.pc
    ensures !Transparent(s, inHlt)
  {
    LeaveShows(h, Owner(n));
    IntruderShows(s, inHlt, n, ReadSlots(h.mem, h.core.rammask, h.core.smbase), Leave(h));
    assert !OneSmi(s, inHlt, Filled(c), h);
  }

  // -------- what a restore leaves behind --------

  lemma WindowedTwice(c: Core, g: Seg)
    ensures Windowed(c, Windowed(c, g)) == Windowed(c, g)
  {
  }

  /** The privilege level plays no part in the window. */
  lemma WindowedAnyDpl(c: Core, g: Seg, dpl: Byte)
    requires dpl < 4 && Windowed(c, g) == g
    ensures var h := g.(access := WithDpl(g.access, dpl)); Windowed(c, h) == h
  {
    SameBelowDpl(g.access, dpl);
  }

  lemma SameBelowDpl(access: Byte, dpl: Byte)
    requires dpl < 4
    ensures WithDpl(access, dpl) / 8 % 4 == access / 8 % 4
    ensures Bit(WithDpl(access, dpl), 4) == Bit(access, 4)
  {
    var d := dpl - Dpl(access);
    var w := WithDpl(access, dpl);
    assert w == access + 32 * d;
    assert w / 8 == access / 8 + 4 * d;
    assert w / 4 == access / 4 + 8 * d;
    FourthsAlike(w / 8, access / 8, d);
  }

  lemma FourthsAlike(x: int, y: int, d: int)
    requires x == y + 4 * d
    ensures x % 4 == y % 4
  {
  }

  lemma TwoRebuilt(t: Cpu, img: seq<Word32>, a: SegReg, b: SegReg, q: SegReg) returns (u: Cpu)
    requires |img| == Img.SLOTS && a != b
    ensures u == RestoreSeg(RestoreSeg(t, img, a), img, b) && SameButSegments(t, u)
    ensures q == a || q == b ==> Windowed(t.core, u.segs.Get(q)) == u.segs.Get(q)
    ensures q != a && q != b ==> u.segs.Get(q) == t.segs.Get(q)
  {
    var t1 := RestoreSeg(t, img, a);
    WindowedTwice(t.core, RestoredSeg(img, a, t.segs.Get(a)));
    u := RestoreSeg(t1, img, b);
    WindowedTwice(t.core, RestoredSeg(img, b, t1.segs.Get(b)));
  }

  lemma RestoredWindow(t: Cpu, img: seq<Word32>, q: SegReg)
    requires |img| == Img.SLOTS
    ensures var g := RestoreSegs(t, img).segs.Get(q); Windowed(t.core, g) == g
  {
    var t1 := TwoRebuilt(t, img, TR, LDT, q);
    var t2 := TwoRebuilt(t1, img, ES, CS, q);
    var t3 := WithSavedCpl(t2, img);
    if q == CS {
      WindowedAnyDpl(t.core, t2.segs.cs, img[Img.CPL] % 4);
    }
    var t4 := TwoRebuilt(t3, img, DS, SS, q);
    var t5 := TwoRebuilt(t4, img, FS, GS, q);
    assert t5 == RestoreSegs(t, img);
  }

  lemma RestoredMode(t: Cpu, img: seq<Word32>)
    requires |img| == Img.SLOTS
    ensures var u := RestoreSegs(t, img);
            u.core == t.core && u.mode.use32 == Use32Of(t.core, u.segs.cs)
            && u.mode.stack32 == Stack32Of(t.core, u.segs.ss)
  {
  }

  /** Whatever SMRAM holds, the caches are rebuilt afterwards. */
  lemma ExitRebuilt(h: Cpu)
    ensures Rebuilt(Leave(h))
  {
    var img := ReadSlots(h.mem, h.core.rammask, h.core.smbase);
    var plain := RestorePlain(Undone(h), img);
    RestoreKeepsSegments(Undone(h), img);
    RestoredMode(plain, img);
    RebuiltUnder(plain.core, RestoreSegs(plain, img), Leave(h)) by {
      forall r: SegReg
        ensures Windowed(plain.core, RestoreSegs(plain, img).segs.Get(r)) == RestoreSegs(plain, img).segs.Get(r)
      {
        RestoredWindow(plain, img, r);
      }
    }
  }

  lemma RebuiltUnder(c: Core, u: Cpu, r: Cpu)
    requires forall q: SegReg :: Windowed(c, u.segs.Get(q)) == u.segs.Get(q)
    requires u.mode.use32 == Use32Of(c, u.segs.cs) && u.mode.stack32 == Stack32Of(c, u.segs.ss)
    requires SameModeBits(c, r.core) && r.segs == u.segs
    requires r.mode.use32 == u.mode.use32 && r.mode.stack32 == u.mode.stack32
    ensures Rebuilt(r)
  {
    forall q: SegReg
      ensures Windowed(r.core, r.segs.Get(q)) == r.segs.Get(q)
    {
      assert Windowed(c, u.segs.Get(q)) == u.segs.Get(q);
    }
  }

  // -------- the theorem --------

  /** A handler that does nothing. */
  lemma IdleHandler(s: Cpu, inHlt: bool) returns (h: Cpu)
    requires Transparent(s, inHlt)
    ensures h == Enter(s, inHlt) && SameProgramState(Leave(h), Interrupted(s, inHlt))
  {
    h := Enter(s, inHlt);
    assert s.(mem := s.mem) == s;
    assert OneSmi(s, inHlt, s.mem, h);
  }

  /** A program state that survives an SMI is settled. */
  lemma TransparentSettled(s: Cpu, inHlt: bool)
    requires Transparent(s, inHlt)
    ensures Settled(s)
  {
    var h := IdleHandler(s, inHlt);
    ExitRebuilt(h);
    StatusRuns.ExitStatus(h);
    SettledAlike(Leave(h), Interrupted(s, inHlt));
    SettledAnyPc(s, inHlt);
  }

  lemma SettledAnyPc(s: Cpu, inHlt: bool)
    requires Settled(Interrupted(s, inHlt))
    ensures Settled(s)
  {
    var t := Interrupted(s, inHlt);
    forall r: SegReg
      ensures Windowed(s.core, s.segs.Get(r)) == s.segs.Get(r)
    {
      assert Windowed(t.core, t.segs.Get(r)) == t.segs.Get(r);
    }
  }

  /** A RAM mask that survives an SMI is the one of the A20 gate. */
  lemma TransparentMask(s: Cpu, inHlt: bool)
    requires Transparent(s, inHlt) && SaveAreaReachable(s)
    ensures RammaskAgrees(s)
  {
    var h := IdleHandler(s, inHlt);
    EnteredMaskDerived(s, inHlt, h);
  }

  lemma EnteredMaskDerived(s: Cpu, inHlt: bool, h: Cpu)
    requires h == Enter(s, inHlt) && SaveAreaReachable(s)
    ensures Leave(h).core.rammask == GateMask(s.a20)
  {
    SaveAreaHolds(s, inHlt);
    MaskDerived(s, inHlt, h);
  }

  lemma MaskDerived(s: Cpu, inHlt: bool, h: Cpu)
    requires Img.HoldsState(ReadSlots(h.mem, h.core.rammask, h.core.smbase), s, inHlt)
    ensures Leave(h).core.rammask == GateMask(s.a20)
  {
    CoreRoundTrip(ReadSlots(h.mem, h.core.rammask, h.core.smbase), s, inHlt);
    LeaveShows(h, CS);
  }

  lemma TransparentReachable(s: Cpu, inHlt: bool)
    requires Transparent(s, inHlt)
    ensures SaveAreaReachable(s)
  {
    forall n | 0 <= n < Img.SLOTS && Img.Observed(n)
      ensures SlotAgrees(s.core.smbase, s.core.rammask, EnteredMask(s), n)
    {
      if !SlotAgrees(s.core.smbase, s.core.rammask, EnteredMask(s), n) {
        LostSlotShows(s, inHlt, n);
      }
    }
  }

  lemma SmiInvisible(s: Cpu, inHlt: bool, m: Memory, h: Cpu)
    requires Settled(s) && RammaskAgrees(s) && SaveAreaReachable(s)
    ensures OneSmi(s, inHlt, m, h)
  {
    if KeepsSaveArea(Enter(s.(mem := m), inHlt), h) {
      SettledAnyMemory(s, m);
      SmiTransparent(s.(mem := m), inHlt, h);
    }
  }

  /** SMIs are transparent exactly to a settled program with the RAM mask of its A20
      gate and a reachable save area. */
  lemma TransparentExactly(s: Cpu, inHlt: bool)
    ensures Transparent(s, inHlt) <==> Settled(s) && RammaskAgrees(s) && SaveAreaReachable(s)
  {
    if Transparent(s, inHlt) {
      TransparentReachable(s, inHlt);
      TransparentMask(s, inHlt);
      TransparentSettled(s, inHlt);
    }
    if Settled(s) && RammaskAgrees(s) && SaveAreaReachable(s) {
      forall m: Memory, h: Cpu
        ensures OneSmi(s, inHlt, m, h)
      {
        SmiInvisible(s, inHlt, m, h);
      }
    }
  }

  /** What a hard reset leaves: all address lines, with the A20 gate closed. */
  predicate AfterHardReset(s: Cpu) {
    s.core.rammask == ALL_LINES && !s.a20 && !s.unmaskA20
  }

  lemma FirstSmiMasks(s: Cpu)
    requires AfterHardReset(s)
    ensures !RammaskAgrees(s)
  {
  }

  /** The first SMI leaves a state that the next ones do not change. */
  lemma SettledOnceMore(s: Cpu, inHlt: bool)
    requires Settled(s) && !s.unmaskA20
    ensures var t := AfterSmi(s, inHlt); Settled(t) && RammaskAgrees(t) && SaveAreaReachable(t)
  {
    SettledAfter(s, inHlt);
  }

  /** In that state the first SMI masks A20, and only later ones are transparent. */
  lemma ResetNotTransparent(s: Cpu, inHlt: bool)
    requires AfterHardReset(s)
    ensures !Transparent(s, inHlt)
    ensures Settled(s) ==> Transparent(AfterSmi(s, inHlt), inHlt)
  {
    FirstSmiMasks(s);
    TransparentExactly(s, inHlt);
    if Settled(s) {
      SettledOnceMore(s, inHlt);
      TransparentExactly(AfterSmi(s, inHlt), inHlt);
    }
  }

  lemma SettledAnyMemory(s: Cpu, m: Memory)
    requires Settled(s) && SaveAreaReachable(s)
    ensures Settled(s.(mem := m)) && SaveAreaReachable(s.(mem := m))
  {
    var t := s.(mem := m);
    forall r: SegReg
      ensures Windowed(t.core, t.segs.Get(r)) == t.segs.Get(r)
    {
      assert Windowed(s.core, s.segs.Get(r)) == s.segs.Get(r);
    }
    forall n | 0 <= n < Img.SLOTS && Img.Observed(n)
      ensures SlotAgrees(t.core.smbase, t.core.rammask, EnteredMask(t), n)
    {
      assert SlotAgrees(s.core.smbase, s.core.rammask, EnteredMask(s), n);
    }
  }
}

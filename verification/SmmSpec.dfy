/** Entering and leaving SMM, RSM and the SMI line, as functions on states. */
module SmmSpec {
  import opened Words
  import opened CpuModel
  import Img = SmramImage
  import opened SmramMemory

  // -------- entry --------

  /** CR0 without PG, TS, EM and PE. */
  function SmmCr0(cr0: Word32): Word32 {
    cr0 % 0x8000_0000 / 16 * 16 + cr0 / 2 % 2 * 2
  }

  function EntryCore(c: Core): Core {
    c.(cr0 := SmmCr0(c.cr0), flags := 2, eflags := 0, cr4 := 0, dr7 := 0x400, pc := 0x8000)
  }

  lemma EntryUnprotected(c: Core)
    ensures !PE(EntryCore(c))
  {
    var q, t := c.cr0 % 0x8000_0000 / 16, c.cr0 / 2 % 2;
    assert SmmCr0(c.cr0) == 2 * (8 * q + t);
  }

  /** The flat 4G data segment; its window is rebuilt afterwards. */
  function EntryData(ds: Seg): Seg {
    Seg(0, 0xffffffff, 0x93, 0x80, 0, ds.limitLow, ds.limitHigh, ds.checked)
  }

  function EntryCode(cs: Seg, smbase: Word32): Seg {
    Seg(smbase, 0xffffffff, 0x93, 0x80, Wrap16(smbase / 16), cs.limitLow, cs.limitHigh, true)
  }

  /** A rebuild of the segment cache of r as it stands. */
  function Reload(s: Cpu, r: SegReg): Cpu {
    LoadSeg(s, r, s.segs.Get(r))
  }

  function ReloadAll(s: Cpu): Cpu {
    var s1 := Reload(Reload(s, ES), CS);
    var s2 := Reload(Reload(s1, DS), SS);
    Reload(Reload(s2, FS), GS)
  }

  /** The registers and segments that entry sets by hand. */
  function Preloaded(s: Cpu): Cpu {
    var data := EntryData(s.segs.ds);
    var code := EntryCode(s.segs.cs, s.core.smbase);
    s.(core := EntryCore(s.core),
       segs := s.segs.(es := data, cs := code, ds := data, ss := data, fs := data, gs := data))
  }

  function EnterLatch(l: Latch, inHlt: bool): Latch {
    Latch(if l.latched then 2 else 1, false, l.line, inHlt, false)
  }

  function EnteredMask(s: Cpu): RamMask {
    if s.unmaskA20 then ALL_LINES else s.core.rammask
  }

  /** The state in which the save map is stored. */
  function Entered(s: Cpu): Cpu {
    var t := ReloadAll(Preloaded(s.(latch := s.latch.(inSmm := 1))));
    t.(op32 := t.mode.use32)
  }

  lemma EnteredParts(s: Cpu)
    ensures var t := Entered(s);
            t == s.(core := EntryCore(s.core), latch := s.latch.(inSmm := 1), segs := t.segs, mode := t.mode,
                    op32 := t.op32)
  {
  }

  lemma ReloadOne(t: Cpu, r: SegReg, q: SegReg) returns (u: Cpu)
    ensures u == Reload(t, r) && u.core == t.core
    ensures u.segs.Get(q) == if q == r then Windowed(t.core, t.segs.Get(r)) else t.segs.Get(q)
  {
    u := Reload(t, r);
  }

  /** Reloading all rebuilds each of the six once. */
  lemma ReloadAllShows(t: Cpu, q: SegReg) returns (u: Cpu)
    ensures u == ReloadAll(t) && u.core == t.core
    ensures u.segs.Get(q) == if q == TR || q == LDT then t.segs.Get(q) else Windowed(t.core, t.segs.Get(q))
  {
    var t1 := ReloadOne(t, ES, q);
    var t2 := ReloadOne(t1, CS, q);
    var t3 := ReloadOne(t2, DS, q);
    var t4 := ReloadOne(t3, SS, q);
    var t5 := ReloadOne(t4, FS, q);
    u := ReloadOne(t5, GS, q);
    assert u == ReloadAll(t);
  }

  /** The segments that the handler starts with, each rebuilt from what entry put there. */
  lemma EnterShows(s: Cpu, inHlt: bool, q: SegReg)
    ensures var p := Preloaded(s.(latch := s.latch.(inSmm := 1)));
            Enter(s, inHlt).segs.Get(q)
            == if q == TR || q == LDT then p.segs.Get(q) else Windowed(p.core, p.segs.Get(q))
  {
    var p := Preloaded(s.(latch := s.latch.(inSmm := 1)));
    var u := ReloadAllShows(p, q);
    EnterSegs(s, inHlt, u);
  }

  lemma EnterSegs(s: Cpu, inHlt: bool, u: Cpu)
    requires u == ReloadAll(Preloaded(s.(latch := s.latch.(inSmm := 1))))
    ensures Enter(s, inHlt).segs == u.segs
  {
  }

  /** The last steps of entry, with the map stored. */
  function EntryDone(t: Cpu, inHlt: bool): Cpu {
    t.(core := t.core.(rammask := EnteredMask(t)),
       mode := t.mode.(status := t.mode.status.(pmode := false, v86 := false)),
       latch := EnterLatch(t.latch, inHlt),
       oldcpl := 0,
       oldRammask := if t.unmaskA20 then t.core.rammask else t.oldRammask)
  }

  function Enter(s: Cpu, inHlt: bool): Cpu {
    var stored := WriteSlots(s.mem, s.core.rammask, s.core.smbase, Img.Image(s, inHlt), Img.SLOTS);
    EntryDone(Entered(s).(mem := stored), inHlt)
  }

  // -------- exit --------

  function HaltRestart(pc: Word32, fromHlt: bool): Word32 {
    if fromHlt then Wrap32(pc - 1) else pc
  }

  function RestoredCore(img: seq<Word32>): Core
    requires |img| == Img.SLOTS
  {
    Core(seq(8, n requires 0 <= n < 8 => img[Img.EAX - n]),
         HaltRestart(img[Img.EIP], img[Img.AUTOHALT] % 0x1_0000 != 0),
         Img.Low16(img[Img.EFLAGS]), Img.High16(img[Img.EFLAGS]),
         img[Img.CR0], img[Img.CR3], img[Img.CR4], img[Img.DR6], img[Img.DR7],
         img[Img.SMBASE],
         if img[Img.A20M] % 2 == 1 then NO_A20 else ALL_LINES)
  }

  function RestoredDesc(img: seq<Word32>, at: nat, g: Seg): Seg
    requires at + 2 < |img|
  {
    g.(base := img[at], limit := img[at + 1],
       access := Img.AccessOf(img[at + 2]), arHigh := Img.ArHighOf(img[at + 2]))
  }

  function RestoredSeg(img: seq<Word32>, r: SegReg, g: Seg): Seg
    requires |img| == Img.SLOTS
  {
    RestoredDesc(img, Img.DescSlot(r), g).(seg := Img.Low16(img[Img.SelSlot(r)]))
  }

  function RestoreSeg(s: Cpu, img: seq<Word32>, r: SegReg): Cpu
    requires |img| == Img.SLOTS
  {
    LoadSeg(s, r, RestoredSeg(img, r, s.segs.Get(r)))
  }

  /** The privilege level saved in its own slot replaces the one in CS's access byte. */
  function WithSavedCpl(s: Cpu, img: seq<Word32>): Cpu
    requires |img| == Img.SLOTS
  {
    var cs := s.segs.cs;
    s.(segs := s.segs.(cs := cs.(access := WithDpl(cs.access, img[Img.CPL] % 4))))
  }

  function RestoreSegs(s: Cpu, img: seq<Word32>): Cpu
    requires |img| == Img.SLOTS
  {
    var s1 := RestoreSeg(RestoreSeg(s, img, TR), img, LDT);
    var s2 := RestoreSeg(RestoreSeg(s1, img, ES), img, CS);
    var s3 := RestoreSeg(RestoreSeg(WithSavedCpl(s2, img), img, DS), img, SS);
    RestoreSeg(RestoreSeg(s3, img, FS), img, GS)
  }

  /** Registers, control state and descriptor tables. */
  function RestorePlain(s: Cpu, img: seq<Word32>): Cpu
    requires |img| == Img.SLOTS
  {
    s.(core := RestoredCore(img).(smbase := s.core.smbase, rammask := s.core.rammask),
       idt := RestoredDesc(img, Img.IDTR, s.idt),
       gdt := RestoredDesc(img, Img.GDTR, s.gdt))
  }

  /** SMBASE and the RAM mask come last. */
  function Restore(s: Cpu, img: seq<Word32>): Cpu
    requires |img| == Img.SLOTS
  {
    RestoreSegs(RestorePlain(s, img), img).(core := RestoredCore(img))
  }

  /** The last steps of exit, with the state restored. */
  function ExitDone(t: Cpu): Cpu {
    t.(mode := t.mode.(status := t.mode.status.(pmode := PE(t.core), v86 := PE(t.core) && VM(t.core))),
       latch := t.latch.(inSmm := 0, nmiMask := true),
       oldcpl := Cpl(t.segs))
  }

  function Undone(s: Cpu): Cpu {
    if s.unmaskA20 then s.(core := s.core.(rammask := s.oldRammask)) else s
  }

  /** The unmasking of A20 is undone first, but then the saved A20 state decides. */
  function Leave(s: Cpu): Cpu {
    ExitDone(Restore(Undone(s), ReadSlots(s.mem, s.core.rammask, s.core.smbase)))
  }

  /** An SMI that was latched in SMM is served as soon as it is left. */
  function Relatched(t: Cpu): Cpu {
    if t.latch.latched then Enter(t, t.latch.inHlt) else t
  }

  /** RSM. Outside SMM the instruction is illegal. */
  function Rsm(s: Cpu): Cpu
    requires s.latch.inSmm != 0
  {
    Relatched(Leave(s))
  }

  function Check(s: Cpu, inHlt: bool): Cpu {
    if !s.latch.line then s
    else
      var t := if s.latch.inSmm == 1 then s.(latch := s.latch.(latched := true))
               else if s.latch.inSmm == 2 then s
               else Enter(s, inHlt);
      t.(latch := t.latch.(line := false))
  }
}

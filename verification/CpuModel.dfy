/** The part of the processor state that SMM entry and exit, the segment caches
    and the status summary read or write, as a value, with what one segment-cache
    rebuild does to it. */
module CpuModel {
  import opened Words

  /** The named bits of the status summary. */
  datatype Status = Status(use32: bool, stack32: bool, pmode: bool, v86: bool, notFlatDs: bool, notFlatSs: bool)

  /** A mask of address lines. The low ten are always there: RAM comes in kilobytes, and
      the mask is the RAM size less one, that without line 20, or one of the two below. */
  type RamMask = m: Word32 | m % 0x400 == 0x3ff witness 0xffff_ffff

  const ALL_LINES: RamMask := 0xffff_ffff
  const NO_A20: RamMask := 0xffef_ffff

  datatype Seg = Seg(base: Word32, limit: Word32, access: Byte, arHigh: Byte, seg: Word16,
                     limitLow: Word32, limitHigh: Word32, checked: bool)

  datatype SegReg = ES | CS | DS | SS | FS | GS | TR | LDT

  datatype Segs = Segs(es: Seg, cs: Seg, ds: Seg, ss: Seg, fs: Seg, gs: Seg, tr: Seg, ldt: Seg)
  {
    function Get(r: SegReg): Seg {
      match r
      case ES => es case CS => cs case DS => ds case SS => ss
      case FS => fs case GS => gs case TR => tr case LDT => ldt
    }

    function Set(r: SegReg, g: Seg): Segs {
      match r
      case ES => this.(es := g) case CS => this.(cs := g)
      case DS => this.(ds := g) case SS => this.(ss := g)
      case FS => this.(fs := g) case GS => this.(gs := g)
      case TR => this.(tr := g) case LDT => this.(ldt := g)
    }
  }

  type RegFile = s: seq<Word32> | |s| == 8 witness seq(8, _ => 0)

  /** Registers and control state that software sees. */
  datatype Core = Core(regs: RegFile, pc: Word32, flags: Word16, eflags: Word16,
                       cr0: Word32, cr3: Word32, cr4: Word32, dr6: Word32, dr7: Word32,
                       smbase: Word32, rammask: RamMask)

  /** What is derived from segments and control state. */
  datatype Mode = Mode(use32: Word32, stack32: bool, status: Status)

  /** SMI latching. inSmm is 0, 1 or 2 once the machine runs. */
  datatype Latch = Latch(inSmm: int, latched: bool, line: bool, inHlt: bool, nmiMask: bool)

  datatype Cpu = Cpu(core: Core, segs: Segs, gdt: Seg, idt: Seg, mode: Mode, latch: Latch,
                     op32: Word32, oldcpl: Byte, oldRammask: RamMask, a20: bool, unmaskA20: bool,
                     mem: Memory)

  predicate PE(c: Core) {
    Bit(c.cr0, 1)
  }

  predicate VM(c: Core) {
    Bit(c.eflags, 2)
  }

  predicate ProtectedNotV86(c: Core) {
    PE(c) && !VM(c)
  }

  /** Bits 5 and 6 of an access byte. */
  function Dpl(access: Byte): Byte {
    access / 32 % 4
  }

  function WithDpl(access: Byte, dpl: Byte): Byte
    requires dpl < 4
  {
    access - 32 * Dpl(access) + 32 * dpl
  }

  function Cpl(s: Segs): Byte {
    Dpl(s.cs.access)
  }

  /** The D/B bit of a descriptor. */
  predicate Big(g: Seg) {
    Bit(g.arHigh, 0x40)
  }

  predicate Flat(g: Seg) {
    g.base == 0 && g.limitLow == 0 && g.limitHigh == 0xffffffff
  }

  // -------- rebuilding one segment cache --------

  /** Offset off is in the window of w. */
  predicate WindowAccepts(w: Seg, off: Word32) {
    w.limitLow <= off <= w.limitHigh
  }

  /** Offset off is accepted and is its own linear address. */
  predicate ReachesItself(g: Seg, off: Word32) {
    WindowAccepts(g, off) && (g.base + off) % TWO32 == off
  }

  /** A segment is flat exactly when all offsets are. */
  lemma FlatExactly(g: Seg)
    ensures Flat(g) <==> forall off: Word32 :: ReachesItself(g, off)
  {
    if Flat(g) {
      forall off: Word32
        ensures ReachesItself(g, off)
      {
      }
    } else {
      assert !ReachesItself(g, 0) || !ReachesItself(g, 0xffffffff);
    }
  }

  predicate ExpandDown(g: Seg) {
    g.access / 8 % 4 == 2 && Bit(g.access, 4)
  }

  /** The offset window and the checked mark that a rebuild gives segment g. */
  function Windowed(c: Core, g: Seg): Seg {
    var w := if ExpandDown(g)
             then g.(limitHigh := if Big(g) then 0xffffffff else 0xffff, limitLow := Wrap32(g.limit + 1))
             else g.(limitHigh := g.limit, limitLow := 0);
    w.(checked := !ProtectedNotV86(c) || g.seg != 0)
  }

  function Use32Of(c: Core, cs: Seg): Word32 {
    if ProtectedNotV86(c) && Big(cs) then 0x300 else 0
  }

  function Stack32Of(c: Core, ss: Seg): bool {
    ProtectedNotV86(c) && Big(ss)
  }

  /** What loading g into r, then rebuilding, makes of the derived mode. */
  function ModeAfterLoad(c: Core, m: Mode, r: SegReg, g: Seg): Mode {
    match r
    case CS =>
      var u := Use32Of(c, g);
      m.(use32 := u, status := m.status.(use32 := u != 0))
    case DS =>
      m.(status := m.status.(notFlatDs := !Flat(g)))
    case SS =>
      var t := Stack32Of(c, g);
      m.(stack32 := t, status := m.status.(notFlatSs := !Flat(g), stack32 := t))
    case _ => m
  }

  function LoadSeg(s: Cpu, r: SegReg, g: Seg): Cpu {
    var w := Windowed(s.core, g);
    s.(segs := s.segs.Set(r, w), mode := ModeAfterLoad(s.core, s.mode, r, w))
  }

  // -------- what a consistent state is --------

  /** The six summary bits say what use32, stack32, DS, SS, CR0 and EFLAGS say. */
  predicate StatusOk(s: Cpu) {
    s.mode.status == Status(s.mode.use32 != 0, s.mode.stack32, PE(s.core), PE(s.core) && VM(s.core),
                            !Flat(s.segs.ds), !Flat(s.segs.ss))
  }

  /** Every cached window, use32 and stack32 are what a rebuild would compute. */
  predicate Rebuilt(s: Cpu) {
    && (forall r: SegReg :: Windowed(s.core, s.segs.Get(r)) == s.segs.Get(r))
    && s.mode.use32 == Use32Of(s.core, s.segs.cs)
    && s.mode.stack32 == Stack32Of(s.core, s.segs.ss)
  }

  /** The mask that leaving SMM derives from the saved A20 gate. */
  function GateMask(a20: bool): RamMask {
    if a20 then ALL_LINES else NO_A20
  }

  predicate RammaskAgrees(s: Cpu) {
    s.core.rammask == GateMask(s.a20)
  }

  /** Section 6.3.1.2 of the 80386 Programmer's Reference Manual: the offsets an
      expand-down segment accepts are those above the limit, up to 64K-1 or 4G-1;
      any other segment accepts the offsets up to the limit. */
  predicate ManualAccepts(g: Seg, off: Word32) {
    if ExpandDown(g) then g.limit < off && (Big(g) || off <= 0xffff) else off <= g.limit
  }

  /** The rebuilt window is the manual's exactly when limit + 1 does not wrap. */
  lemma WindowMatchesManual(c: Core, g: Seg)
    ensures (forall off: Word32 :: ManualAccepts(g, off) <==> WindowAccepts(Windowed(c, g), off))
       <==> !(ExpandDown(g) && g.limit == 0xffffffff)
  {
    if ExpandDown(g) && g.limit == 0xffffffff {
      assert !ManualAccepts(g, 0);
      assert WindowAccepts(Windowed(c, g), 0);
    }
  }
}

/** Register dependency masks of the timing models. A mask is the set of the bit
    numbers that are set in it: 0 to 7 for the general registers, 8 for implicit use
    of ESP, 9 for the MMX units. */
module TimingMasks {
  import opened Words

  type Mask = set<nat>

  const REG_ESP: nat := 4
  const REGMASK_IMPL_ESP: nat := 8
  const REGMASK_MMX: nat := 9

  /** One entry of a dependency table; src and dst are its eight-bit register fields. */
  datatype Deps = Deps(srcReg: bool, srcRm: bool, dstReg: bool, dstRm: bool, src: Mask, dst: Mask,
                       modrm: bool, implEsp: bool, shiftPack: bool, multiply: bool)

  function Rm(fetchdat: Word32): nat {
    fetchdat % 8
  }

  function Reg(fetchdat: Word32): nat {
    fetchdat / 8 % 8
  }

  function Mod(fetchdat: Word32): nat {
    fetchdat / 64 % 4
  }

  function SibBase(fetchdat: Word32): nat {
    fetchdat / 0x100 % 8
  }

  function SibIndex(fetchdat: Word32): nat {
    fetchdat / 0x800 % 8
  }

  function SibScale(fetchdat: Word32): nat {
    fetchdat / 0x4000 % 4
  }

  /** Registers of a 16-bit addressing form; BX, BP, SI and DI are bit patterns 3,
      5, 6 and 7 here, not register bits. */
  function Bits3(v: nat): Mask
    requires v < 8
  {
    (if v % 2 == 1 then {0} else {}) + (if v / 2 % 2 == 1 then {1} else {}) + (if v / 4 == 1 then {2} else {})
  }

  function Addr16Mask(rm: nat): Mask
    requires rm < 8
  {
    match rm
    case 0 => Bits3(3) + Bits3(6)
    case 1 => Bits3(3) + Bits3(7)
    case 2 => Bits3(5) + Bits3(6)
    case 3 => Bits3(5) + Bits3(7)
    case 4 => Bits3(6)
    case 5 => Bits3(7)
    case 6 => Bits3(5)
    case _ => Bits3(3)
  }

  function AddrRegmask(d: Deps, fetchdat: Word32, addr32: bool): Mask {
    var m := if !d.modrm || Mod(fetchdat) == 3 then {}
             else if addr32 then
               if Rm(fetchdat) == 4 then
                 if SibBase(fetchdat) == 5 then {}
                 else {SibBase(fetchdat)} + (if SibIndex(fetchdat) != 4 then {SibIndex(fetchdat)} else {})
               else if Mod(fetchdat) == 0 && Rm(fetchdat) == 5 then {}
               else {Rm(fetchdat)}
             else if Mod(fetchdat) == 0 && Rm(fetchdat) == 6 then {}
             else Addr16Mask(Rm(fetchdat));
    m + if d.implEsp then {REGMASK_IMPL_ESP} else {}
  }

  function Operand(reg: nat, bit8: bool): nat {
    if bit8 then reg % 4 else reg
  }

  function SrcMask(d: Deps, fetchdat: Word32, bit8: bool, addr32: bool): Mask {
    (if d.srcReg then {Operand(Reg(fetchdat), bit8)} else {})
    + (if d.srcRm then {Operand(Rm(fetchdat), bit8)} else {})
    + d.src
    + (if d.shiftPack || d.multiply then {REGMASK_MMX} else {})
    + AddrRegmask(d, fetchdat, addr32)
  }

  function DstMask(d: Deps, fetchdat: Word32, bit8: bool): Mask {
    (if d.dstReg then {Operand(Reg(fetchdat), bit8)} else {})
    + (if d.dstRm then {Operand(Rm(fetchdat), bit8)} else {})
    + d.dst
    + (if d.shiftPack || d.multiply then {REGMASK_MMX} else {})
    + (if d.implEsp then {REGMASK_IMPL_ESP, REG_ESP} else {})
  }

  /** The table's register fields are eight bits wide. */
  predicate ValidDeps(d: Deps) {
    (forall r | r in d.src :: r < 8) && (forall r | r in d.dst :: r < 8)
  }

  lemma AddrNarrow(d: Deps, fetchdat: Word32, addr32: bool)
    ensures forall b | b in AddrRegmask(d, fetchdat, addr32) :: b < 9
  {
  }

  lemma DstNarrow(d: Deps, fetchdat: Word32, bit8: bool)
    requires ValidDeps(d)
    ensures forall b | b in DstMask(d, fetchdat, bit8) :: b < 10
  {
  }

  lemma SrcNarrow(d: Deps, fetchdat: Word32, bit8: bool, addr32: bool)
    requires ValidDeps(d)
    ensures forall b | b in SrcMask(d, fetchdat, bit8, addr32) :: b < 10
  {
    AddrNarrow(d, fetchdat, addr32);
  }

  /** No mask reaches bit 21, where the 686 model looks for implicit use of ESP. */
  lemma MasksNarrow(d: Deps, fetchdat: Word32, bit8: bool, addr32: bool)
    requires ValidDeps(d)
    ensures forall b | b in AddrRegmask(d, fetchdat, addr32) :: b < 10
    ensures forall b | b in SrcMask(d, fetchdat, bit8, addr32) :: b < 10
    ensures forall b | b in DstMask(d, fetchdat, bit8) :: b < 10
  {
    AddrNarrow(d, fetchdat, addr32);
    SrcNarrow(d, fetchdat, bit8, addr32);
    DstNarrow(d, fetchdat, bit8);
  }

  // -------- which registers the masks name --------

  /** The registers of the 32-bit address, other than SIB forms with base field 5. */
  predicate Addresses(d: Deps, f: Word32, b: nat) {
    && d.modrm && f / 64 % 4 != 3
    && if f % 8 == 4 then
         f / 0x100 % 8 != 5 && (b == f / 0x100 % 8 || (b == f / 0x800 % 8 && b != 4))
       else b == f % 8 && !(f / 64 % 4 == 0 && b == 5)
  }

  lemma AddrNames(d: Deps, f: Word32, b: nat)
    ensures b in AddrRegmask(d, f, true) <==> Addresses(d, f, b) || (d.implEsp && b == 8)
  {
  }

  /** With 16-bit addressing the numbers of the registers, 3, 5, 6 and 7, are combined as
      if they were masks. */
  lemma Addr16Names(d: Deps, f: Word32, b: nat)
    ensures b in AddrRegmask(d, f, false)
       <==> (d.implEsp && b == 8)
            || (d.modrm && f / 64 % 4 != 3 && !(f / 64 % 4 == 0 && f % 8 == 6)
                && b in (match f % 8
                         case 4 => {1, 2} case 6 => {0, 2} case 7 => {0, 1} case _ => {0, 1, 2}))
  {
  }

  /** A register field of ModR/M; byte registers come in two groups of four. */
  function Field(n: nat, bit8: bool): nat {
    if bit8 then n % 4 else n
  }

  /** The registers, with 9 for the MMX unit, that the operands of an instruction read. */
  predicate ReadsOperand(d: Deps, f: Word32, bit8: bool, b: nat) {
    || (d.srcReg && b == Field(f / 8 % 8, bit8))
    || (d.srcRm && b == Field(f % 8, bit8))
    || b in d.src
    || ((d.shiftPack || d.multiply) && b == 9)
  }

  /** The registers that an instruction writes, 8 standing for implicit use of ESP. */
  predicate Writes(d: Deps, f: Word32, bit8: bool, b: nat) {
    || (d.dstReg && b == Field(f / 8 % 8, bit8))
    || (d.dstRm && b == Field(f % 8, bit8))
    || b in d.dst
    || ((d.shiftPack || d.multiply) && b == 9)
    || (d.implEsp && (b == 4 || b == 8))
  }

  lemma SrcNames(d: Deps, f: Word32, bit8: bool, addr32: bool, b: nat)
    ensures b in SrcMask(d, f, bit8, addr32) <==> ReadsOperand(d, f, bit8, b) || b in AddrRegmask(d, f, addr32)
  {
  }

  lemma DstNames(d: Deps, f: Word32, bit8: bool, b: nat)
    ensures b in DstMask(d, f, bit8) <==> Writes(d, f, bit8, b)
  {
  }
}

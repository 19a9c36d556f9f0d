/** The 32-bit effective address, and how exactly the address mask of the timing
    models names the registers it reads. */
module EffectiveAddress {
  import opened Words
  import opened CpuModel
  import opened TimingMasks

  function SignExtend8(b: Byte): Word32 {
    if b < 0x80 then b else Wrap32(b - 0x100)
  }

  function Pow2(n: nat): nat {
    if n == 0 then 1 else if n == 1 then 2 else if n == 2 then 4 else 8
  }

  /** The address that decoding rmdat gives, where disp8 and disp32 are the
      displacement bytes that decoding fetches. */
  function EffAddr(regs: RegFile, rmdat: Word32, disp8: Byte, disp32: Word32): Word32
    requires Mod(rmdat) != 3
  {
    if Rm(rmdat) == 4 then
      var base := if Mod(rmdat) == 0 then (if SibBase(rmdat) == 5 then disp32 else regs[SibBase(rmdat)])
                  else if Mod(rmdat) == 1 then Wrap32(SignExtend8(disp8) + regs[SibBase(rmdat)])
                  else Wrap32(disp32 + regs[SibBase(rmdat)]);
      if SibIndex(rmdat) != 4 then Wrap32(base + Wrap32(regs[SibIndex(rmdat)] * Pow2(SibScale(rmdat)))) else base
    else if Mod(rmdat) == 0 then (if Rm(rmdat) == 5 then disp32 else regs[Rm(rmdat)])
    else if Mod(rmdat) == 1 then Wrap32(regs[Rm(rmdat)] + SignExtend8(rmdat / 0x100 % 0x100))
    else Wrap32(regs[Rm(rmdat)] + disp32)
  }

  predicate Moves(rmdat: Word32, r: nat, regs: RegFile, v: Word32, disp8: Byte, disp32: Word32)
    requires Mod(rmdat) != 3 && r < 8
  {
    EffAddr(regs, rmdat, disp8, disp32) != EffAddr(regs[r := v], rmdat, disp8, disp32)
  }

  /** Some displacement and register contents make the address change with r alone. */
  ghost predicate Reads(rmdat: Word32, r: nat)
    requires Mod(rmdat) != 3 && r < 8
  {
    exists regs: RegFile, v: Word32, disp8: Byte, disp32: Word32 ::
      Moves(rmdat, r, regs, v, disp8, disp32)
  }

  predicate HasSib(rmdat: Word32) {
    Rm(rmdat) == 4
  }

  /** The registers that the formula adds up. */
  function Operands(rmdat: Word32): Mask
    requires Mod(rmdat) != 3
  {
    if HasSib(rmdat) then
      (if Mod(rmdat) == 0 && SibBase(rmdat) == 5 then {} else {SibBase(rmdat)})
      + (if SibIndex(rmdat) != 4 then {SibIndex(rmdat)} else {})
    else if Mod(rmdat) == 0 && Rm(rmdat) == 5 then {}
    else {Rm(rmdat)}
  }

  lemma OnlyOperandsMatter(regs: RegFile, other: RegFile, rmdat: Word32, disp8: Byte, disp32: Word32)
    requires Mod(rmdat) != 3
    requires forall r | r in Operands(rmdat) :: r < 8 && regs[r] == other[r]
    ensures EffAddr(regs, rmdat, disp8, disp32) == EffAddr(other, rmdat, disp8, disp32)
  {
  }

  const ZERO: RegFile := seq(8, _ => 0)

  lemma SibOperandMoves(rmdat: Word32, r: nat)
    requires Mod(rmdat) != 3 && r in Operands(rmdat) && HasSib(rmdat)
    ensures r < 8 && Moves(rmdat, r, ZERO, 1, 0, 0)
  {
    assert EffAddr(ZERO, rmdat, 0, 0) == 0;
  }

  lemma PlainOperandMoves(rmdat: Word32, r: nat)
    requires Mod(rmdat) != 3 && r in Operands(rmdat) && !HasSib(rmdat)
    ensures r < 8 && Moves(rmdat, r, ZERO, 1, 0, 0)
  {
  }

  lemma OperandsRead(rmdat: Word32, r: nat)
    requires Mod(rmdat) != 3 && r in Operands(rmdat)
    ensures r < 8 && Reads(rmdat, r)
  {
    if HasSib(rmdat) {
      SibOperandMoves(rmdat, r);
    } else {
      PlainOperandMoves(rmdat, r);
    }
  }

  lemma ReadsAreOperands(rmdat: Word32, r: nat)
    requires Mod(rmdat) != 3 && r < 8
    ensures Reads(rmdat, r) <==> r in Operands(rmdat)
  {
    if r in Operands(rmdat) {
      OperandsRead(rmdat, r);
    } else {
      forall regs: RegFile, v: Word32, disp8: Byte, disp32: Word32
        ensures !Moves(rmdat, r, regs, v, disp8, disp32)
      {
        OnlyOperandsMatter(regs, regs[r := v], rmdat, disp8, disp32);
      }
    }
  }

  ghost predicate MaskExact(d: Deps, rmdat: Word32)
    requires Mod(rmdat) != 3
  {
    forall r: nat | r < 8 :: Reads(rmdat, r) <==> r in AddrRegmask(d, rmdat, true)
  }

  /** With 32-bit addressing the mask names exactly the registers that the address
      reads, unless the SIB base field is 5 and the address reads any register. */
  lemma AddressMaskExactly(d: Deps, rmdat: Word32)
    requires d.modrm && Mod(rmdat) != 3
    ensures MaskExact(d, rmdat)
       <==> !(HasSib(rmdat) && SibBase(rmdat) == 5 && (Mod(rmdat) != 0 || SibIndex(rmdat) != 4))
  {
    forall r: nat | r < 8
      ensures Reads(rmdat, r) <==> r in Operands(rmdat)
    {
      ReadsAreOperands(rmdat, r);
    }
    if HasSib(rmdat) && SibBase(rmdat) == 5 {
      if Mod(rmdat) != 0 {
        assert Reads(rmdat, 5) && 5 !in AddrRegmask(d, rmdat, true);
      } else if SibIndex(rmdat) != 4 {
        assert Reads(rmdat, SibIndex(rmdat)) && SibIndex(rmdat) !in AddrRegmask(d, rmdat, true);
      }
    }
  }

  /** So where the mask is exact, registers outside it do not move the address. */
  lemma OutsideMaskIrrelevant(d: Deps, regs: RegFile, other: RegFile, rmdat: Word32, disp8: Byte, disp32: Word32)
    requires d.modrm && Mod(rmdat) != 3 && (!HasSib(rmdat) || SibBase(rmdat) != 5)
    requires forall r: nat | r < 8 && r in AddrRegmask(d, rmdat, true) :: regs[r] == other[r]
    ensures EffAddr(regs, rmdat, disp8, disp32) == EffAddr(other, rmdat, disp8, disp32)
  {
    OnlyOperandsMatter(regs, other, rmdat, disp8, disp32);
  }

  // -------- 16-bit addressing --------

  /** The registers that a 16-bit addressing form with a base or index adds up. */
  function Operands16(rmdat: Word32): Mask
    requires Mod(rmdat) != 3
  {
    if Mod(rmdat) == 0 && Rm(rmdat) == 6 then {}
    else match Rm(rmdat)
      case 0 => {BX, SI} case 1 => {BX, DI} case 2 => {BP, SI} case 3 => {BP, DI}
      case 4 => {SI} case 5 => {DI} case 6 => {BP} case _ => {BX}
  }

  const BX: nat := 3
  const BP: nat := 5
  const SI: nat := 6
  const DI: nat := 7

  /** The sum of the base and index registers, taken as 16-bit registers. */
  function Sum16(regs: RegFile, rm: nat): int
    requires rm < 8
  {
    match rm
    case 0 => Wrap16(regs[BX]) as int + Wrap16(regs[SI])
    case 1 => Wrap16(regs[BX]) as int + Wrap16(regs[DI])
    case 2 => Wrap16(regs[BP]) as int + Wrap16(regs[SI])
    case 3 => Wrap16(regs[BP]) as int + Wrap16(regs[DI])
    case 4 => Wrap16(regs[SI])
    case 5 => Wrap16(regs[DI])
    case 6 => Wrap16(regs[BP])
    case _ => Wrap16(regs[BX])
  }

  /** The address that decoding rmdat gives, where disp16 is the displacement word that
      decoding fetches. */
  function EffAddr16(regs: RegFile, rmdat: Word32, disp16: Word16): Word32
    requires Mod(rmdat) != 3
  {
    if Mod(rmdat) == 0 && Rm(rmdat) == 6 then disp16
    else
      var disp: int := if Mod(rmdat) == 0 then 0
                       else if Mod(rmdat) == 1 then SignExtend8(rmdat / 0x100 % 0x100) % 0x1_0000
                       else disp16;
      Wrap16(disp + Sum16(regs, Rm(rmdat)))
  }

  predicate Moves16(rmdat: Word32, r: nat, regs: RegFile, v: Word32, disp16: Word16)
    requires Mod(rmdat) != 3 && r < 8
  {
    EffAddr16(regs, rmdat, disp16) != EffAddr16(regs[r := v], rmdat, disp16)
  }

  /** Some displacement and register contents make the address change with r alone. */
  ghost predicate Reads16(rmdat: Word32, r: nat)
    requires Mod(rmdat) != 3 && r < 8
  {
    exists regs: RegFile, v: Word32, disp16: Word16 :: Moves16(rmdat, r, regs, v, disp16)
  }

  lemma StepMoves16(d: int)
    ensures Wrap16(d) != Wrap16(d + 1)
  {
  }

  lemma Sum16Step(rm: nat, r: nat)
    requires rm < 8 && r < 8
    ensures Sum16(ZERO, rm) == 0
    ensures r in Operands16(rm + 64) ==> Sum16(ZERO[r := 1], rm) == 1
  {
  }

  lemma Operand16Moves(rmdat: Word32, r: nat)
    requires Mod(rmdat) != 3 && r in Operands16(rmdat)
    ensures r < 8 && Moves16(rmdat, r, ZERO, 1, 0)
  {
    var disp := if Mod(rmdat) == 0 then 0
                else if Mod(rmdat) == 1 then SignExtend8(rmdat / 0x100 % 0x100) % 0x1_0000
                else 0;
    assert Rm(Rm(rmdat) + 64) == Rm(rmdat) && Mod(Rm(rmdat) + 64) == 1;
    Sum16Step(Rm(rmdat), r);
    StepMoves16(disp);
  }

  lemma OnlyOperands16Matter(regs: RegFile, other: RegFile, rmdat: Word32, disp16: Word16)
    requires Mod(rmdat) != 3
    requires forall r | r in Operands16(rmdat) :: r < 8 && regs[r] == other[r]
    ensures EffAddr16(regs, rmdat, disp16) == EffAddr16(other, rmdat, disp16)
  {
  }

  lemma Reads16AreOperands(rmdat: Word32, r: nat)
    requires Mod(rmdat) != 3 && r < 8
    ensures Reads16(rmdat, r) <==> r in Operands16(rmdat)
  {
    if r in Operands16(rmdat) {
      Operand16Moves(rmdat, r);
    } else {
      forall regs: RegFile, v: Word32, disp16: Word16
        ensures !Moves16(rmdat, r, regs, v, disp16)
      {
        OnlyOperands16Matter(regs, regs[r := v], rmdat, disp16);
      }
    }
  }

  ghost predicate MaskExact16(d: Deps, rmdat: Word32)
    requires Mod(rmdat) != 3
  {
    forall r: nat | r < 8 :: Reads16(rmdat, r) <==> r in AddrRegmask(d, rmdat, false)
  }

  /** Register numbers stand where register bits belong: every form but the plain
      displacement reads a register that its mask does not name. */
  lemma Mask16Misses(d: Deps, rmdat: Word32)
    requires d.modrm && Mod(rmdat) != 3 && !(Mod(rmdat) == 0 && Rm(rmdat) == 6)
    ensures forall r: nat | r < 8 && Reads16(rmdat, r) :: r !in AddrRegmask(d, rmdat, false)
    ensures exists r: nat | r < 8 :: Reads16(rmdat, r)
  {
    forall r: nat | r < 8
      ensures Reads16(rmdat, r) <==> r in Operands16(rmdat)
      ensures r in Operands16(rmdat) ==> r !in AddrRegmask(d, rmdat, false)
    {
      Reads16AreOperands(rmdat, r);
    }
    var rm := Rm(rmdat);
    var r := if rm == 0 || rm == 1 || rm == 7 then BX else if rm == 4 then SI else if rm == 5 then DI else BP;
    assert r in Operands16(rmdat);
    assert Reads16(rmdat, r);
  }

  /** With 16-bit addressing the mask is exact only for the form without registers. */
  lemma Address16MaskExactly(d: Deps, rmdat: Word32)
    requires d.modrm && Mod(rmdat) != 3
    ensures MaskExact16(d, rmdat) <==> Mod(rmdat) == 0 && Rm(rmdat) == 6
  {
    if Mod(rmdat) == 0 && Rm(rmdat) == 6 {
      forall r: nat | r < 8
        ensures Reads16(rmdat, r) <==> r in AddrRegmask(d, rmdat, false)
      {
        Reads16AreOperands(rmdat, r);
      }
    } else {
      Mask16Misses(d, rmdat);
      var r: nat :| r < 8 && Reads16(rmdat, r);
      assert !(Reads16(rmdat, r) <==> r in AddrRegmask(d, rmdat, false));
    }
  }

  // -------- the addresses as sums --------

  function SignedByte(b: Byte): int {
    if b < 0x80 then b else b - 0x100
  }

  lemma SignedDword(b: Byte, x: int)
    ensures Wrap32(SignExtend8(b) + x) == Wrap32(x + SignedByte(b))
  {
    WrapShift(x + SignedByte(b), if b < 0x80 then 0 else 1);
  }

  lemma SignedWord(b: Byte, x: int)
    ensures Wrap16(SignExtend8(b) % 0x1_0000 + x) == Wrap16(x + SignedByte(b))
  {
    var w: int := SignExtend8(b) % 0x1_0000;
    assert w == SignedByte(b) + if b < 0x80 then 0 else 0x1_0000;
    OneMore(x + SignedByte(b));
  }

  lemma OneMore(x: int)
    ensures Wrap16(x + 0x1_0000) == Wrap16(x)
  {
  }

  /** Without a SIB byte: the register, unless mod is 0 and its number 5, and the displacement. */
  lemma PlainSum(regs: RegFile, f: Word32, disp8: Byte, disp32: Word32)
    requires f / 64 % 4 != 3 && f % 8 != 4
    ensures EffAddr(regs, f, disp8, disp32) == (
              if f / 64 % 4 == 0 then (if f % 8 == 5 then disp32 else regs[f % 8])
              else (regs[f % 8] + if f / 64 % 4 == 1 then SignedByte(f / 0x100 % 0x100) else disp32) % TWO32)
  {
    SignedDword(f / 0x100 % 0x100, regs[f % 8]);
  }

  /** With one: base, displacement, and the index times 1, 2, 4 or 8 unless it is number 4. */
  function SibBaseSum(regs: RegFile, f: Word32, disp8: Byte, disp32: Word32): int {
    (if f / 64 % 4 == 0 && f / 0x100 % 8 == 5 then 0 else regs[f / 0x100 % 8])
    + if f / 64 % 4 == 1 then SignedByte(disp8)
      else if f / 64 % 4 == 2 || f / 0x100 % 8 == 5 then disp32
      else 0
  }

  function SibIndexTerm(regs: RegFile, f: Word32): int {
    if f / 0x800 % 8 == 4 then 0
    else
      var index: int := regs[f / 0x800 % 8];
      index * [1, 2, 4, 8][f / 0x4000 % 4]
  }

  /** The address before the index is added. */
  function SibBaseAddr(regs: RegFile, f: Word32, disp8: Byte, disp32: Word32): Word32 {
    if f / 64 % 4 == 0 then (if f / 0x100 % 8 == 5 then disp32 else regs[f / 0x100 % 8])
    else if f / 64 % 4 == 1 then Wrap32(SignExtend8(disp8) + regs[f / 0x100 % 8])
    else Wrap32(disp32 + regs[f / 0x100 % 8])
  }

  lemma SibBaseIs(regs: RegFile, f: Word32, disp8: Byte, disp32: Word32)
    requires f / 64 % 4 != 3
    ensures SibBaseAddr(regs, f, disp8, disp32) == Wrap32(SibBaseSum(regs, f, disp8, disp32))
  {
    if f / 64 % 4 == 1 {
      SignedDword(disp8, regs[f / 0x100 % 8]);
    }
  }

  lemma SibSplit(regs: RegFile, f: Word32, disp8: Byte, disp32: Word32)
    requires f / 64 % 4 != 3 && f % 8 == 4
    ensures var base := SibBaseAddr(regs, f, disp8, disp32);
            EffAddr(regs, f, disp8, disp32)
            == if f / 0x800 % 8 == 4 then base else Wrap32(base + Wrap32(SibIndexTerm(regs, f)))
  {
    assert Pow2(f / 0x4000 % 4) == [1, 2, 4, 8][f / 0x4000 % 4];
  }

  lemma SibSum(regs: RegFile, f: Word32, disp8: Byte, disp32: Word32)
    requires f / 64 % 4 != 3 && f % 8 == 4
    ensures EffAddr(regs, f, disp8, disp32) == Wrap32(SibBaseSum(regs, f, disp8, disp32) + SibIndexTerm(regs, f))
  {
    SibSplit(regs, f, disp8, disp32);
    SibBaseIs(regs, f, disp8, disp32);
    WrapSum(SibBaseSum(regs, f, disp8, disp32), SibIndexTerm(regs, f));
  }

  /** 16-bit: the sum of the one or two registers of the form and the displacement, of
      which only the low word counts. */
  lemma Sum16Is(regs: RegFile, f: Word32, disp16: Word16)
    requires f / 64 % 4 != 3
    ensures EffAddr16(regs, f, disp16) == (
              if f / 64 % 4 == 0 && f % 8 == 6 then disp16
              else (Terms16(regs, f % 8)
                    + if f / 64 % 4 == 0 then 0
                      else if f / 64 % 4 == 1 then SignedByte(f / 0x100 % 0x100)
                      else disp16) % 0x1_0000)
  {
    SignedWord(f / 0x100 % 0x100, Terms16(regs, f % 8));
  }

  /** BX or BP with SI or DI, or one of the four alone. */
  function Terms16(regs: RegFile, rm: nat): int
    requires rm < 8
  {
    (if rm == 0 || rm == 1 || rm == 7 then regs[3] % 0x1_0000
     else if rm == 2 || rm == 3 || rm == 6 then regs[5] % 0x1_0000
     else 0)
    + (if rm == 0 || rm == 2 || rm == 4 then regs[6] % 0x1_0000
       else if rm == 1 || rm == 3 || rm == 5 then regs[7] % 0x1_0000
       else 0)
  }
}

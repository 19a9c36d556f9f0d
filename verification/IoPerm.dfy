/** The I/O permission check of IN and OUT: checkio, and the macro that calls it.
    A C mask is the set of the numbers of its one bits. */
module IoPerm {
  import opened Words

  function Weight(k: nat): nat
    requires k < 8
    ensures Weight(k) > 0
  {
    if k == 0 then 1 else 2 * Weight(k - 1)
  }

  function ByteBits(b: Byte): set<nat> {
    set j: nat | j < 8 && Bit(b, Weight(j))
  }

  /** Bits 8 to 15 come from the second byte. */
  function WordBits(lo: Byte, hi: Byte): set<nat> {
    ByteBits(lo) + set j: nat | j in ByteBits(hi) :: j + 8
  }

  /** The bits of (1 << size) - 1 shifted left by n. */
  function Run(size: nat, n: nat): set<nat> {
    if size == 0 then {} else Run(size - 1, n) + {n + size - 1}
  }

  lemma {:induction false} RunHas(size: nat, n: nat, j: nat)
    ensures j in Run(size, n) <==> n <= j < n + size
  {
    if size > 0 {
      RunHas(size - 1, n, j);
    }
  }

  /** The task register: bit 3 of the access byte, base and limit. */
  datatype Tss = Tss(is386: bool, base: Addr, limit: Word32)

  function MapOffset(m: Memory, tss: Tss): Word16 {
    Join16(m(Wrap32(tss.base + 0x66)), m(Wrap32(tss.base + 0x67)))
  }

  function MapByte(m: Memory, tss: Tss, port: nat): nat {
    MapOffset(m, tss) + port / 8
  }

  /** Section 8.3.2 of the 80386 Programmer's Reference Manual: a port may be used when
      its bit in the bitmap is clear, and a byte beyond the segment counts as set. */
  predicate Granted(m: Memory, tss: Tss, port: nat) {
    var t := MapByte(m, tss, port);
    t <= tss.limit && port % 8 !in ByteBits(m(Wrap32(tss.base + t)))
  }

  predicate GrantedAt(m: Memory, tss: Tss, port: nat, i: nat) {
    Granted(m, tss, port + i)
  }

  ghost predicate AllGranted(m: Memory, tss: Tss, port: nat, size: nat) {
    forall i: nat | i < size :: GrantedAt(m, tss, port, i)
  }

  lemma PortByte(port: nat, i: nat)
    requires i < 8
    ensures var j := port % 8 + i;
            (port + i) / 8 == port / 8 + j / 8 && (port + i) % 8 == j % 8
  {
  }

  /** One port of a group, read off the first byte or the second. */
  lemma GrantFromByte(m: Memory, tss: Tss, port: nat, i: nat)
    requires i < 8
    ensures var t, j := MapByte(m, tss, port), port % 8 + i;
            GrantedAt(m, tss, port, i)
            <==> if j < 8 then t <= tss.limit && j !in ByteBits(m(Wrap32(tss.base + t)))
                 else t < tss.limit && j - 8 !in ByteBits(m(Wrap32(tss.base + t + 1)))
  {
    PortByte(port, i);
  }

  lemma WordBitsHas(lo: Byte, hi: Byte, j: nat)
    ensures j in WordBits(lo, hi) <==> if j < 8 then j in ByteBits(lo) else j - 8 in ByteBits(hi)
  {
    if j >= 8 && j - 8 in ByteBits(hi) {
      assert (j - 8) + 8 in WordBits(lo, hi);
    }
  }

  lemma GrantFromWord(m: Memory, tss: Tss, port: nat, i: nat)
    requires i < 8
    ensures var t := MapByte(m, tss, port);
            t < tss.limit ==>
              (GrantedAt(m, tss, port, i)
               <==> port % 8 + i !in WordBits(m(Wrap32(tss.base + t)), m(Wrap32(tss.base + t + 1))))
  {
    var t := MapByte(m, tss, port);
    GrantFromByte(m, tss, port, i);
    WordBitsHas(m(Wrap32(tss.base + t)), m(Wrap32(tss.base + t + 1)), port % 8 + i);
  }

  /** The ports lie in one byte. */
  lemma OneByte(m: Memory, tss: Tss, port: nat, size: nat)
    requires 0 < size && port % 8 + size <= 8
    ensures var t := MapByte(m, tss, port);
            AllGranted(m, tss, port, size)
            <==> t <= tss.limit && Run(size, port % 8) * ByteBits(m(Wrap32(tss.base + t))) == {}
  {
    var t, n := MapByte(m, tss, port), port % 8;
    var bits := ByteBits(m(Wrap32(tss.base + t)));
    forall i: nat | i < size
      ensures GrantedAt(m, tss, port, i) <==> t <= tss.limit && n + i !in bits
    {
      GrantFromByte(m, tss, port, i);
    }
    assert GrantedAt(m, tss, port, 0) ==> t <= tss.limit;
    RunClear(m, tss, port, size, bits, t <= tss.limit);
  }

  /** The ports run on into the next byte. */
  lemma TwoBytes(m: Memory, tss: Tss, port: nat, size: nat)
    requires size <= 8 < port % 8 + size
    ensures var t := MapByte(m, tss, port);
            AllGranted(m, tss, port, size)
            <==> t < tss.limit
                 && Run(size, port % 8) * WordBits(m(Wrap32(tss.base + t)), m(Wrap32(tss.base + t + 1))) == {}
  {
    var t, n := MapByte(m, tss, port), port % 8;
    var bits := WordBits(m(Wrap32(tss.base + t)), m(Wrap32(tss.base + t + 1)));
    forall i: nat | i < size
      ensures t < tss.limit ==> (GrantedAt(m, tss, port, i) <==> n + i !in bits)
    {
      GrantFromWord(m, tss, port, i);
    }
    GrantFromByte(m, tss, port, size - 1);
    assert GrantedAt(m, tss, port, size - 1) ==> t < tss.limit;
    RunClear(m, tss, port, size, bits, t < tss.limit);
  }

  /** From each port to the mask of all of them. */
  lemma RunClear(m: Memory, tss: Tss, port: nat, size: nat, bits: set<nat>, within: bool)
    requires exists i: nat | i < size :: GrantedAt(m, tss, port, i) ==> within
    requires within ==> forall i: nat | i < size :: GrantedAt(m, tss, port, i) <==> port % 8 + i !in bits
    ensures AllGranted(m, tss, port, size) <==> within && Run(size, port % 8) * bits == {}
  {
    var n := port % 8;
    if within {
      if AllGranted(m, tss, port, size) {
        forall j: nat | j in Run(size, n) ensures j !in bits {
          RunHas(size, n, j);
          assert GrantedAt(m, tss, port, j - n);
        }
      } else {
        var i: nat :| i < size && !GrantedAt(m, tss, port, i);
        RunHas(size, n, n + i);
        assert n + i in Run(size, n) * bits;
      }
    }
  }

  datatype Verdict = Proceed | Aborted | Gpf | GpfExpected

  class Guard {
    const mem: Memory
    const mapped: Addr -> bool
    const tss: Tss
    const pe: bool
    const vm: bool
    const cpl: nat
    const iopl: nat
    var cplOverride: bool
    var abrt: bool

    constructor (mem: Memory, mapped: Addr -> bool, tss: Tss, pe: bool, vm: bool, cpl: nat, iopl: nat)
      ensures this.mem == mem && this.mapped == mapped && this.tss == tss
      ensures this.pe == pe && this.vm == vm && this.cpl == cpl && this.iopl == iopl
      ensures !cplOverride && !abrt
    {
      this.mem, this.mapped, this.tss := mem, mapped, tss;
      this.pe, this.vm, this.cpl, this.iopl := pe, vm, cpl, iopl;
      cplOverride, abrt := false, false;
    }

    /** A word read; a byte that cannot be reached reads as ones. */
    method ReadW(p: Addr) returns (lo: Byte, hi: Byte)
      requires !abrt
      modifies this`abrt
      ensures abrt == !(mapped(p) && mapped(Wrap32(p + 1)))
      ensures !abrt ==> lo == mem(p) && hi == mem(Wrap32(p + 1))
    {
      lo, hi := 0xff, 0xff;
      if !mapped(p) {
        abrt := true;
        return;
      }
      lo := mem(p);
      if mapped(Wrap32(p + 1)) {
        hi := mem(Wrap32(p + 1));
      } else {
        abrt := true;
      }
    }

    method ReadB(p: Addr) returns (b: Byte)
      requires !abrt
      modifies this`abrt
      ensures abrt == !mapped(p)
      ensures !abrt ==> b == mem(p)
    {
      b := 0xff;
      if mapped(p) {
        b := mem(p);
      } else {
        abrt := true;
      }
    }

    method ReadWordBits(t: nat) returns (bits: set<nat>)
      requires !abrt
      modifies this`abrt
      ensures !abrt ==> bits == WordBits(mem(Wrap32(tss.base + t)), mem(Wrap32(tss.base + t + 1)))
    {
      WrapStep(tss.base + t, 1);
      var lo, hi := ReadW(Wrap32(tss.base + t));
      bits := WordBits(lo, hi);
    }

    /** The bits of the ports that the bitmap at t leaves set; a group that ends beyond
        the limit keeps them all. */
    method MaskBitmap(port: Word32, size: nat, t: nat) returns (mask: set<nat>)
      requires !abrt && 0 < size <= 8 && t == MapByte(mem, tss, port)
      modifies this`abrt
      ensures !abrt ==> (mask == {} <==> AllGranted(mem, tss, port, size))
    {
      mask := Run(size, port % 8);
      RunHas(size, port % 8, port % 8);
      if port % 8 + size > 8 {
        TwoBytes(mem, tss, port, size);
        if t < tss.limit {
          var bits := ReadWordBits(t);
          mask := mask * bits;
        }
      } else {
        OneByte(mem, tss, port, size);
        if t <= tss.limit {
          var b := ReadB(Wrap32(tss.base + t));
          mask := mask * ByteBits(b);
        }
      }
    }

    /** checkio for the mask (1 << size) - 1. */
    method CheckIo(port: Word32, size: nat) returns (mask: set<nat>)
      requires !abrt && 0 < size <= 8
      modifies this`abrt, this`cplOverride
      ensures tss.is386 ==> !cplOverride
      ensures !tss.is386 ==> !abrt && (mask == {} <==> cpl <= iopl)
      ensures tss.is386 && !abrt ==> (mask == {} <==> AllGranted(mem, tss, port, size))
    {
      if !tss.is386 {
        return if cpl > iopl then {0} else {};
      }
      cplOverride := true;
      WrapStep(tss.base + 0x66, 1);
      var lo, hi := ReadW(Wrap32(tss.base + 0x66));
      if abrt {
        cplOverride := false;
        return {};
      }
      mask := MaskBitmap(port, size, Join16(lo, hi) + port / 8);
      cplOverride := false;
    }

    /** check_io_perm, before a port is touched. */
    method CheckIoPerm(port: Word32, size: nat) returns (v: Verdict)
      requires !abrt && 0 < size <= 8
      modifies this`abrt, this`cplOverride
      ensures v.Aborted? <==> abrt
      ensures !abrt && tss.is386 ==>
        (v.Proceed? <==> !pe || (cpl <= iopl && !vm) || AllGranted(mem, tss, port, size))
      ensures !abrt && !tss.is386 ==> (v.Proceed? <==> !pe || cpl <= iopl)
      ensures v.GpfExpected? ==> vm
      ensures v.Gpf? ==> !vm
    {
      if pe && (cpl > iopl || vm) {
        var mask := CheckIo(port, size);
        if abrt {
          return Aborted;
        }
        if mask != {} {
          return if vm then GpfExpected else Gpf;
        }
      }
      return Proceed;
    }
  }

  lemma WeightIs(k: nat)
    requires k < 8
    ensures Weight(k) == [1, 2, 4, 8, 16, 32, 64, 128][k]
  {
    assert Weight(0) == 1 && Weight(1) == 2 && Weight(2) == 4 && Weight(3) == 8;
    assert Weight(4) == 16 && Weight(5) == 32 && Weight(6) == 64 && Weight(7) == 128;
  }

  /** The bitmap starts at the offset in the word at 0x66 of the TSS; port p is bit p % 8,
      counted from the least significant, of byte p / 8. */
  lemma GrantedExactly(m: Memory, tss: Tss, port: nat)
    ensures var start := m((tss.base + 0x66) % TWO32) + 0x100 * m((tss.base + 0x67) % TWO32);
            var t := start + port / 8;
            Granted(m, tss, port)
            <==> t <= tss.limit && m((tss.base + t) % TWO32) / [1, 2, 4, 8, 16, 32, 64, 128][port % 8] % 2 == 0
  {
    WeightIs(port % 8);
    var t := MapByte(m, tss, port);
    var b := m(Wrap32(tss.base + t));
    assert port % 8 in ByteBits(b) <==> Bit(b, Weight(port % 8));
  }
}

/** Interrupt delivery in real mode: x86_int and x86_int_sw. */
module RealModeInt {
  import opened Words
  import opened StackOps

  const T_FLAG: nat := 0x100
  const I_FLAG: nat := 0x200
  const GP: Byte := 13
  const DOUBLE_FAULT: Byte := 8

  function Bytes2(w: Word16): Item {
    [w % 0x100, w / 0x100]
  }

  function Read2(m: Memory, p: int): Word16 {
    Join16(m(Wrap32(p)), m(Wrap32(p + 1)))
  }

  lemma Read2Wrap(m: Memory, p: int, k: nat)
    ensures Read2(m, Wrap32(p) + k) == Read2(m, p + k)
  {
    WrapStep(p, k);
    WrapStep(p, k + 1);
  }

  function Clear(flags: Word16, weight: nat): Word16
    requires weight > 0
  {
    if Bit(flags, weight) then flags - weight else flags
  }

  /** The word at p, low byte first. */
  function WordAt(m: Memory, p: Addr): int {
    m(p) + 0x100 * m((p + 1) % TWO32)
  }

  lemma ReadIsWord(m: Memory, p: int)
    ensures Read2(m, p) == WordAt(m, Wrap32(p))
  {
    WrapStep(p, 1);
  }

  lemma VectorWord(m: Memory, p: int, k: nat)
    ensures Read2(m, Wrap32(p) + k) == WordAt(m, Wrap32(p + k))
  {
    Read2Wrap(m, p, k);
    ReadIsWord(m, p + k);
  }

  lemma ClearI(flags: Word16)
    ensures Clear(flags, 0x200) == 0x400 * (flags / 0x400) + flags % 0x200
  {
    var hi, i, lo := flags / 0x400, flags / 0x200 % 2, flags % 0x200;
    assert flags == 0x400 * hi + 0x200 * i + lo;
  }

  lemma ClearT(flags: Word16)
    ensures Clear(flags, 0x100) == 0x200 * (flags / 0x200) + flags % 0x100
  {
    var hi, t, lo := flags / 0x200, flags / 0x100 % 2, flags % 0x100;
    assert flags == 0x200 * hi + 0x100 * t + lo;
  }

  /** I and T, bits 9 and 8, are off, and no other flag has changed. */
  predicate OnlyItCleared(f: Word16, flags: Word16) {
    f / 0x100 % 4 == 0 && f % 0x100 == flags % 0x100 && f / 0x400 == flags / 0x400
  }

  lemma TwoParts(f: Word16, hi: nat, lo: nat)
    requires f == 0x400 * hi + lo && lo < 0x100
    ensures f / 0x100 % 4 == 0 && f % 0x100 == lo && f / 0x400 == hi
  {
  }

  lemma ClearBoth(flags: Word16)
    ensures OnlyItCleared(Clear(Clear(flags, 0x200), 0x100), flags)
  {
    var f := Clear(flags, 0x200);
    var hi, lo := flags / 0x400, flags % 0x200;
    ClearI(flags);
    ClearT(f);
    assert f == 0x400 * hi + lo && f / 0x200 == 2 * hi && f % 0x100 == lo % 0x100;
    LowerByte(flags);
    TwoParts(Clear(f, 0x100), hi, lo % 0x100);
  }

  lemma LowerByte(flags: Word16)
    ensures flags % 0x200 % 0x100 == flags % 0x100
  {
  }

  // -------- which vector is taken --------

  predicate InTable(num: Byte, limit: Word32) {
    4 * num + 3 <= limit
  }

  /** The vectors x86_int(num) looks for in the table, in order. */
  function Attempts(num: Byte, limit: Word32): seq<Byte> {
    if InTable(num, limit) || limit < 35 then [num] else [num, DOUBLE_FAULT]
  }

  function SwAttempts(num: Byte, limit: Word32): seq<Byte> {
    if InTable(num, limit) then [num] else [num] + Attempts(GP, limit)
  }

  /** The vector delivered, unless the processor is reset. */
  datatype Ending = Delivered(vector: Byte) | Reset

  function LastOf(tried: seq<Byte>, limit: Word32): Ending
    requires tried != []
  {
    var v := tried[|tried| - 1];
    if InTable(v, limit) then Delivered(v) else Reset
  }

  /** An interrupt looks at three vectors at most. All but the last are outside the
      table, and the last is too only when the table does not reach vector 8. */
  lemma EscalationEnds(num: Byte, limit: Word32)
    ensures 1 <= |SwAttempts(num, limit)| <= 3
    ensures forall k :: 0 <= k < |SwAttempts(num, limit)| - 1 ==> !InTable(SwAttempts(num, limit)[k], limit)
    ensures LastOf(SwAttempts(num, limit), limit).Reset? <==> limit < 35 && !InTable(num, limit)
    ensures |SwAttempts(num, limit)| == 3 <==> 35 <= limit < 55 && !InTable(num, limit)
  {
  }

  /** A hardware interrupt or fault delivers its own vector if the table reaches it, or
      else 8, the double fault, if the table reaches that, or else resets. A software
      interrupt tries 13, general protection, between the two. */
  lemma VectorTaken(num: Byte, limit: Word32)
    ensures LastOf(Attempts(num, limit), limit) == (
              if 4 * num + 3 <= limit then Delivered(num) else if 35 <= limit then Delivered(8) else Reset)
    ensures LastOf(SwAttempts(num, limit), limit) == (
              if 4 * num + 3 <= limit then Delivered(num)
              else if 55 <= limit then Delivered(13)
              else if 35 <= limit then Delivered(8)
              else Reset)
  {
  }

  /** How each way of x86_int ends. */
  lemma AttemptCases(num: Byte, limit: Word32)
    ensures InTable(num, limit) ==> Attempts(num, limit) == [num] && LastOf([num], limit) == Delivered(num)
    ensures !InTable(num, limit) && limit < 35 ==> Attempts(num, limit) == [num] && LastOf([num], limit) == Reset
    ensures !InTable(num, limit) && limit >= 35 ==>
              && Attempts(num, limit) == [num] + Attempts(DOUBLE_FAULT, limit)
              && LastOf(Attempts(num, limit), limit) == LastOf(Attempts(DOUBLE_FAULT, limit), limit)
  {
  }

  lemma SwAttemptCases(num: Byte, limit: Word32)
    ensures InTable(num, limit) ==> SwAttempts(num, limit) == [num] && LastOf([num], limit) == Delivered(num)
    ensures !InTable(num, limit) ==>
              && SwAttempts(num, limit) == [num] + Attempts(GP, limit)
              && LastOf(SwAttempts(num, limit), limit) == LastOf(Attempts(GP, limit), limit)
  {
  }

  /** The frame: flags, CS and the low word of the program counter, each pushed. */
  function FrameOf(flags: Word16, cs: Word16, pc: Word32): seq<Item> {
    [Bytes2(flags), Bytes2(cs), Bytes2(Wrap16(pc))]
  }

  /** Three stores and then one move of the pointer are three pushes. */
  lemma FrameIsPushes(s: Stack, f: Item, c: Item, p: Item)
    requires |f| == 2 && |c| == 2 && |p| == 2
    ensures var m := StoreN(StoreN(StoreN(s.mem, Slot(s, 2), f), Slot(s, 4), c), Slot(s, 6), p);
            PushAll(s, [f, c, p]) == At(s, 6, m)
    ensures Total([f, c, p]) == 6 && Reversed([f, c, p]) == [p, c, f]
  {
    assert [f] == [] + [f] && [f, c] == [f] + [c] && [f, c, p] == [f, c] + [p];
    Snoc(s, [], f);
    Snoc(s, [f], c);
    Snoc(s, [f, c], p);
    var m1 := StoreN(s.mem, Slot(s, 2), f);
    var m2 := StoreN(m1, Slot(s, 4), c);
    DownZero(s);
    PushAt(s, 0, s.mem, f);
    PushAt(s, 2, m1, c);
    PushAt(s, 4, m2, p);
  }

  /** The place k bytes above the pointer esp, round the wrap of the stack. */
  function Above(s: Stack, esp: Word32, k: nat): Addr {
    Wrap32(s.base + if s.stack32 then (esp + k) % TWO32 else (esp + k) % 0x1_0000)
  }

  lemma AboveIsSlot(s: Stack, m: Memory, k: nat)
    requires k <= 6
    ensures Above(s, Down(s, 6), k) == Slot(s, 6 - k)
  {
    DownDown(s, 6, 0 - k, m);
    assert Slot(At(s, 6, m), 0 - k) == Slot(s, 6 - k);
  }

  lemma BytesMakeWord(m: Memory, p: Addr, w: Word16)
    requires ReadN(m, p, 2) == Bytes2(w)
    ensures WordAt(m, p) == w
  {
    assert ReadN(m, p, 2)[0] == ByteAt(m, p, 0) && ReadN(m, p, 2)[1] == ByteAt(m, p, 1);
    assert Wrap32(p + 0) == p;
  }

  /** The frame in memory: from the new pointer upwards the low word of the program
      counter, CS and the flags, each low byte first; every other byte is as it was. */
  lemma FrameInMemory(s: Stack, flags: Word16, cs: Word16, pc: Word32)
    ensures var t := PushAll(s, FrameOf(flags, cs, pc));
            && t.base == s.base && t.stack32 == s.stack32 && Lower(t.esp, s.esp, s.stack32, 6)
            && WordAt(t.mem, Above(s, t.esp, 0)) == pc % 0x1_0000
            && WordAt(t.mem, Above(s, t.esp, 2)) == cs
            && WordAt(t.mem, Above(s, t.esp, 4)) == flags
  {
    var f, c, p := Bytes2(flags), Bytes2(cs), Bytes2(Wrap16(pc));
    var vs := FrameOf(flags, cs, pc);
    FrameIsPushes(s, f, c, p);
    PushesHold(s, vs);
    DownIsLower(s, 6);
    var t := PushAll(s, vs);
    FrameWord(s, t.mem, vs, 0);
    FrameWord(s, t.mem, vs, 1);
    FrameWord(s, t.mem, vs, 2);
    BytesMakeWord(t.mem, Slot(s, 2), flags);
    BytesMakeWord(t.mem, Slot(s, 4), cs);
    BytesMakeWord(t.mem, Slot(s, 6), Wrap16(pc));
    AboveIsSlot(s, t.mem, 0);
    AboveIsSlot(s, t.mem, 2);
    AboveIsSlot(s, t.mem, 4);
  }

  lemma FrameWord(s: Stack, m: Memory, vs: seq<Item>, k: nat)
    requires |vs| == 3 && |vs[0]| == 2 && |vs[1]| == 2 && |vs[2]| == 2 && Holds(m, s, vs) && k < 3
    ensures ReadN(m, Slot(s, 2 * k + 2), 2) == vs[k]
  {
    assert HoldsAt(m, s, vs, k);
    FrameTotals(vs, k);
  }

  lemma FrameTotals(vs: seq<Item>, k: nat)
    requires |vs| == 3 && |vs[0]| == 2 && |vs[1]| == 2 && |vs[2]| == 2 && k < 3
    ensures Total(vs[..k + 1]) == 2 * k + 2
  {
    TotalPrefix(vs, k);
    if k > 0 {
      FrameTotals(vs, k - 1);
    } else {
      assert vs[..0] == [];
    }
  }

  lemma StoreNOutside(m: Memory, p: Addr, v: seq<Byte>, a: Addr)
    requires Wrap32(a - p) >= |v|
    ensures StoreN(m, p, v)(a) == m(a)
  {
  }

  lemma ThreeStoresOutside(m: Memory, p: Addr, q: Addr, r: Addr, f: Item, c: Item, i: Item, a: Addr)
    requires Wrap32(a - p) >= |f| && Wrap32(a - q) >= |c| && Wrap32(a - r) >= |i|
    ensures StoreN(StoreN(StoreN(m, p, f), q, c), r, i)(a) == m(a)
  {
    StoreNOutside(m, p, f, a);
    StoreNOutside(StoreN(m, p, f), q, c, a);
    StoreNOutside(StoreN(StoreN(m, p, f), q, c), r, i, a);
  }

  /** Nothing outside the three words is touched. */
  lemma FrameTouchesOnly(s: Stack, flags: Word16, cs: Word16, pc: Word32, a: Addr)
    requires var esp := PushAll(s, FrameOf(flags, cs, pc)).esp;
             && Wrap32(a - Above(s, esp, 0)) >= 2 && Wrap32(a - Above(s, esp, 2)) >= 2
             && Wrap32(a - Above(s, esp, 4)) >= 2
    ensures PushAll(s, FrameOf(flags, cs, pc)).mem(a) == s.mem(a)
  {
    var f, c, p := Bytes2(flags), Bytes2(cs), Bytes2(Wrap16(pc));
    FrameIsPushes(s, f, c, p);
    AboveIsSlot(s, s.mem, 0);
    AboveIsSlot(s, s.mem, 2);
    AboveIsSlot(s, s.mem, 4);
    ThreeStoresOutside(s.mem, Slot(s, 2), Slot(s, 4), Slot(s, 6), f, c, p, a);
  }

  /** What IRET pops after a delivery is what was interrupted. */
  lemma FrameReturns(s: Stack, flags: Word16, cs: Word16, pc: Word32)
    ensures var vs := FrameOf(flags, cs, pc);
            var t := PushAll(s, vs);
            PopAll(t, vs) == PoppedAll(s.(mem := t.mem), [Bytes2(Wrap16(pc)), Bytes2(cs), Bytes2(flags)])
  {
    FrameIsPushes(s, Bytes2(flags), Bytes2(cs), Bytes2(Wrap16(pc)));
    PushesThenPops(s, FrameOf(flags, cs, pc));
  }

  class Processor {
    const ssBase: Addr
    const idtBase: Addr
    const idtLimit: Word32
    const timingInt: int
    const timingIntRm: int
    var stack32: bool
    var pc: Word32
    var oldpc: Word32
    var cs: Word16
    var esp: Word32
    var flags: Word16
    var mem: Memory
    var cycles: int
    var trap: bool
    var softReset: bool
    ghost var tried: seq<Byte>

    constructor (s: Stack, idtBase: Addr, idtLimit: Word32, timingInt: int, timingIntRm: int,
                 pc: Word32, oldpc: Word32, cs: Word16, flags: Word16)
      ensures View() == s && this.idtBase == idtBase && this.idtLimit == idtLimit
      ensures this.timingInt == timingInt && this.timingIntRm == timingIntRm
      ensures this.pc == pc && this.oldpc == oldpc && this.cs == cs && this.flags == flags
      ensures cycles == 0 && !trap && !softReset && tried == []
    {
      ssBase, esp, stack32, mem := s.base, s.esp, s.stack32, s.mem;
      this.idtBase, this.idtLimit, this.timingInt, this.timingIntRm := idtBase, idtLimit, timingInt, timingIntRm;
      this.pc, this.oldpc, this.cs, this.flags := pc, oldpc, cs, flags;
      cycles, trap, softReset, tried := 0, false, false, [];
    }

    function View(): Stack
      reads this
    {
      Stack(ssBase, esp, stack32, mem)
    }

    /** What an interrupt leaves behind: a reset with memory as it was and no frame in it,
        or one frame and the vector, read once the frame is in memory. */
    twostate predicate Ended(e: Ending, pushedPc: Word32)
      reads this
    {
      match e
      case Reset => softReset && mem == old(mem) && esp == 0 && !stack32 && (cs, pc) == (0xf000, 0xfff0) && flags == 2
      case Delivered(v) =>
        && !softReset
        && View() == PushAll(old(View()), FrameOf(old(flags), old(cs), pushedPc))
        && OnlyItCleared(flags, old(flags))
        && pc == WordAt(mem, Wrap32(idtBase + 4 * v))
        && cs == WordAt(mem, Wrap32(idtBase + 4 * v + 2))
    }

    method PushFrame(f: Item, c: Item, p: Item)
      requires |f| == 2 && |c| == 2 && |p| == 2
      modifies this`esp, this`mem
      ensures View() == PushAll(old(View()), [f, c, p])
    {
      FrameIsPushes(View(), f, c, p);
      if stack32 {
        mem := StoreN(mem, Wrap32(ssBase + Wrap32(esp - 2)), f);
        mem := StoreN(mem, Wrap32(ssBase + Wrap32(esp - 4)), c);
        mem := StoreN(mem, Wrap32(ssBase + Wrap32(esp - 6)), p);
        esp := Wrap32(esp - 6);
      } else {
        mem := StoreN(mem, Wrap32(ssBase + Wrap16(esp - 2)), f);
        mem := StoreN(mem, Wrap32(ssBase + Wrap16(esp - 4)), c);
        mem := StoreN(mem, Wrap32(ssBase + Wrap16(esp - 6)), p);
        esp := esp / 0x1_0000 * 0x1_0000 + Wrap16(esp - 6);
      }
    }

    method LoadVector(num: Byte)
      modifies this`pc, this`cs
      ensures pc == WordAt(mem, Wrap32(idtBase + 4 * num)) && cs == WordAt(mem, Wrap32(idtBase + 4 * num + 2))
    {
      var addr: int := Wrap32(4 * num + idtBase);
      VectorWord(mem, 4 * num + idtBase, 0);
      VectorWord(mem, 4 * num + idtBase, 2);
      pc := Read2(mem, addr);
      cs := Read2(mem, addr + 2);
    }

    method ClearFlags()
      modifies this`flags
      ensures OnlyItCleared(flags, old(flags))
    {
      ClearBoth(flags);
      flags := Clear(flags, I_FLAG);
      flags := Clear(flags, T_FLAG);
    }

    /** The part both routines share, for a vector inside the table. */
    method Deliver(num: Byte)
      requires !softReset
      modifies this`pc, this`cs, this`esp, this`flags, this`mem
      ensures Ended(Delivered(num), old(pc))
    {
      PushFrame(Bytes2(flags), Bytes2(cs), Bytes2(Wrap16(pc)));
      ClearFlags();
      LoadVector(num);
    }

    method SoftReset()
      modifies this`softReset, this`esp, this`stack32, this`cs, this`pc, this`flags, this`trap
      ensures softReset && esp == 0 && !stack32 && cs == 0xf000 && pc == 0xfff0 && flags == 2 && !trap
    {
      stack32 := false;
      cs, pc, flags, esp := 0xf000, 0xfff0, 2, 0;
      trap := false;
      softReset := true;
    }

    method X86Int(num: Byte)
      requires !softReset
      modifies this
      decreases !InTable(num, idtLimit)
      ensures tried == old(tried) + Attempts(num, idtLimit)
      ensures Ended(LastOf(Attempts(num, idtLimit), idtLimit), old(oldpc))
      ensures cycles == old(cycles) - 70 * |Attempts(num, idtLimit)|
      ensures oldpc == old(oldpc) && (trap ==> old(trap))
    {
      AttemptCases(num, idtLimit);
      pc := oldpc;
      tried := tried + [num];
      if 4 * num + 3 > idtLimit {
        if idtLimit < 35 {
          SoftReset();
        } else {
          X86Int(DOUBLE_FAULT);
        }
      } else {
        Deliver(num);
      }
      cycles := cycles - 70;
    }

    method X86IntSw(num: Byte)
      requires !softReset
      modifies this
      ensures tried == old(tried) + SwAttempts(num, idtLimit)
      ensures Ended(LastOf(SwAttempts(num, idtLimit), idtLimit),
                if InTable(num, idtLimit) then old(pc) else old(oldpc))
      ensures cycles == old(cycles) - timingInt
                - (if InTable(num, idtLimit) then timingIntRm else 70 * (|SwAttempts(num, idtLimit)| - 1))
      ensures !trap
    {
      SwAttemptCases(num, idtLimit);
      cycles := cycles - timingInt;
      tried := tried + [num];
      if 4 * num + 3 > idtLimit {
        X86Int(GP);
      } else {
        Deliver(num);
        cycles := cycles - timingIntRm;
      }
      trap := false;
    }
  }
}

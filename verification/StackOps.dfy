/** PUSH_W, PUSH_L, POP_W and POP_L with a 16- or 32-bit stack pointer. */
module StackOps {
  import opened Words

  /** A pushed word or dword, as its little-endian bytes. */
  type Item = s: seq<Byte> | |s| == 2 || |s| == 4 witness [0, 0]

  /** Stack segment base, ESP, the stack size, and linear memory. */
  datatype Stack = Stack(base: Word32, esp: Word32, stack32: bool, mem: Memory)

  function Range(s: Stack): nat {
    if s.stack32 then TWO32 else 0x1_0000
  }

  /** ESP after going down by d; with a 16-bit stack only SP moves. */
  function Down(s: Stack, d: int): Word32 {
    if s.stack32 then Wrap32(s.esp - d)
    else s.esp / 0x1_0000 * 0x1_0000 + Wrap16(s.esp - d)
  }

  /** The linear address d below the stack pointer. */
  function Slot(s: Stack, d: int): Addr {
    if s.stack32 then Wrap32(s.base + Wrap32(s.esp - d)) else Wrap32(s.base + Wrap16(s.esp - d))
  }

  function StoreN(m: Memory, p: Addr, v: seq<Byte>): Memory {
    (a: Addr) => var k := Wrap32(a - p); if k < |v| then v[k] else m(a)
  }

  function ByteAt(m: Memory, p: Addr, k: int): Byte {
    m(Wrap32(p + k))
  }

  function ReadN(m: Memory, p: Addr, n: nat): seq<Byte> {
    seq(n, (k: int) requires 0 <= k < n => ByteAt(m, p, k))
  }

  function Push(s: Stack, v: Item): Stack {
    s.(esp := Down(s, |v|), mem := StoreN(s.mem, Slot(s, |v|), v))
  }

  datatype Popped = Popped(stack: Stack, value: seq<Byte>)

  function Pop(s: Stack, n: nat): Popped {
    Popped(s.(esp := Down(s, 0 - n)), ReadN(s.mem, Slot(s, 0), n))
  }

  function PushAll(s: Stack, vs: seq<Item>): Stack {
    if vs == [] then s else Push(PushAll(s, vs[..|vs| - 1]), vs[|vs| - 1])
  }

  datatype PoppedAll = PoppedAll(stack: Stack, values: seq<seq<Byte>>)

  /** Pops that match vs, the last pushed first. */
  function PopAll(s: Stack, vs: seq<Item>): PoppedAll
    decreases |vs|
  {
    if vs == [] then PoppedAll(s, [])
    else
      var top := Pop(s, |vs[|vs| - 1]|);
      var below := PopAll(top.stack, vs[..|vs| - 1]);
      PoppedAll(below.stack, [top.value] + below.values)
  }

  function Total(vs: seq<Item>): nat {
    if vs == [] then 0 else Total(vs[..|vs| - 1]) + |vs[|vs| - 1]|
  }

  function Reversed(vs: seq<Item>): seq<seq<Byte>> {
    if vs == [] then [] else [vs[|vs| - 1]] + Reversed(vs[..|vs| - 1])
  }

  // -------- positions relative to where the sequence starts --------

  function At(s: Stack, d: int, m: Memory): Stack {
    s.(esp := Down(s, d), mem := m)
  }

  lemma DownDown(s: Stack, d: int, e: int, m: Memory)
    ensures Down(At(s, d, m), e) == Down(s, d + e)
    ensures Slot(At(s, d, m), e) == Slot(s, d + e)
  {
    if s.stack32 {
      WrapStep(s.esp - d, -e);
    } else {
      var hi := s.esp / 0x1_0000;
      var lo := Wrap16(s.esp - d);
      assert Down(s, d) == hi * 0x1_0000 + lo;
      assert Down(s, d) / 0x1_0000 == hi;
      Wrap16Step(hi, lo, s.esp - d, -e);
    }
  }

  lemma PushAt(s: Stack, d: nat, m: Memory, v: Item)
    ensures Push(At(s, d, m), v) == At(s, d + |v|, StoreN(m, Slot(s, d + |v|), v))
  {
    DownDown(s, d, |v|, m);
  }

  /** One more value on top. */
  lemma Snoc(s: Stack, vs: seq<Item>, v: Item)
    ensures PushAll(s, vs + [v]) == Push(PushAll(s, vs), v)
    ensures Total(vs + [v]) == Total(vs) + |v|
    ensures Reversed(vs + [v]) == [v] + Reversed(vs)
  {
    assert (vs + [v])[..|vs|] == vs;
  }

  lemma Wrap16Step(hi: int, lo: Word16, x: int, e: int)
    requires lo == Wrap16(x)
    ensures Wrap16(hi * 0x1_0000 + lo + e) == Wrap16(x + e)
  {
    assert x + e == (hi * 0x1_0000 + lo + e) + 0x1_0000 * (x / 0x1_0000 - hi);
    Wrap16Shift(hi * 0x1_0000 + lo + e, x / 0x1_0000 - hi);
  }

  lemma Wrap16Shift(y: int, q: int)
    ensures Wrap16(y + 0x1_0000 * q) == Wrap16(y)
  {
  }

  /** Two pushes of one sequence, d bytes down and then e bytes down, never meet,
      not even where a dword straddles the 64K boundary. */
  lemma SlotsApart(s: Stack, d: nat, n: nat, e: nat, n': nat)
    requires 0 < n <= 4 && 0 < n' <= 4 && d + n <= e && e + n' <= Range(s)
    ensures Disjoint(Slot(s, d + n), n, Slot(s, e + n'), n')
  {
    var x, y := s.esp as int - (d + n), s.esp as int - (e + n');
    assert n' <= x - y <= Range(s) - n;
    if s.stack32 {
      Apart32(s.base, x, n, y, n');
    } else {
      Apart16(s.base, x, n, y, n');
    }
  }

  lemma Apart32(base: Addr, x: int, n: nat, y: int, n': nat)
    requires 0 < n && n' <= x - y <= TWO32 - n
    ensures Disjoint(Wrap32(base + Wrap32(x)), n, Wrap32(base + Wrap32(y)), n')
  {
    WrapStep(x, base);
    WrapStep(y, base);
    WrapDifference(base + x, base + y);
    assert Wrap32(x - y) == x - y;
  }

  lemma Apart16(base: Addr, x: int, n: nat, y: int, n': nat)
    requires n' <= x - y <= 0x1_0000 - n && 0 < n <= 4 && 0 < n' <= 4
    ensures Disjoint(Wrap32(base + Wrap16(x)), n, Wrap32(base + Wrap16(y)), n')
  {
    var a: int, b: int := Wrap16(x), Wrap16(y);
    Wrap16Distance(x, y);
    WrapDifference(base + a, base + b);
    FarApart(a - b, n, n');
  }

  lemma FarApart(d: int, n: nat, n': nat)
    requires n' <= d <= 0x1_0000 - n || n' - 0x1_0000 <= d <= 0 - n
    requires 0 < n <= 4 && 0 < n' <= 4
    ensures n' <= Wrap32(d) <= TWO32 - n
  {
  }

  lemma WrapDifference(x: int, y: int)
    ensures Wrap32(Wrap32(x) - Wrap32(y)) == Wrap32(x - y)
  {
    var b: int := Wrap32(y);
    WrapStep(x, 0 - b);
    var q := y / TWO32;
    assert x - b == x - y + TWO32 * q;
  }

  lemma Wrap16Distance(x: int, y: int)
    requires 0 <= x - y <= 0x1_0000
    ensures var d := Wrap16(x) - Wrap16(y); d == x - y || d == x - y - 0x1_0000
  {
  }

  lemma StoreNThenRead(m: Memory, p: Addr, v: seq<Byte>)
    requires |v| <= 4
    ensures ReadN(StoreN(m, p, v), p, |v|) == v
  {
    forall k | 0 <= k < |v|
      ensures ReadN(StoreN(m, p, v), p, |v|)[k] == v[k]
    {
      OffsetFrom(p, k);
    }
  }

  lemma StoreNElsewhere(m: Memory, p: Addr, n: nat, q: Addr, v: seq<Byte>)
    requires Disjoint(p, n, q, |v|)
    ensures ReadN(StoreN(m, q, v), p, n) == ReadN(m, p, n)
  {
    forall k | 0 <= k < n
      ensures ReadN(StoreN(m, q, v), p, n)[k] == ReadN(m, p, n)[k]
    {
      DisjointByte(p, n, q, |v|, k);
    }
  }

  predicate HoldsAt(m: Memory, s: Stack, vs: seq<Item>, k: nat)
    requires k < |vs|
  {
    ReadN(m, Slot(s, Total(vs[..k + 1])), |vs[k]|) == vs[k]
  }

  /** Memory m holds every item of vs where the sequence pushed it. */
  predicate Holds(m: Memory, s: Stack, vs: seq<Item>) {
    forall k | 0 <= k < |vs| :: HoldsAt(m, s, vs, k)
  }

  lemma {:induction false} TotalPrefix(vs: seq<Item>, k: nat)
    requires k < |vs|
    ensures Total(vs[..k + 1]) == Total(vs[..k]) + |vs[k]|
    ensures Total(vs[..k + 1]) <= Total(vs)
    decreases |vs|
  {
    assert vs[..k + 1][..k] == vs[..k];
    if k + 1 < |vs| {
      var front := vs[..|vs| - 1];
      TotalPrefix(front, k);
      assert front[..k + 1] == vs[..k + 1];
    } else {
      assert vs[..k + 1] == vs;
    }
  }

  /** One more push disturbs no value of n bytes that ends t bytes down. */
  lemma PushKeeps(s: Stack, m: Memory, t: nat, n: nat, e: nat, v: Item)
    requires 0 < n <= 4 && n <= t <= e && e + |v| <= Range(s)
    ensures ReadN(StoreN(m, Slot(s, e + |v|), v), Slot(s, t), n) == ReadN(m, Slot(s, t), n)
  {
    SlotsApart(s, t - n, n, e, |v|);
    StoreNElsewhere(m, Slot(s, t), n, Slot(s, e + |v|), v);
  }

  lemma HoldsAtPlace(m: Memory, s: Stack, vs: seq<Item>, k: nat, p: Addr)
    requires k < |vs| && p == Slot(s, Total(vs[..k + 1])) && ReadN(m, p, |vs[k]|) == vs[k]
    ensures HoldsAt(m, s, vs, k)
  {
  }

  lemma PushHoldsBelow(s: Stack, m: Memory, front: seq<Item>, v: Item, k: nat)
    requires Total(front) + |v| <= Range(s) && k < |front| && HoldsAt(m, s, front, k)
    ensures HoldsAt(StoreN(m, Slot(s, Total(front) + |v|), v), s, front + [v], k)
  {
    var vs := front + [v];
    assert vs[..k + 1] == front[..k + 1] && vs[k] == front[k];
    TotalPrefix(front, k);
    var t := Total(front[..k + 1]);
    PushKeeps(s, m, t, |front[k]|, Total(front), v);
    HoldsAtPlace(StoreN(m, Slot(s, Total(front) + |v|), v), s, vs, k, Slot(s, t));
  }

  lemma TopPlace(s: Stack, front: seq<Item>, v: Item)
    ensures var vs := front + [v]; vs[|front|] == v && Total(vs[..|front| + 1]) == Total(front) + |v|
  {
    var vs := front + [v];
    assert vs[..|front| + 1] == vs;
    Snoc(s, front, v);
  }

  lemma PushHoldsTop(s: Stack, m: Memory, front: seq<Item>, v: Item, p: Addr)
    requires p == Slot(s, Total(front) + |v|)
    ensures HoldsAt(StoreN(m, p, v), s, front + [v], |front|)
  {
    TopPlace(s, front, v);
    StoreNThenRead(m, p, v);
    HoldsAtPlace(StoreN(m, p, v), s, front + [v], |front|, p);
  }

  lemma PushHolds(s: Stack, m: Memory, front: seq<Item>, v: Item)
    requires Total(front) + |v| <= Range(s) && Holds(m, s, front)
    ensures Holds(StoreN(m, Slot(s, Total(front) + |v|), v), s, front + [v])
  {
    var p := Slot(s, Total(front) + |v|);
    var now, vs := StoreN(m, p, v), front + [v];
    PushHoldsTop(s, m, front, v, p);
    forall k | 0 <= k < |front|
      ensures HoldsAt(now, s, vs, k)
    {
      PushHoldsBelow(s, m, front, v, k);
    }
  }

  lemma {:induction false} PushesHold(s: Stack, vs: seq<Item>)
    requires Total(vs) <= Range(s)
    ensures var t := PushAll(s, vs);
            t == At(s, Total(vs), t.mem) && Holds(t.mem, s, vs)
  {
    if vs == [] {
      DownZero(s);
    } else {
      var front, v := vs[..|vs| - 1], vs[|vs| - 1];
      assert vs == front + [v];
      PushesHold(s, front);
      var u := PushAll(s, front);
      PushAt(s, Total(front), u.mem, v);
      PushHolds(s, u.mem, front, v);
    }
  }

  lemma {:induction false} PopsRead(s: Stack, m: Memory, vs: seq<Item>)
    requires Holds(m, s, vs)
    ensures PopAll(At(s, Total(vs), m), vs) == PoppedAll(At(s, 0, m), Reversed(vs))
  {
    if vs != [] {
      var front, v := vs[..|vs| - 1], vs[|vs| - 1];
      assert HoldsAt(m, s, vs, |vs| - 1) && vs[..|vs| - 1 + 1] == vs;
      DownDown(s, Total(vs), 0, m);
      DownDown(s, Total(vs), -|v|, m);
      assert Pop(At(s, Total(vs), m), |v|) == Popped(At(s, Total(front), m), v);
      forall k | 0 <= k < |front|
        ensures HoldsAt(m, s, front, k)
      {
        assert HoldsAt(m, s, vs, k) && front[..k + 1] == vs[..k + 1];
      }
      PopsRead(s, m, front);
    }
  }

  /** Any sequence of pushes of no more than the stack pointer's range, then the
      matching pops: the values come back in reverse and the pointer is restored. */
  lemma PushesThenPops(s: Stack, vs: seq<Item>)
    requires Total(vs) <= Range(s)
    ensures var t := PushAll(s, vs);
            PopAll(t, vs) == PoppedAll(s.(mem := t.mem), Reversed(vs))
  {
    PushesHold(s, vs);
    PopsRead(s, PushAll(s, vs).mem, vs);
    DownZero(s);
  }

  lemma DownZero(s: Stack)
    ensures Down(s, 0) == s.esp
  {
  }

  // -------- one push and one pop, in memory --------

  /** The linear address of the stack top. */
  function Top(s: Stack): Addr {
    Wrap32(s.base + if s.stack32 then s.esp else s.esp % 0x1_0000)
  }

  /** ESP is d lower in t than in s; with a 16-bit stack its upper half stays. */
  predicate Lower(t: Word32, s: Word32, stack32: bool, d: int) {
    if stack32 then t == (s - d) % TWO32 else t / 0x1_0000 == s / 0x1_0000 && t % 0x1_0000 == (s - d) % 0x1_0000
  }

  lemma DownIsLower(s: Stack, d: int)
    ensures Lower(Down(s, d), s.esp, s.stack32, d)
  {
  }

  lemma TopAfter(s: Stack, d: int, m: Memory)
    ensures Top(s.(esp := Down(s, d), mem := m)) == Slot(s, d)
  {
    DownIsLower(s, d);
  }

  /** After a push the value lies, lowest byte first, at the new stack top, every other
      byte is as it was, and the pointer is lower by the size of the value. */
  lemma PushExactly(s: Stack, v: Item)
    ensures var t := Push(s, v);
            && t.base == s.base && t.stack32 == s.stack32 && Lower(t.esp, s.esp, s.stack32, |v|)
            && (forall k | 0 <= k < |v| :: t.mem((Top(t) + k) % TWO32) == v[k])
            && (forall a: Addr | Wrap32(a - Top(t)) >= |v| :: t.mem(a) == s.mem(a))
  {
    var t := Push(s, v);
    DownIsLower(s, |v|);
    TopAfter(s, |v|, t.mem);
    forall k | 0 <= k < |v|
      ensures t.mem((Top(t) + k) % TWO32) == v[k]
    {
      OffsetFrom(Top(t), k);
    }
  }

  /** A pop takes the bytes at the stack top, lowest first, and then moves the pointer up. */
  lemma PopExactly(s: Stack, n: nat)
    ensures var p := Pop(s, n);
            && |p.value| == n && (forall k | 0 <= k < n :: p.value[k] == s.mem((Top(s) + k) % TWO32))
            && p.stack == s.(esp := p.stack.esp) && Lower(p.stack.esp, s.esp, s.stack32, 0 - n)
  {
    DownIsLower(s, 0 - n);
    SlotIsTop(s);
  }

  lemma SlotIsTop(s: Stack)
    ensures Slot(s, 0) == Top(s)
  {
  }

  // -------- the operations, with aborts --------

  class Machine {
    const base: Word32
    const stack32: bool
    const mapped: Addr -> bool
    var esp: Word32
    var mem: Memory
    var abrt: bool

    constructor (s: Stack, mapped: Addr -> bool)
      ensures View() == s && this.mapped == mapped && !abrt
    {
      base, stack32, esp, mem, abrt := s.base, s.stack32, s.esp, s.mem, false;
      this.mapped := mapped;
    }

    ghost function View(): Stack
      reads this
    {
      Stack(base, esp, stack32, mem)
    }

    predicate ByteMapped(p: Addr, k: nat) {
      mapped(Wrap32(p + k))
    }

    ghost predicate AllMapped(p: Addr, n: nat) {
      forall k: nat | k < n :: ByteMapped(p, k)
    }

    /** Sets abrt exactly when a byte of the value is on an unmapped page. */
    method WriteMem(p: Addr, v: seq<Byte>)
      requires !abrt
      modifies this`mem, this`abrt
      ensures abrt == !AllMapped(p, |v|)
      ensures !abrt ==> mem == StoreN(old(mem), p, v)
    {
      for k := 0 to |v|
        invariant !abrt && mem == old(mem) && AllMapped(p, k)
      {
        if !ByteMapped(p, k) {
          abrt := true;
          return;
        }
      }
      mem := StoreN(mem, p, v);
    }

    method ReadMem(p: Addr, n: nat) returns (v: seq<Byte>)
      requires !abrt
      modifies this`abrt
      ensures abrt == !AllMapped(p, n)
      ensures !abrt ==> v == ReadN(mem, p, n)
    {
      for k := 0 to n
        invariant !abrt && AllMapped(p, k)
      {
        if !ByteMapped(p, k) {
          abrt := true;
          return [];
        }
      }
      v := ReadN(mem, p, n);
    }

    /** PUSH_W and PUSH_L. An abort leaves the pointer as it was. */
    method PushValue(v: Item)
      requires !abrt
      modifies this`mem, this`abrt, this`esp
      ensures abrt == !AllMapped(Wrap32(base + if stack32 then Wrap32(old(esp) - |v|) else Wrap16(old(esp) - |v|)), |v|)
      ensures if abrt then esp == old(esp) else View() == Push(old(View()), v)
    {
      if stack32 {
        WriteMem(Wrap32(base + Wrap32(esp - |v|)), v);
        if abrt {
          return;
        }
        esp := Wrap32(esp - |v|);
      } else {
        WriteMem(Wrap32(base + Wrap16(esp - |v|)), v);
        if abrt {
          return;
        }
        esp := esp / 0x1_0000 * 0x1_0000 + Wrap16(esp - |v|);
      }
    }

    method MoveUp(n: nat)
      modifies this`esp
      ensures View() == old(View()).(esp := Down(old(View()), 0 - n))
    {
      if stack32 {
        esp := Wrap32(esp + n);
      } else {
        esp := esp / 0x1_0000 * 0x1_0000 + Wrap16(esp + n);
      }
    }

    /** POP_W and POP_L; an aborted pop returns zero and leaves the pointer. */
    method PopValue(n: nat) returns (v: seq<Byte>)
      requires !abrt && (n == 2 || n == 4)
      modifies this`abrt, this`esp
      ensures abrt == !AllMapped(Wrap32(base + if stack32 then old(esp) else old(esp) % 0x1_0000), n)
      ensures if abrt then esp == old(esp) && v == seq(n, _ => 0)
              else Popped(View(), v) == Pop(old(View()), n)
    {
      SlotIsTop(View());
      var offset: int := if stack32 then esp else esp % 0x1_0000;
      v := ReadMem(Wrap32(base + offset), n);
      if abrt {
        return seq(n, _ => 0);
      }
      MoveUp(n);
    }
  }
}

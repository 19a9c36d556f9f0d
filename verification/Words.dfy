/** Machine words as bounded integers, 32-bit wrap-around addresses, and
    byte-addressed little-endian memory. */
module Words {

  datatype Option<+T> = None | Some(value: T)

  const TWO32: int := 0x1_0000_0000

  type Byte = b: int | 0 <= b < 0x100
  type Word16 = w: int | 0 <= w < 0x1_0000
  type Word32 = w: int | 0 <= w < TWO32
  type Addr = Word32

  type Memory = Addr -> Byte

  function Wrap32(a: int): Addr {
    a % TWO32
  }

  function Wrap16(a: int): Word16 {
    a % 0x1_0000
  }

  function Max(a: int, b: int): int {
    if a > b then a else b
  }

  predicate Bit(w: nat, weight: nat)
    requires weight > 0
  {
    w / weight % 2 == 1
  }

  /** Byte k of a dword, least significant first. */
  function ByteOf(v: Word32, k: nat): Byte
    requires k < 4
  {
    if k == 0 then v % 0x100
    else if k == 1 then v / 0x100 % 0x100
    else if k == 2 then v / 0x100 / 0x100 % 0x100
    else v / 0x100 / 0x100 / 0x100
  }

  function Join32(b0: Byte, b1: Byte, b2: Byte, b3: Byte): Word32 {
    b0 + 0x100 * b1 + 0x1_0000 * b2 + 0x100_0000 * b3
  }

  function Join16(b0: Byte, b1: Byte): Word16 {
    b0 + 0x100 * b1
  }

  // -------- bit-wise AND --------

  function And(a: nat, m: nat): (r: nat)
    ensures r <= a
  {
    if a == 0 || m == 0 then 0
    else 2 * And(a / 2, m / 2) + if a % 2 == 1 && m % 2 == 1 then 1 else 0
  }

  predicate BitSet(a: nat, k: nat)
    decreases k
  {
    if k == 0 then a % 2 == 1 else BitSet(a / 2, k - 1)
  }

  /** No bit of a is outside m. */
  ghost predicate Within(a: nat, m: nat) {
    forall k: nat :: BitSet(a, k) ==> BitSet(m, k)
  }

  lemma {:induction false} ZeroHasNoBits(k: nat)
    ensures !BitSet(0, k)
  {
    if k > 0 {
      ZeroHasNoBits(k - 1);
    }
  }

  lemma {:induction false} HasBit(a: nat) returns (k: nat)
    requires a > 0
    ensures BitSet(a, k)
  {
    if a % 2 == 1 {
      k := 0;
    } else {
      k := HasBit(a / 2);
      k := k + 1;
    }
  }

  lemma WithinHalf(a: nat, m: nat)
    ensures Within(a, m) <==> (a % 2 == 1 ==> m % 2 == 1) && Within(a / 2, m / 2)
  {
    if Within(a, m) {
      assert BitSet(a, 0) ==> BitSet(m, 0);
      forall k: nat
        ensures BitSet(a / 2, k) ==> BitSet(m / 2, k)
      {
        assert BitSet(a, k + 1) ==> BitSet(m, k + 1);
      }
    }
    if (a % 2 == 1 ==> m % 2 == 1) && Within(a / 2, m / 2) {
      forall k: nat
        ensures BitSet(a, k) ==> BitSet(m, k)
      {
        if k > 0 {
          assert BitSet(a / 2, k - 1) ==> BitSet(m / 2, k - 1);
        }
      }
    }
  }

  lemma {:induction false} AndKeepsExactly(a: nat, m: nat)
    ensures And(a, m) == a <==> Within(a, m)
  {
    if a == 0 {
      forall k: nat
        ensures !BitSet(a, k)
      {
        ZeroHasNoBits(k);
      }
    } else if m == 0 {
      var k := HasBit(a);
      ZeroHasNoBits(k);
    } else {
      AndKeepsExactly(a / 2, m / 2);
      WithinHalf(a, m);
    }
  }

  /** Bit by bit, And is what its name says. */
  lemma {:induction false} AndBits(a: nat, m: nat, k: nat)
    ensures BitSet(And(a, m), k) <==> BitSet(a, k) && BitSet(m, k)
    decreases k
  {
    if a == 0 || m == 0 {
      ZeroHasNoBits(k);
    } else if k > 0 {
      AndBits(a / 2, m / 2, k - 1);
      assert And(a, m) / 2 == And(a / 2, m / 2);
    }
  }

  /** Taking the remainder by a power of two cuts off the bits from there on. */
  lemma {:induction false} LowBits(x: nat, n: nat, k: nat)
    ensures BitSet(x % TwoTo(n), k) <==> k < n && BitSet(x, k)
    decreases n
  {
    if n == 0 {
      ZeroHasNoBits(k);
    } else {
      HalfRemainder(x, TwoTo(n - 1));
      if k > 0 {
        LowBits(x / 2, n - 1, k - 1);
      }
    }
  }

  lemma HalfRemainder(x: nat, h: nat)
    requires h > 0
    ensures x % (2 * h) % 2 == x % 2 && x % (2 * h) / 2 == x / 2 % h
  {
    var q, r := x / 2 / h, x / 2 % h;
    assert x / 2 == h * q + r;
    DoubleTimes(h, q);
    assert x == 2 * h * q + (2 * r + x % 2);
    RemainderOf(x, 2 * h, q, 2 * r + x % 2);
  }

  predicate IsOnes(m: nat) {
    m == 0 || (m % 2 == 1 && IsOnes(m / 2))
  }

  lemma {:induction false} AndOnes(a: nat, m: nat)
    requires IsOnes(m) && a <= m
    ensures And(a, m) == a
  {
    if a > 0 {
      AndOnes(a / 2, m / 2);
    }
  }

  lemma AndOdd(a: nat, m: nat)
    requires m % 2 == 1
    ensures And(a, m) == 2 * And(a / 2, m / 2) + a % 2
  {
  }

  function TwoTo(n: nat): (w: nat)
    ensures w > 0
  {
    if n == 0 then 1 else 2 * TwoTo(n - 1)
  }

  predicate LowOnes(m: nat, n: nat) {
    n == 0 || (m % 2 == 1 && LowOnes(m / 2, n - 1))
  }

  /** A mask with its low n bits set moves by multiples of 2^n only. */
  lemma {:induction false} AndLow(a: nat, m: nat, n: nat) returns (z: int)
    requires LowOnes(m, n)
    ensures And(a, m) == a + TwoTo(n) * z
  {
    if n == 0 {
      z := And(a, m) - a;
    } else {
      AndOdd(a, m);
      z := AndLow(a / 2, m / 2, n - 1);
      DoubleTimes(TwoTo(n - 1), z);
    }
  }

  lemma DoubleTimes(p: int, z: int)
    ensures 2 * (p * z) == (2 * p) * z
  {
  }

  lemma {:induction false} LowOnesOf(m: nat, n: nat, w: nat)
    requires w == TwoTo(n) && m % w == w - 1
    ensures LowOnes(m, n)
  {
    if n > 0 {
      HalfOnes(m, TwoTo(n - 1));
      LowOnesOf(m / 2, n - 1, TwoTo(n - 1));
    }
  }

  lemma HalfOnes(m: nat, h: nat)
    requires h > 0 && m % (2 * h) == 2 * h - 1
    ensures m % 2 == 1 && m / 2 % h == h - 1
  {
    var q := m / (2 * h);
    assert m == 2 * h * q + (2 * h - 1);
    DoubleTimes(h, q);
    assert m == 2 * (h * q + h - 1) + 1;
    assert m / 2 == h * q + (h - 1);
    RemainderOf(m / 2, h, q, h - 1);
  }

  lemma RemainderOf(x: nat, w: nat, q: nat, r: nat)
    requires r < w && x == w * q + r
    ensures x % w == r
  {
    var d := q - x / w;
    assert w * d == x % w - r;
    if d > 0 {
      Times(w, d);
    } else if d < 0 {
      Times(w, -d);
    }
  }

  lemma Times(w: nat, d: nat)
    requires d >= 1
    ensures w * d >= w
  {
  }

  lemma JoinSplit32(v: Word32)
    ensures Join32(ByteOf(v, 0), ByteOf(v, 1), ByteOf(v, 2), ByteOf(v, 3)) == v
  {
  }

  lemma WrapStep(x: int, k: int)
    ensures Wrap32(Wrap32(x) + k) == Wrap32(x + k)
  {
    assert x + k == x % TWO32 + k + TWO32 * (x / TWO32);
  }

  lemma WrapShift(x: int, q: int)
    ensures Wrap32(x + TWO32 * q) == Wrap32(x)
  {
  }

  lemma WrapSum(x: int, y: int)
    ensures Wrap32(Wrap32(x) + Wrap32(y)) == Wrap32(x + y)
  {
    WrapStep(x, Wrap32(y));
    WrapStep(y, x);
  }

  lemma WrapDistance(x: int, y: int)
    requires -TWO32 < x - y < TWO32
    ensures var d := Wrap32(x) - Wrap32(y); d == x - y || d == x - y + TWO32 || d == x - y - TWO32
  {
  }

  // -------- little-endian dwords in memory --------

  function Store4(m: Memory, p: Addr, v: Word32): Memory {
    (a: Addr) => var k := Wrap32(a - p); if k < 4 then ByteOf(v, k) else m(a)
  }

  function Read4(m: Memory, p: Addr): Word32 {
    Join32(m(p), m(Wrap32(p + 1)), m(Wrap32(p + 2)), m(Wrap32(p + 3)))
  }

  /** The n bytes at p and the n' bytes at q, both taken round the 4G wrap, do not meet. */
  predicate Disjoint(p: Addr, n: nat, q: Addr, n': nat) {
    n' <= Wrap32(p - q) <= TWO32 - n
  }

  lemma OffsetFrom(p: Addr, k: nat)
    requires k < TWO32
    ensures Wrap32(Wrap32(p + k) - p) == k
  {
  }

  lemma DisjointByte(p: Addr, n: nat, q: Addr, n': nat, k: nat)
    requires Disjoint(p, n, q, n') && k < n
    ensures Wrap32(Wrap32(p + k) - q) >= n'
  {
    assert Wrap32(Wrap32(p + k) - q) == Wrap32(p - q) + k;
  }

  lemma StoredByte(m: Memory, p: Addr, v: Word32, k: nat)
    requires k < 4
    ensures Store4(m, p, v)(Wrap32(p + k)) == ByteOf(v, k)
  {
    OffsetFrom(p, k);
  }

  lemma StoreThenRead4(m: Memory, p: Addr, v: Word32)
    ensures Read4(Store4(m, p, v), p) == v
  {
    var n := Store4(m, p, v);
    StoredByte(m, p, v, 0);
    StoredByte(m, p, v, 1);
    StoredByte(m, p, v, 2);
    StoredByte(m, p, v, 3);
    JoinBytes(n, p, v);
  }

  lemma JoinBytes(n: Memory, p: Addr, v: Word32)
    requires n(Wrap32(p + 0)) == ByteOf(v, 0) && n(Wrap32(p + 1)) == ByteOf(v, 1)
    requires n(Wrap32(p + 2)) == ByteOf(v, 2) && n(Wrap32(p + 3)) == ByteOf(v, 3)
    ensures Read4(n, p) == v
  {
    assert Wrap32(p + 0) == p;
    JoinSplit32(v);
  }

  predicate SameByte(n: Memory, m: Memory, p: Addr, k: nat) {
    n(Wrap32(p + k)) == m(Wrap32(p + k))
  }

  lemma ByteElsewhere(m: Memory, p: Addr, q: Addr, v: Word32, k: nat)
    requires Disjoint(p, 4, q, 4) && k < 4
    ensures SameByte(Store4(m, q, v), m, p, k)
  {
    DisjointByte(p, 4, q, 4, k);
  }

  lemma SameBytes(n: Memory, m: Memory, p: Addr)
    requires SameByte(n, m, p, 0) && SameByte(n, m, p, 1) && SameByte(n, m, p, 2) && SameByte(n, m, p, 3)
    ensures Read4(n, p) == Read4(m, p)
  {
    assert Wrap32(p + 0) == p;
  }

  lemma StoreElsewhere4(m: Memory, p: Addr, q: Addr, v: Word32)
    requires Disjoint(p, 4, q, 4)
    ensures Read4(Store4(m, q, v), p) == Read4(m, p)
  {
    ByteElsewhere(m, p, q, v, 0);
    ByteElsewhere(m, p, q, v, 1);
    ByteElsewhere(m, p, q, v, 2);
    ByteElsewhere(m, p, q, v, 3);
    SameBytes(Store4(m, q, v), m, p);
  }

  /** A dword lies in memory with its lowest byte first, and storing one touches its four
      bytes only. */
  lemma DwordInMemory(m: Memory, p: Addr, v: Word32, a: Addr)
    ensures Read4(m, p) == m(p) + 0x100 * m((p + 1) % TWO32) + 0x1_0000 * m((p + 2) % TWO32)
                           + 0x100_0000 * m((p + 3) % TWO32)
    ensures Read4(Store4(m, p, v), p) == v
    ensures Wrap32(a - p) >= 4 ==> Store4(m, p, v)(a) == m(a)
  {
    StoreThenRead4(m, p, v);
  }
}

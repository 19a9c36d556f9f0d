/** How the save map is stored below SMBASE + 0x10000 and read back, through the
    RAM mask in force at each time. */
module SmramMemory {
  import opened Words
  import opened CpuModel
  import opened SmramImage

  /** The physical address of a under a RAM mask. */
  function MaskAddr(a: Addr, mask: RamMask): Addr {
    And(a, mask)
  }

  /** Within a kilobyte, masking does not move anything. */
  lemma MaskSplit(a: Addr, mask: RamMask)
    ensures MaskAddr(a, mask) % 0x400 == a % 0x400
  {
    assert TwoTo(5) == 32 && TwoTo(10) == 0x400;
    LowOnesOf(mask, 10, 0x400);
    var z := AndLow(a, mask, 10);
    Kilobytes(a, z);
  }

  lemma Kilobytes(a: int, z: int)
    ensures (a + 0x400 * z) % 0x400 == a % 0x400
  {
  }

  lemma AllLinesAreOnes()
    ensures IsOnes(ALL_LINES)
  {
    assert IsOnes(0xff);
    assert IsOnes(0xffff);
    assert IsOnes(0xff_ffff);
    assert IsOnes(0xffff_ffff);
  }

  function SlotAddr(smbase: Word32, n: nat): Addr {
    Wrap32(smbase + 0x1_0000 - 4 * (n + 1))
  }

  /** Memory after slots 0..n-1 of img have been stored in that order. */
  function WriteSlots(m: Memory, mask: RamMask, smbase: Word32, img: seq<Word32>, n: nat): Memory
    requires n <= |img|
  {
    if n == 0 then m
    else Store4(WriteSlots(m, mask, smbase, img, n - 1), MaskAddr(SlotAddr(smbase, n - 1), mask), img[n - 1])
  }

  function ReadSlots(m: Memory, mask: RamMask, smbase: Word32): (img: seq<Word32>)
    ensures |img| == SLOTS
  {
    seq(SLOTS, n requires 0 <= n < SLOTS => Read4(m, MaskAddr(SlotAddr(smbase, n), mask)))
  }

  /** Both masks send slot n of the save area to the same place. */
  predicate SlotAgrees(smbase: Word32, writeMask: RamMask, readMask: RamMask, n: nat) {
    MaskAddr(SlotAddr(smbase, n), writeMask) == MaskAddr(SlotAddr(smbase, n), readMask)
  }

  lemma SlotDistance(smbase: Word32, i: nat, k: nat)
    requires i < SLOTS && k < SLOTS
    ensures var d := SlotAddr(smbase, i) - SlotAddr(smbase, k);
            d == 4 * (k - i) || d == 4 * (k - i) + TWO32 || d == 4 * (k - i) - TWO32
  {
    WrapDistance(smbase + 0x1_0000 - 4 * (i + 1), smbase + 0x1_0000 - 4 * (k + 1));
  }

  /** Dwords of one save area, each taken through a mask of its own, meet only when
      they are the same slot in the same place: masking moves by kilobytes. */
  lemma MaskedApart(a: Addr, b: Addr, ma: RamMask, mb: RamMask, n: int)
    requires -128 < n < 128 && (n != 0 || MaskAddr(a, ma) != MaskAddr(b, mb))
    requires a - b == 4 * n || a - b == 4 * n + TWO32 || a - b == 4 * n - TWO32
    ensures Disjoint(MaskAddr(a, ma), 4, MaskAddr(b, mb), 4)
  {
    MaskSplit(a, ma);
    MaskSplit(b, mb);
    KilobytesApart(MaskAddr(a, ma), MaskAddr(b, mb), a, b, n);
  }

  lemma KilobytesApart(p: Addr, q: Addr, a: Addr, b: Addr, n: int)
    requires -128 < n < 128 && (n != 0 || p != q)
    requires p % 0x400 == a % 0x400 && q % 0x400 == b % 0x400
    requires a - b == 4 * n || a - b == 4 * n + TWO32 || a - b == 4 * n - TWO32
    ensures Disjoint(p, 4, q, 4)
  {
    var z := p / 0x400 - a / 0x400 - (q / 0x400 - b / 0x400);
    assert p - q == a - b + 0x400 * z;
    var w := Wrap32(p - q);
    assert w == p - q || w == p - q + TWO32;
    assert w == 0 ==> p == q;
    var once := if a - b == 4 * n then 0 else if a - b == 4 * n + TWO32 then 1 else -1;
    var wraps := once + if w == p - q then 0 else 1;
    assert w == 4 * (n + 0x100 * (z + 0x40_0000 * wraps));
    FourApart(w, n, z + 0x40_0000 * wraps);
  }

  lemma FourApart(w: Word32, n: int, y: int)
    requires -128 < n < 128 && (n != 0 || w != 0)
    requires w == 4 * (n + 0x100 * y)
    ensures 4 <= w <= TWO32 - 4
  {
  }

  lemma SlotsApart(smbase: Word32, mask: RamMask, i: nat, k: nat)
    requires i < SLOTS && k < SLOTS && i != k
    ensures Disjoint(MaskAddr(SlotAddr(smbase, i), mask), 4, MaskAddr(SlotAddr(smbase, k), mask), 4)
  {
    SlotDistance(smbase, i, k);
    MaskedApart(SlotAddr(smbase, i), SlotAddr(smbase, k), mask, mask, k - i);
  }

  /** A slot read through the mask it was written with holds what was stored. */
  lemma {:induction false} SlotSurvives(m: Memory, mask: RamMask, smbase: Word32, img: seq<Word32>, n: nat, i: nat)
    requires i < n <= |img| && n <= SLOTS
    ensures Read4(WriteSlots(m, mask, smbase, img, n), MaskAddr(SlotAddr(smbase, i), mask)) == img[i]
  {
    var before := WriteSlots(m, mask, smbase, img, n - 1);
    if i == n - 1 {
      StoreThenRead4(before, MaskAddr(SlotAddr(smbase, i), mask), img[i]);
    } else {
      SlotSurvives(m, mask, smbase, img, n - 1, i);
      SlotsApart(smbase, mask, i, n - 1);
      StoreElsewhere4(before, MaskAddr(SlotAddr(smbase, i), mask), MaskAddr(SlotAddr(smbase, n - 1), mask), img[n - 1]);
    }
  }

  lemma {:induction false} Untouched(m: Memory, mask: RamMask, smbase: Word32, img: seq<Word32>, n: nat, p: Addr)
    requires n <= |img|
    requires forall k: nat | k < n :: Disjoint(p, 4, MaskAddr(SlotAddr(smbase, k), mask), 4)
    ensures Read4(WriteSlots(m, mask, smbase, img, n), p) == Read4(m, p)
  {
    if n > 0 {
      var before := WriteSlots(m, mask, smbase, img, n - 1);
      Untouched(m, mask, smbase, img, n - 1, p);
      StoreElsewhere4(before, p, MaskAddr(SlotAddr(smbase, n - 1), mask), img[n - 1]);
    }
  }

  /** Where the masks send slot i apart, it is read from outside the written save area. */
  lemma ReadPlaceUnwritten(smbase: Word32, writeMask: RamMask, readMask: RamMask, i: nat, k: nat)
    requires i < SLOTS && k < SLOTS && !SlotAgrees(smbase, writeMask, readMask, i)
    ensures Disjoint(MaskAddr(SlotAddr(smbase, i), readMask), 4, MaskAddr(SlotAddr(smbase, k), writeMask), 4)
  {
    SlotDistance(smbase, i, k);
    MaskedApart(SlotAddr(smbase, i), SlotAddr(smbase, k), readMask, writeMask, k - i);
  }

  /** A slot that the masks send apart reads as what was there before the save. */
  lemma LostSlot(m: Memory, smbase: Word32, writeMask: RamMask, readMask: RamMask, img: seq<Word32>, i: nat)
    requires i < SLOTS == |img| && !SlotAgrees(smbase, writeMask, readMask, i)
    ensures ReadSlots(WriteSlots(m, writeMask, smbase, img, SLOTS), readMask, smbase)[i]
         == Read4(m, MaskAddr(SlotAddr(smbase, i), readMask))
  {
    var p := MaskAddr(SlotAddr(smbase, i), readMask);
    forall k: nat | k < SLOTS
      ensures Disjoint(p, 4, MaskAddr(SlotAddr(smbase, k), writeMask), 4)
    {
      ReadPlaceUnwritten(smbase, writeMask, readMask, i, k);
    }
    Untouched(m, writeMask, smbase, img, SLOTS, p);
  }

  /** Memory full of one byte, and what a dword of it reads as. */
  function Filled(c: Byte): Memory {
    (a: Addr) => c
  }

  function Fourfold(c: Byte): Word32 {
    0x101_0101 * c
  }

  lemma FilledReads(c: Byte, p: Addr)
    ensures Read4(Filled(c), p) == Fourfold(c)
  {
  }

  /** Slot i of any save map is read back, whatever memory held before, exactly
      when the mask of the write and the mask of the read agree on it. */
  lemma SlotSurvivesExactly(smbase: Word32, writeMask: RamMask, readMask: RamMask, img: seq<Word32>, i: nat)
    requires i < SLOTS == |img|
    ensures SlotAgrees(smbase, writeMask, readMask, i)
       <==> forall m: Memory ::
              ReadSlots(WriteSlots(m, writeMask, smbase, img, SLOTS), readMask, smbase)[i] == img[i]
  {
    if SlotAgrees(smbase, writeMask, readMask, i) {
      forall m: Memory
        ensures ReadSlots(WriteSlots(m, writeMask, smbase, img, SLOTS), readMask, smbase)[i] == img[i]
      {
        SlotSurvives(m, writeMask, smbase, img, SLOTS, i);
      }
    } else {
      var c: Byte := if img[i] == 0 then 1 else 0;
      LostSlot(Filled(c), smbase, writeMask, readMask, img, i);
      FilledReads(c, MaskAddr(SlotAddr(smbase, i), readMask));
      assert ReadSlots(WriteSlots(Filled(c), writeMask, smbase, img, SLOTS), readMask, smbase)[i] != img[i];
    }
  }
}

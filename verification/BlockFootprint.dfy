/** Where the instructions of a compiled block can lie, and why the second address
    that the lookup checks for dirtiness covers them. */
module BlockFootprint {
  import opened Words

  const LINE: int := 0x40
  const PAGE: int := 0x1000
  const LONGEST: int := 15

  /** One instruction of a block being built: its length, where it leaves the program
      counter (anywhere: it may branch), and whether something else ends the block. */
  datatype Insn = Insn(length: nat, next: Addr, stop: bool)

  datatype Placed = Placed(at: Addr, length: nat)

  function MaxBlockSize(start: Addr, byteMask: bool): int {
    if byteMask then 128 - 25 - start % LINE else 1000
  }

  /** The address whose page, or whose line, the lookup checks besides the start's. */
  function SecondAddress(start: Addr, byteMask: bool): Addr {
    Wrap32(start + if byteMask then 0x40 else 0x400)
  }

  predicate Covered(start: Addr, byteMask: bool, p: Addr) {
    if byteMask then p / LINE == start / LINE || p / LINE == SecondAddress(start, byteMask) / LINE
    else p / PAGE == start / PAGE || p / PAGE == SecondAddress(start, byteMask) / PAGE
  }

  function ByteAddr(i: Placed, k: nat): Addr {
    Wrap32(i.at + k)
  }

  predicate AllCovered(start: Addr, byteMask: bool, i: Placed) {
    forall k: nat | k < i.length :: Covered(start, byteMask, ByteAddr(i, k))
  }

  /** An instruction is started only within the block size of the start, going up. */
  predicate StartedWithin(start: Addr, byteMask: bool, at: Addr) {
    Wrap32(at - start) < MaxBlockSize(start, byteMask)
  }

  /** The places checked, in numbers: the start's 64-byte line and the next, or the start's
      page and the one 0x400 on. */
  lemma PlacesExactly(start: Addr, p: Addr)
    ensures Covered(start, true, p) <==> p / 64 == start / 64 || p / 64 == (start + 64) % TWO32 / 64
    ensures Covered(start, false, p) <==> p / 4096 == start / 4096 || p / 4096 == (start + 0x400) % TWO32 / 4096
  {
  }

  lemma CoveredAt(start: Addr, byteMask: bool, d: nat)
    requires byteMask ==> start % LINE + d < 2 * LINE
    requires !byteMask ==> d < 0x400
    ensures Covered(start, byteMask, Wrap32(start + d))
  {
    if byteMask {
      LineOf(start, d);
      LineOf(start, LINE);
    } else {
      PageOf(start, d);
      PageOf(start, 0x400);
    }
  }

  lemma LineOf(start: Addr, d: nat)
    requires start % LINE + d < 2 * LINE || d == LINE
    ensures Wrap32(start + d) / LINE
         == if start % LINE + d < LINE then start / LINE else (start / LINE + 1) % (TWO32 / LINE)
  {
  }

  lemma PageOf(start: Addr, d: nat)
    requires d <= 0x400
    ensures Wrap32(start + d) / PAGE
         == if start % PAGE + d < PAGE then start / PAGE else (start / PAGE + 1) % (TWO32 / PAGE)
  {
  }

  lemma InstructionCovered(start: Addr, byteMask: bool, i: Placed)
    requires StartedWithin(start, byteMask, i.at) && i.length <= LONGEST
    ensures AllCovered(start, byteMask, i)
  {
    var d := Wrap32(i.at - start);
    forall k: nat | k < i.length
      ensures Covered(start, byteMask, ByteAddr(i, k))
    {
      CoveredAt(start, byteMask, d + k);
      WrapStep(i.at - start, start + k);
    }
  }

  /** Instruction k of a block is insns[k], starts where the one before left the program
      counter, and lies in the two places checked for dirtiness. */
  predicate BuiltAt(start: Addr, byteMask: bool, insns: seq<Insn>, done: seq<Placed>, k: nat)
    requires k < |done| <= |insns|
  {
    && done[k].length == insns[k].length
    && done[k].at == (if k == 0 then start else insns[k - 1].next)
    && AllCovered(start, byteMask, done[k])
  }

  predicate Built(start: Addr, byteMask: bool, insns: seq<Insn>, done: seq<Placed>) {
    |done| <= |insns| && forall k | 0 <= k < |done| :: BuiltAt(start, byteMask, insns, done, k)
  }

  lemma BuiltNext(start: Addr, byteMask: bool, insns: seq<Insn>, done: seq<Placed>, at: Addr)
    requires Built(start, byteMask, insns, done) && |done| < |insns| && StartedWithin(start, byteMask, at)
    requires at == if done == [] then start else insns[|done| - 1].next
    requires insns[|done|].length <= LONGEST
    ensures Built(start, byteMask, insns, done + [Placed(at, insns[|done|].length)])
  {
    var i := Placed(at, insns[|done|].length);
    InstructionCovered(start, byteMask, i);
    forall k | 0 <= k < |done| + 1
      ensures BuiltAt(start, byteMask, insns, done + [i], k)
    {
      if k < |done| {
        assert BuiltAt(start, byteMask, insns, done, k);
        assert (done + [i])[k] == done[k];
      } else {
        assert (done + [i])[k] == i;
      }
    }
  }

  lemma StartWithin(start: Addr, byteMask: bool)
    ensures StartedWithin(start, byteMask, start)
  {
  }

  /** The block-building loop: it goes on until the distance from the start, taken
      round the 4G wrap, reaches the block size, so a branch backwards ends it too. */
  method BuildBlock(start: Addr, byteMask: bool, insns: seq<Insn>) returns (done: seq<Placed>)
    requires forall i | i in insns :: i.length <= LONGEST
    ensures Built(start, byteMask, insns, done)
    ensures insns != [] ==> done != []
    ensures |done| < |insns| ==>
              insns[|done| - 1].stop
              || (insns[|done| - 1].next - start) % TWO32 >= if byteMask then 103 - start % 64 else 1000
  {
    done := [];
    var at: Addr := start;
    StartWithin(start, byteMask);
    for n := 0 to |insns|
      invariant |done| == n && Built(start, byteMask, insns, done)
      invariant StartedWithin(start, byteMask, at) && at == if n == 0 then start else insns[n - 1].next
    {
      assert insns[n] in insns;
      BuiltNext(start, byteMask, insns, done, at);
      done := done + [Placed(at, insns[n].length)];
      at := insns[n].next;
      if Wrap32(at - start) >= MaxBlockSize(start, byteMask) || insns[n].stop {
        return;
      }
    }
  }
}

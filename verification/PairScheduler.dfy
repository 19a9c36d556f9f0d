/** The 6x86 timing model as it runs: one call per instruction start, prefix and
    opcode, with a one-slot buffer and a running cycle count. */
module PairScheduler {
  import opened Words
  import opened TimingMasks
  import opened PairSpec
  import opened PairTheorems
  import opened PairCost

  const IMPL_ESP_FLAG: nat := 21
  const SRCDEP_ESP_FLAG: nat := 8
  const DSTDEP_ESP_FLAG: nat := 16

  class Scheduler {
    var prevFull: bool
    var prev: Instr
    var prevRegmask: Mask
    var decodeDelay: int
    var regmaskModified: Mask
    var lastRegmaskModified: Mask
    var blockCycles: int
    ghost var issued: seq<Group>

    constructor (any: Instr, cycles: int)
      ensures Valid() && View() == Begin(cycles)
    {
      prevFull, prev, prevRegmask := false, any, {};
      decodeDelay, regmaskModified, lastRegmaskModified := 0, {}, {};
      blockCycles := cycles;
      issued := [];
    }

    /** The buffered mask is the buffered instruction's, and its table entry is sound. */
    ghost predicate Valid()
      reads this
    {
      prevFull ==> ValidDeps(prev.deps) && prevRegmask == Dst(prev)
    }

    ghost function View(): Sched
      reads this
    {
      Sched(if prevFull then Some(prev) else None, decodeDelay, regmaskModified, lastRegmaskModified, blockCycles,
            issued)
    }

    method Start()
      modifies this`decodeDelay
      ensures decodeDelay == 0
    {
      decodeDelay := 0;
    }

    method PrefixByte(p: Prefix)
      modifies this`decodeDelay
      ensures decodeDelay == old(decodeDelay) + if Penalised(p) then 1 else 0
    {
      if p.byte / 8 == 27 {
        return;
      }
      if p.byte == 0x0f && p.fetchdat / 16 % 16 == 8 {
        return;
      }
      decodeDelay := decodeDelay + 1;
    }

    method CheckAgi(i: Instr) returns (stall: nat)
      requires ValidDeps(i.deps)
      modifies this`regmaskModified
      ensures (stall, regmaskModified) == Agi(old(regmaskModified), lastRegmaskModified, i)
    {
      var addr := AddrRegmask(i.deps, i.fetchdat, i.addr32);
      MasksNarrow(i.deps, i.fetchdat, i.bit8, i.addr32);
      if IMPL_ESP_FLAG in addr {
        addr := addr + {REG_ESP};
      }
      if regmaskModified * addr != {} {
        regmaskModified := {};
        return 2;
      }
      if lastRegmaskModified * addr != {} {
        return 1;
      }
      return 0;
    }

    /** Issue the buffered instruction alone; stall is its address stall. */
    method RunPrevious(stall: nat)
      requires prevFull && Valid()
      modifies this
      ensures Valid() && prev == old(prev)
      ensures View() == Sched(None, 1 - Count(prev) + stall, Dst(prev), old(regmaskModified),
                              old(blockCycles) + Count(prev) + old(decodeDelay) + stall, old(issued) + [Alone(prev)])
    {
      blockCycles := blockCycles + (Count(prev) + decodeDelay + stall);
      decodeDelay := 1 - Count(prev) + stall;
      prevFull := false;
      lastRegmaskModified := regmaskModified;
      regmaskModified := prevRegmask;
      issued := issued + [Alone(prev)];
    }

    method SlowerHalf(i: Instr) returns (t: nat)
      ensures t == Max(Count(prev), Count(i))
    {
      var t1 := Count(prev);
      var t2 := Count(i);
      t := if t1 > t2 then t1 else t2;
    }

    /** Issue i with the buffered instruction, whose address stall is already worked out. */
    method IssuePair(i: Instr, t: nat)
      requires Valid() && prevFull && ValidDeps(i.deps)
      modifies this
      ensures Valid()
      ensures var (stall, remaining) := Agi(old(regmaskModified), old(lastRegmaskModified), i);
              View() == Sched(None, 1 - t + stall, Dst(i) + Dst(old(prev)), remaining, old(blockCycles) + t + stall,
                              old(issued) + [Two(old(prev), i)])
    {
      var stall := CheckAgi(i);
      blockCycles := blockCycles + (t + stall);
      decodeDelay := 1 - t + stall;
      lastRegmaskModified := regmaskModified;
      regmaskModified := DstMask(i.deps, i.fetchdat, i.bit8) + prevRegmask;
      prevFull := false;
      issued := issued + [Two(prev, i)];
    }

    /** The buffered instruction's turn: paired is set when i went with it. */
    method TryPair(i: Instr) returns (paired: bool, ok: bool)
      requires Valid() && prevFull && ValidDeps(i.deps)
      modifies this
      ensures ok == !Fatal(old(View()), i)
      ensures ok ==> Valid() && paired == CanFollow(old(prev), i)
      ensures ok ==> View() == if paired then RunPair(old(View()), old(prev), i) else RunAlone(old(View()), old(prev))
    {
      paired, ok := false, true;
      var regmask := SrcMask(i.deps, i.fetchdat, i.bit8, i.addr32);
      MasksNarrow(i.deps, i.fetchdat, i.bit8, i.addr32);
      if IMPL_ESP_FLAG in regmask {
        regmask := regmask + {SRCDEP_ESP_FLAG, DSTDEP_ESP_FLAG};
      }
      var stall := CheckAgi(prev);
      if PipeOf(i) == NP {
        RunPrevious(stall);
      } else if (PipeOf(i) == X || PipeOf(i) == XBranch) && i.xx {
        RunPrevious(stall);
      } else if prevRegmask * regmask != {} {
        RunPrevious(stall);
      } else {
        var t := SlowerHalf(i);
        if t == 0 {
          return false, false;
        }
        IssuePair(i, t);
        return true, true;
      }
    }

    /** With nothing buffered: issue i now or keep it for a partner. */
    method Place(i: Instr)
      requires !prevFull && ValidDeps(i.deps)
      modifies this
      ensures Valid() && View() == Accept(old(View()), i)
    {
      if PipeOf(i) == NP || PipeOf(i) == XBranch {
        var stall := CheckAgi(i);
        blockCycles := blockCycles + (Count(i) + decodeDelay + stall);
        decodeDelay := 1 - Count(i) + stall;
        lastRegmaskModified := regmaskModified;
        regmaskModified := DstMask(i.deps, i.fetchdat, i.bit8);
        issued := issued + [Alone(i)];
      } else {
        prevFull := true;
        prev := i;
        var regmask := DstMask(i.deps, i.fetchdat, i.bit8);
        MasksNarrow(i.deps, i.fetchdat, i.bit8, i.addr32);
        if IMPL_ESP_FLAG in regmask {
          regmask := regmask + {SRCDEP_ESP_FLAG, DSTDEP_ESP_FLAG};
        }
        prevRegmask := regmask;
      }
    }

    /** ok is false where the scheduler gives up. */
    method Opcode(i: Instr) returns (ok: bool)
      requires Valid() && ValidDeps(i.deps)
      modifies this
      ensures ok == !Fatal(old(View()), i)
      ensures ok ==> Valid() && View() == Step(old(View()), i)
    {
      decodeDelay := decodeDelay - 1;
      if decodeDelay < 0 {
        decodeDelay := 0;
      }
      if prevFull {
        var paired;
        paired, ok := TryPair(i);
        if !ok || paired {
          return;
        }
      }
      Place(i);
      return true;
    }

    method BlockEnd()
      requires Valid()
      modifies this
      ensures View() == Flush(old(View()))
    {
      if prevFull {
        blockCycles := blockCycles + (Count(prev) + decodeDelay);
        prevFull := false;
        issued := issued + [Alone(prev)];
      }
    }

    method Instruction(i: Instr) returns (ok: bool)
      requires Valid() && ValidDeps(i.deps)
      modifies this
      ensures ok == !Fatal(old(View()), i)
      ensures ok ==> Valid() && View() == Feed(old(View()), i)
    {
      Start();
      for k := 0 to |i.prefixes|
        invariant Valid() && View() == old(View()).(delay := PrefixDelay(i.prefixes[..k]))
      {
        assert i.prefixes[..k + 1][..k] == i.prefixes[..k];
        PrefixByte(i.prefixes[k]);
      }
      assert i.prefixes[..|i.prefixes|] == i.prefixes;
      ok := Opcode(i);
    }
  }

  /** A whole block, from block start to block end. ok is false where it gives up. */
  method TimeBlock(any: Instr, cycles: int, ins: seq<Instr>) returns (ok: bool, total: int, ghost groups: seq<Group>)
    requires forall i | i in ins :: ValidDeps(i.deps)
    ensures ok <==> !HasZeroPair(Partition(ins))
    ensures ok ==> total == Block(cycles, ins).cycles >= cycles + Busy(groups) && groups == Partition(ins)
    ensures ok ==> total == cycles + Price(groups, {}, {}, None)
    ensures (forall i | i in ins :: WellFormed(i)) ==> ok && total <= cycles + Budget(ins)
  {
    AbortExactly(cycles, ins);
    BlockIssuesPartition(cycles, ins);
    BlockCyclesSound(cycles, ins);
    BlockPrice(cycles, ins);
    if forall i | i in ins :: WellFormed(i) {
      AbortUnreachable(cycles, ins);
    }
    var s := new Scheduler(any, cycles);
    for k := 0 to |ins|
      invariant fresh(s) && s.Valid() && BufferLeads(s.View())
      invariant FeedAll(s.View(), ins[k..]) == FeedAll(Begin(cycles), ins)
      invariant Aborts(s.View(), ins[k..]) == Aborts(Begin(cycles), ins)
    {
      assert ins[k..][0] == ins[k] && ins[k..][1..] == ins[k + 1..];
      FeedBuffers(s.View(), ins[k]);
      ok := s.Instruction(ins[k]);
      if !ok {
        return false, 0, [];
      }
    }
    s.BlockEnd();
    ok, total, groups := true, s.blockCycles, s.issued;
  }
}

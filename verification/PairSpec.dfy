/** The dual-pipe issue model as functions: what one instruction does to the
    scheduler's one-slot buffer, its stalls and its cycle count, and the partition
    of the instruction list that the scheduler refines. */
module PairSpec {
  import opened Words
  import opened TimingMasks

  datatype Pipe = NP | X | XBranch | XY

  datatype Prefix = Prefix(byte: Byte, fetchdat: Word32)

  /** An instruction with its table entries. xx says whether the table that the
      previous instruction used classifies this opcode as X-only. */
  datatype Instr = Instr(timing: Word32, deps: Deps, fetchdat: Word32, data32: bool, addr32: bool,
                         bit8: bool, prefixes: seq<Prefix>, xx: bool)

  datatype Group = Alone(i: Instr) | Two(first: Instr, second: Instr)

  datatype Sched = Sched(prev: Option<Instr>, delay: int, modified: Mask, last: Mask, cycles: int,
                         issued: seq<Group>)

  function PipeOf(i: Instr): Pipe {
    var c := i.timing / 0x2000_0000 % 4;
    if c == 0 then NP else if c == 1 then X else if c == 2 then XBranch else XY
  }

  function Count(i: Instr): nat {
    if i.timing / 0x8000_0000 == 1 then (if i.data32 then i.timing / 0x100 % 0x100 else i.timing % 0x100)
    else if PipeOf(i) == NP then i.timing % 0x1_0000
    else i.timing % 0x80
  }

  /** What the tables promise: an instruction that may pair takes at least a cycle. */
  predicate WellFormed(i: Instr) {
    (PipeOf(i) == X || PipeOf(i) == XY ==> Count(i) > 0) && ValidDeps(i.deps)
  }

  function Src(i: Instr): Mask {
    SrcMask(i.deps, i.fetchdat, i.bit8, i.addr32)
  }

  function Dst(i: Instr): Mask {
    DstMask(i.deps, i.fetchdat, i.bit8)
  }

  /** Escape and conditional-jump prefixes are free. */
  predicate Penalised(p: Prefix) {
    p.byte / 8 != 27 && !(p.byte == 0x0f && p.fetchdat / 16 % 16 == 8)
  }

  function PrefixDelay(ps: seq<Prefix>): nat {
    if ps == [] then 0
    else PrefixDelay(ps[..|ps| - 1]) + if Penalised(ps[|ps| - 1]) then 1 else 0
  }

  // -------- one instruction --------

  /** The address stall of i and what remains marked as just modified. */
  function Agi(modified: Mask, last: Mask, i: Instr): (nat, Mask) {
    var addr := AddrRegmask(i.deps, i.fetchdat, i.addr32);
    if modified * addr != {} then (2, {})
    else if last * addr != {} then (1, modified)
    else (0, modified)
  }

  function RunAlone(s: Sched, i: Instr): Sched {
    var (stall, marked) := Agi(s.modified, s.last, i);
    Sched(None, 1 - Count(i) + stall, Dst(i), marked, s.cycles + Count(i) + s.delay + stall, s.issued + [Alone(i)])
  }

  /** The pair costs its slower half. Only the second's address stall is charged, but
      a stall of the first clears the marks the second is checked against. */
  function RunPair(s: Sched, first: Instr, second: Instr): Sched {
    var t := Max(Count(first), Count(second));
    var (_, marked) := Agi(s.modified, s.last, first);
    var (stall, remaining) := Agi(marked, s.last, second);
    Sched(None, 1 - t + stall, Dst(second) + Dst(first), remaining, s.cycles + t + stall,
          s.issued + [Two(first, second)])
  }

  /** May be buffered to pair with its successor. */
  predicate CanLead(i: Instr) {
    PipeOf(i) == X || PipeOf(i) == XY
  }

  predicate CanFollow(p: Instr, i: Instr) {
    && PipeOf(i) != NP
    && !((PipeOf(i) == X || PipeOf(i) == XBranch) && i.xx)
    && Dst(p) * Src(i) == {}
  }

  function Accept(s: Sched, i: Instr): Sched {
    if CanLead(i) then s.(prev := Some(i)) else RunAlone(s, i)
  }

  /** The scheduler gives up when both halves of a pair count zero cycles. */
  predicate Fatal(s: Sched, i: Instr) {
    s.prev.Some? && CanFollow(s.prev.value, i) && Max(Count(s.prev.value), Count(i)) == 0
  }

  function Step(s: Sched, i: Instr): Sched {
    var s0 := s.(delay := Max(0, s.delay - 1));
    match s0.prev
    case Some(p) => if CanFollow(p, i) then RunPair(s0, p, i) else Accept(RunAlone(s0, p), i)
    case None => Accept(s0, i)
  }

  // -------- a block --------

  function Begin(cycles: int): Sched {
    Sched(None, 0, {}, {}, cycles, [])
  }

  function Decoded(s: Sched, i: Instr): Sched {
    s.(delay := PrefixDelay(i.prefixes))
  }

  function Feed(s: Sched, i: Instr): Sched {
    Step(Decoded(s, i), i)
  }

  function FeedAll(s: Sched, ins: seq<Instr>): Sched
    decreases ins
  {
    if ins == [] then s else FeedAll(Feed(s, ins[0]), ins[1..])
  }

  function Flush(s: Sched): Sched {
    match s.prev
    case Some(p) => s.(prev := None, cycles := s.cycles + Count(p) + s.delay, issued := s.issued + [Alone(p)])
    case None => s
  }

  function Block(cycles: int, ins: seq<Instr>): Sched {
    Flush(FeedAll(Begin(cycles), ins))
  }

  // -------- the partition --------

  /** Reading from the front: lead with what can lead, pair it with its successor
      when that can follow, otherwise issue it alone. */
  function Partition(ins: seq<Instr>): seq<Group> {
    if ins == [] then []
    else if |ins| > 1 && CanLead(ins[0]) && CanFollow(ins[0], ins[1]) then [Two(ins[0], ins[1])] + Partition(ins[2..])
    else [Alone(ins[0])] + Partition(ins[1..])
  }

  function Members(g: Group): seq<Instr> {
    match g
    case Alone(i) => [i]
    case Two(a, b) => [a, b]
  }

  function Flatten(gs: seq<Group>): seq<Instr> {
    if gs == [] then [] else Members(gs[0]) + Flatten(gs[1..])
  }

  predicate LegalPair(g: Group) {
    g.Two? ==>
      && PipeOf(g.second) != NP
      && PipeOf(g.first) != NP && PipeOf(g.first) != XBranch
      && Dst(g.first) * Src(g.second) == {}
  }

  function Lead(g: Group): Instr {
    match g
    case Alone(i) => i
    case Two(a, b) => a
  }

  /** Every instruction is issued exactly once and in order. */
  lemma {:induction false} PartitionFlattens(ins: seq<Instr>)
    ensures Flatten(Partition(ins)) == ins
  {
    if ins == [] {
    } else if |ins| > 1 && CanLead(ins[0]) && CanFollow(ins[0], ins[1]) {
      PartitionFlattens(ins[2..]);
      assert ins == [ins[0], ins[1]] + ins[2..];
    } else {
      PartitionFlattens(ins[1..]);
    }
  }

  lemma LedPairLegal(p: Instr, i: Instr)
    requires CanLead(p) && CanFollow(p, i)
    ensures LegalPair(Two(p, i))
  {
  }

  lemma {:induction false} PartitionLegal(ins: seq<Instr>, k: nat)
    requires k < |Partition(ins)|
    ensures LegalPair(Partition(ins)[k])
    decreases |ins|, 0
  {
    if |ins| > 1 && CanLead(ins[0]) && CanFollow(ins[0], ins[1]) {
      LegalFirst(Two(ins[0], ins[1]), ins[2..], k);
    } else {
      LegalFirst(Alone(ins[0]), ins[1..], k);
    }
  }

  lemma {:induction false} LegalFirst(g: Group, rest: seq<Instr>, k: nat)
    requires g.Two? ==> CanLead(g.first) && CanFollow(g.first, g.second)
    requires k < 1 + |Partition(rest)|
    ensures LegalPair(([g] + Partition(rest))[k])
    decreases |rest|, 1
  {
    if k > 0 {
      PartitionLegal(rest, k - 1);
    } else if g.Two? {
      LedPairLegal(g.first, g.second);
    }
  }

  /** No pair is missed: an instruction issued alone could not have led the next group. */
  lemma {:induction false} PartitionMaximal(ins: seq<Instr>, k: nat)
    requires k + 1 < |Partition(ins)| && Partition(ins)[k].Alone?
    ensures !(CanLead(Partition(ins)[k].i) && CanFollow(Partition(ins)[k].i, Lead(Partition(ins)[k + 1])))
  {
    if |ins| > 1 && CanLead(ins[0]) && CanFollow(ins[0], ins[1]) {
      PartitionMaximal(ins[2..], k - 1);
    } else if k > 0 {
      PartitionMaximal(ins[1..], k - 1);
    } else {
      assert |ins| > 1;
      assert Lead(Partition(ins[1..])[0]) == ins[1];
    }
  }

  lemma {:induction false} PartitionSize(ins: seq<Instr>)
    ensures 2 * |Partition(ins)| >= |ins|
  {
    if ins == [] {
    } else if |ins| > 1 && CanLead(ins[0]) && CanFollow(ins[0], ins[1]) {
      PartitionSize(ins[2..]);
    } else {
      PartitionSize(ins[1..]);
    }
  }

  // -------- table entries --------

  /** An entry with a pairing class and a cycle count has that class and that count; the
      count of a pairable entry has seven bits, any other sixteen. */
  lemma EntryReadBack(i: Instr, pair: nat, cycles: nat)
    requires pair < 4 && cycles < (if pair == 0 then 0x1_0000 else 0x80)
    requires i.timing == 0x2000_0000 * pair + cycles
    ensures Count(i) == cycles
    ensures PipeOf(i) == if pair == 0 then NP else if pair == 1 then X else if pair == 2 then XBranch else XY
  {
  }

  /** An entry with a count for each data size has the one of the instruction's, and does not pair. */
  lemma MultiReadBack(i: Instr, c16: nat, c32: nat)
    requires c16 < 0x100 && c32 < 0x100 && i.timing == 0x8000_0000 + c16 + 0x100 * c32
    ensures Count(i) == (if i.data32 then c32 else c16) && PipeOf(i) == NP
  {
    MultiParts(i.timing, c16, c32);
  }

  lemma MultiParts(w: Word32, c16: nat, c32: nat)
    requires c16 < 0x100 && c32 < 0x100 && w == 0x8000_0000 + c16 + 0x100 * c32
    ensures w / 0x8000_0000 == 1 && w % 0x100 == c16 && w / 0x100 % 0x100 == c32 && w / 0x2000_0000 % 4 == 0
  {
    assert w / 0x100 == 0x80_0000 + c32;
    assert w / 0x2000_0000 == 4;
  }

  /** The free prefixes: the eight escapes, and 0F before the second byte of a conditional jump. */
  lemma PenalisedExactly(p: Prefix)
    ensures Penalised(p) <==> !(0xd8 <= p.byte <= 0xdf) && !(p.byte == 0x0f && 0x80 <= p.fetchdat % 0x100 <= 0x8f)
  {
  }

  /** The pairing class of an entry is in its bits 29 and 30. */
  function Class(i: Instr): nat {
    i.timing / 0x2000_0000 % 4
  }

  /** Classes 1 and 3, X and XY, are kept for a partner. Any class but 0 can follow one,
      unless it goes to the X pipe only, as do classes 1 and 2, and is found against an
      X-only entry, or unless it reads what the first writes. */
  lemma PairingExactly(p: Instr, i: Instr)
    ensures CanLead(p) <==> Class(p) == 1 || Class(p) == 3
    ensures CanFollow(p, i) <==> Class(i) != 0 && !(i.xx && (Class(i) == 1 || Class(i) == 2)) && Dst(p) !! Src(i)
  {
  }
}

/** The online scheduler refines the partition, and its cycle totals are sound
    although the decode delay goes negative. */
module PairTheorems {
  import opened Words
  import opened TimingMasks
  import opened PairSpec
  import opened EffectiveAddress

  /** What is buffered, as the front of the instructions not yet issued. */
  function Pending(s: Sched): seq<Instr> {
    match s.prev
    case Some(p) => [p]
    case None => []
  }

  predicate BufferLeads(s: Sched) {
    s.prev.Some? ==> CanLead(s.prev.value)
  }

  lemma AloneFirst(p: Instr, rest: seq<Instr>)
    requires rest != [] ==> !(CanLead(p) && CanFollow(p, rest[0]))
    ensures Partition([p] + rest) == [Alone(p)] + Partition(rest)
  {
    assert ([p] + rest)[1..] == rest;
  }

  lemma PairFirst(p: Instr, i: Instr, rest: seq<Instr>)
    requires CanLead(p) && CanFollow(p, i)
    ensures Partition([p] + ([i] + rest)) == [Two(p, i)] + Partition(rest)
  {
    assert ([p] + ([i] + rest))[2..] == rest;
  }

  lemma Regroup<T>(a: seq<T>, b: seq<T>, c: seq<T>)
    ensures a + b + c == a + (b + c)
  {
  }

  lemma AcceptPartition(s: Sched, i: Instr, rest: seq<Instr>)
    requires s.prev == None
    ensures var t := Accept(s, i);
            BufferLeads(t) && t.issued + Partition(Pending(t) + rest) == s.issued + Partition([i] + rest)
  {
    if !CanLead(i) {
      AloneFirst(i, rest);
      Regroup(s.issued, [Alone(i)], Partition(rest));
      assert [] + rest == rest;
    }
  }

  lemma FeedPartition(s: Sched, i: Instr, rest: seq<Instr>)
    requires BufferLeads(s)
    ensures var t := Feed(s, i);
            BufferLeads(t)
            && t.issued + Partition(Pending(t) + rest) == s.issued + Partition(Pending(s) + ([i] + rest))
  {
    var d := Decoded(s, i);
    var s0 := d.(delay := Max(0, d.delay - 1));
    match s.prev {
      case None =>
        AcceptPartition(s0, i, rest);
        assert [] + ([i] + rest) == [i] + rest;
      case Some(p) =>
        if CanFollow(p, i) {
          PairFirst(p, i, rest);
          Regroup(s.issued, [Two(p, i)], Partition(rest));
          assert [] + rest == rest;
        } else {
          AcceptPartition(RunAlone(s0, p), i, rest);
          AloneFirst(p, [i] + rest);
          Regroup(s.issued, [Alone(p)], Partition([i] + rest));
        }
    }
  }

  lemma {:induction false} FeedAllPartition(s: Sched, ins: seq<Instr>)
    requires BufferLeads(s)
    ensures var t := FeedAll(s, ins);
            BufferLeads(t) && t.issued + Partition(Pending(t)) == s.issued + Partition(Pending(s) + ins)
    decreases ins
  {
    if ins == [] {
      assert Pending(s) + ins == Pending(s);
    } else {
      FeedPartition(s, ins[0], ins[1..]);
      assert [ins[0]] + ins[1..] == ins;
      FeedAllPartition(Feed(s, ins[0]), ins[1..]);
    }
  }

  /** The scheduler issues exactly the partition. */
  lemma BlockIssuesPartition(cycles: int, ins: seq<Instr>)
    ensures Block(cycles, ins).issued == Partition(ins)
    ensures Block(cycles, ins).prev == None
  {
    FeedAllPartition(Begin(cycles), ins);
    var t := FeedAll(Begin(cycles), ins);
    assert [] + ins == ins && [] + Partition(ins) == Partition(ins);
    if t.prev.Some? {
      AloneFirst(t.prev.value, []);
    }
  }

  /** For every block: each instruction once, in order, in legal groups, no pair missed. */
  lemma BlockRefinesPartition(cycles: int, ins: seq<Instr>)
    ensures var gs := Block(cycles, ins).issued;
            && Flatten(gs) == ins
            && (forall k | 0 <= k < |gs| :: LegalPair(gs[k]))
            && (forall k | 0 <= k < |gs| - 1 ::
                  gs[k].Alone? ==> !(CanLead(gs[k].i) && CanFollow(gs[k].i, Lead(gs[k + 1]))))
  {
    BlockIssuesPartition(cycles, ins);
    PartitionFlattens(ins);
    var gs := Partition(ins);
    forall k | 0 <= k < |gs|
      ensures LegalPair(gs[k])
    {
      PartitionLegal(ins, k);
    }
    forall k | 0 <= k < |gs| - 1 && gs[k].Alone?
      ensures !(CanLead(gs[k].i) && CanFollow(gs[k].i, Lead(gs[k + 1])))
    {
      PartitionMaximal(ins, k);
    }
  }

  // -------- the abort --------

  /** A pair that takes no time. */
  predicate ZeroPair(g: Group) {
    g.Two? && Count(g.first) == 0 && Count(g.second) == 0
  }

  ghost predicate HasZeroPair(gs: seq<Group>) {
    exists g :: g in gs && ZeroPair(g)
  }

  /** Fed with ins from s, the scheduler gives up somewhere. */
  predicate Aborts(s: Sched, ins: seq<Instr>)
    decreases ins
  {
    ins != [] && (Fatal(s, ins[0]) || Aborts(Feed(s, ins[0]), ins[1..]))
  }

  lemma ZeroPairEither(a: seq<Group>, b: seq<Group>)
    ensures HasZeroPair(a + b) <==> HasZeroPair(a) || HasZeroPair(b)
  {
    forall g | g in a || g in b
      ensures g in a + b
    {
    }
  }

  lemma ZeroPairStep(s: Sched, i: Instr)
    requires BufferLeads(s)
    ensures HasZeroPair(Feed(s, i).issued) <==> HasZeroPair(s.issued) || Fatal(s, i)
  {
    var added := IssuedBy(s, i);
    assert Feed(s, i).issued == s.issued + added by {
      IssuedByFeed(s, i);
    }
    ZeroPairEither(s.issued, added);
    if Fatal(s, i) {
      assert added[0] in added;
    }
  }

  /** The groups that feeding i issues. */
  function IssuedBy(s: Sched, i: Instr): seq<Group> {
    var own := if CanLead(i) then [] else [Alone(i)];
    match s.prev
    case Some(p) => if CanFollow(p, i) then [Two(p, i)] else [Alone(p)] + own
    case None => own
  }

  lemma IssuedByFeed(s: Sched, i: Instr)
    ensures Feed(s, i).issued == s.issued + IssuedBy(s, i)
  {
    if s.prev.Some? && !CanFollow(s.prev.value, i) && !CanLead(i) {
      Regroup(s.issued, [Alone(s.prev.value)], [Alone(i)]);
    }
  }

  lemma {:induction false} AbortsFrom(s: Sched, ins: seq<Instr>)
    requires BufferLeads(s)
    ensures Aborts(s, ins) || HasZeroPair(s.issued) <==> HasZeroPair(s.issued + Partition(Pending(s) + ins))
    decreases ins
  {
    if ins == [] {
      ZeroPairEither(s.issued, Partition(Pending(s) + ins));
      assert Pending(s) + ins == Pending(s);
      if s.prev.Some? {
        AloneFirst(s.prev.value, []);
        assert [s.prev.value] + [] == [s.prev.value];
      }
    } else {
      FeedPartition(s, ins[0], ins[1..]);
      assert [ins[0]] + ins[1..] == ins;
      ZeroPairStep(s, ins[0]);
      AbortsFrom(Feed(s, ins[0]), ins[1..]);
    }
  }

  /** A block runs into the abort exactly when its partition has a pair that takes no time. */
  lemma AbortExactly(cycles: int, ins: seq<Instr>)
    ensures Aborts(Begin(cycles), ins) <==> HasZeroPair(Partition(ins))
  {
    AbortsFrom(Begin(cycles), ins);
    assert [] + ins == ins && [] + Partition(ins) == Partition(ins);
  }

  /** Never with well-formed tables: what leads a pair takes time. */
  lemma AbortUnreachable(cycles: int, ins: seq<Instr>)
    requires forall i | i in ins :: WellFormed(i)
    ensures !Aborts(Begin(cycles), ins)
  {
    AbortExactly(cycles, ins);
    PartitionFlattens(ins);
    var gs := Partition(ins);
    forall g | g in gs
      ensures !ZeroPair(g)
    {
      var k :| 0 <= k < |gs| && gs[k] == g;
      PartitionLegal(ins, k);
      MembersInFlatten(gs, g);
      assert WellFormed(Lead(g));
    }
  }

  // -------- the address stalls of a pair --------

  /** A pair charges its slower half and the second's address stall, as the marks stand
      after the first's. That is the charge with both stalls, each against the marks
      the pair found, exactly when the first has none. */
  lemma PairChargeExactly(s: Sched, p: Instr, i: Instr)
    ensures RunPair(s, p, i).cycles
            == s.cycles + Max(Count(p), Count(i)) + Agi(s.modified, s.last, p).0 + Agi(s.modified, s.last, i).0
       <==> Agi(s.modified, s.last, p).0 == 0
  {
  }

  /** Working out the first's stall hides one or two cycles of the second's exactly when
      both address through a register that the group before modified. */
  lemma HiddenStallExactly(s: Sched, p: Instr, i: Instr)
    ensures Agi(Agi(s.modified, s.last, p).1, s.last, i).0 != Agi(s.modified, s.last, i).0
       <==> Agi(s.modified, s.last, p).0 == 2 && Agi(s.modified, s.last, i).0 == 2
  {
  }

  lemma FeedBuffers(s: Sched, i: Instr)
    requires BufferLeads(s)
    ensures BufferLeads(Feed(s, i))
  {
  }

  // -------- cycle totals --------

  function GroupCount(g: Group): nat {
    match g
    case Alone(i) => Count(i)
    case Two(a, b) => Max(Count(a), Count(b))
  }

  /** The number of groups that take any time. */
  function Busy(gs: seq<Group>): nat {
    if gs == [] then 0 else Busy(gs[..|gs| - 1]) + if GroupCount(gs[|gs| - 1]) > 0 then 1 else 0
  }

  function Budget(ins: seq<Instr>): nat {
    if ins == [] then 0
    else Count(ins[0]) + PrefixDelay(ins[0].prefixes) + 3 + Budget(ins[1..])
  }

  /** A cycle at least for every group that takes time, even after the pending
      negative delay of a buffered instruction is taken off. */
  ghost predicate Floor(s: Sched, start: int) {
    && s.cycles >= start + Busy(s.issued)
    && (s.prev.Some? ==> s.cycles + s.delay >= start + Busy(s.issued))
  }

  lemma AloneFloor(s: Sched, i: Instr, start: int)
    requires s.cycles >= start + Busy(s.issued) && s.cycles + s.delay >= start + Busy(s.issued)
    ensures var t := RunAlone(s, i);
            t.cycles >= start + Busy(t.issued) && t.cycles + t.delay >= start + Busy(t.issued)
  {
    assert (s.issued + [Alone(i)])[..|s.issued|] == s.issued;
  }

  lemma FeedFloor(s: Sched, i: Instr, start: int)
    requires Floor(s, start)
    ensures Floor(Feed(s, i), start)
  {
    var d := Decoded(s, i);
    var s0 := d.(delay := Max(0, d.delay - 1));
    match s.prev {
      case Some(p) =>
        if CanFollow(p, i) {
          assert (s.issued + [Two(p, i)])[..|s.issued|] == s.issued;
        } else {
          AloneFloor(s0, p, start);
          if !CanLead(i) {
            AloneFloor(RunAlone(s0, p), i, start);
          }
        }
      case None =>
        if !CanLead(i) {
          AloneFloor(s0, i, start);
        }
    }
  }

  lemma {:induction false} FeedAllFloor(s: Sched, ins: seq<Instr>, start: int)
    requires Floor(s, start)
    ensures Floor(FeedAll(s, ins), start)
    decreases ins
  {
    if ins != [] {
      FeedFloor(s, ins[0], start);
      FeedAllFloor(Feed(s, ins[0]), ins[1..], start);
    }
  }

  /** What has been charged, with the buffered instruction's own count still to come. */
  ghost predicate Ceiling(s: Sched, bound: int) {
    match s.prev
    case None => s.cycles <= bound
    case Some(p) => WellFormed(p) && CanLead(p)
                    && s.cycles + Count(p) + s.delay <= bound && s.cycles + Count(p) + 3 <= bound
  }

  lemma PairCeiling(s: Sched, p: Instr, i: Instr)
    ensures RunPair(s, p, i).cycles <= s.cycles + Count(p) + Count(i) + 2 && RunPair(s, p, i).prev == None
  {
  }

  lemma FeedCeiling(s: Sched, i: Instr, bound: int)
    requires Ceiling(s, bound) && WellFormed(i)
    ensures Ceiling(Feed(s, i), bound + Count(i) + PrefixDelay(i.prefixes) + 3)
  {
    var d := Decoded(s, i);
    var s0 := d.(delay := Max(0, d.delay - 1));
    if s.prev.Some? && CanFollow(s.prev.value, i) {
      PairCeiling(s0, s.prev.value, i);
    }
  }

  lemma {:induction false} FeedAllCeiling(s: Sched, ins: seq<Instr>, bound: int)
    requires Ceiling(s, bound) && forall i | i in ins :: WellFormed(i)
    ensures Ceiling(FeedAll(s, ins), bound + Budget(ins))
    decreases ins
  {
    if ins != [] {
      FeedCeiling(s, ins[0], bound);
      FeedAllCeiling(Feed(s, ins[0]), ins[1..], bound + Count(ins[0]) + PrefixDelay(ins[0].prefixes) + 3);
    }
  }

  /** A block costs at least one cycle for every group that takes time, and at most
      its instruction counts and penalised prefixes plus three cycles an instruction. */
  lemma BlockCyclesSound(cycles: int, ins: seq<Instr>)
    ensures Block(cycles, ins).cycles >= cycles + Busy(Partition(ins))
    ensures (forall i | i in ins :: WellFormed(i)) ==> Block(cycles, ins).cycles <= cycles + Budget(ins)
  {
    BlockIssuesPartition(cycles, ins);
    FeedAllFloor(Begin(cycles), ins, cycles);
    var t := FeedAll(Begin(cycles), ins);
    if t.prev.Some? {
      assert (t.issued + [Alone(t.prev.value)])[..|t.issued|] == t.issued;
    }
    if forall i | i in ins :: WellFormed(i) {
      FeedAllCeiling(Begin(cycles), ins, cycles);
    }
  }

  lemma {:induction false} BusyAll(gs: seq<Group>)
    requires forall g | g in gs :: GroupCount(g) > 0
    ensures Busy(gs) == |gs|
  {
    if gs != [] {
      BusyAll(gs[..|gs| - 1]);
    }
  }

  /** Two pipes: when every instruction takes time, n instructions cost n / 2 cycles at least. */
  lemma BlockThroughput(cycles: int, ins: seq<Instr>)
    requires forall i | i in ins :: Count(i) > 0
    ensures 2 * (Block(cycles, ins).cycles - cycles) >= |ins|
  {
    BlockCyclesSound(cycles, ins);
    PartitionFlattens(ins);
    PartitionSize(ins);
    forall g | g in Partition(ins)
      ensures GroupCount(g) > 0
    {
      MembersInFlatten(Partition(ins), g);
    }
    BusyAll(Partition(ins));
  }

  lemma {:induction false} MembersInFlatten(gs: seq<Group>, g: Group)
    requires g in gs
    ensures forall i | i in Members(g) :: i in Flatten(gs)
    ensures Lead(g) in Flatten(gs)
  {
    if g != gs[0] {
      MembersInFlatten(gs[1..], g);
    } else {
      assert Lead(g) == Members(g)[0];
    }
  }

  // -------- dependences --------

  /** The second of a pair reads no register that the first writes, neither as an operand
      nor, with 32-bit addressing, for its address: nothing the first leaves in such a
      register moves that address. SIB forms with base field 5 are not covered. */
  ghost predicate Independent(p: Instr, i: Instr) {
    forall b: nat | Writes(p.deps, p.fetchdat, p.bit8, b) :: Unaffected(i, b)
  }

  ghost predicate Unaffected(i: Instr, b: nat) {
    && !ReadsOperand(i.deps, i.fetchdat, i.bit8, b)
    && (AddressKnown(i) && b < 8 ==> !Reads(i.fetchdat, b))
  }

  predicate AddressKnown(i: Instr) {
    && i.deps.modrm && i.addr32 && i.fetchdat / 64 % 4 != 3
    && !(i.fetchdat % 8 == 4 && i.fetchdat / 0x100 % 8 == 5)
  }

  lemma OutsideSource(i: Instr, b: nat)
    requires b !in Src(i)
    ensures Unaffected(i, b)
  {
    SrcNames(i.deps, i.fetchdat, i.bit8, i.addr32, b);
    if AddressKnown(i) && b < 8 {
      AddressMaskExactly(i.deps, i.fetchdat);
    }
  }

  lemma LegalIndependent(p: Instr, i: Instr)
    requires Dst(p) * Src(i) == {}
    ensures Independent(p, i)
  {
    forall b: nat | Writes(p.deps, p.fetchdat, p.bit8, b)
      ensures Unaffected(i, b)
    {
      DstNames(p.deps, p.fetchdat, p.bit8, b);
      assert b in Dst(p) && b !in Dst(p) * Src(i);
      OutsideSource(i, b);
    }
  }

  /** In every block, every issued pair is independent. */
  lemma BlockIndependent(cycles: int, ins: seq<Instr>, k: nat)
    requires k < |Block(cycles, ins).issued| && Block(cycles, ins).issued[k].Two?
    ensures var g := Block(cycles, ins).issued[k]; Independent(g.first, g.second)
  {
    BlockIssuesPartition(cycles, ins);
    PartitionLegal(ins, k);
    LegalIndependent(Partition(ins)[k].first, Partition(ins)[k].second);
  }

  /** The address stall of i: two cycles when its address mask meets what the group before
      modified, one when it meets only the group before that. */
  lemma StallExactly(modified: Mask, last: Mask, i: Instr)
    requires AddressKnown(i) && !i.deps.implEsp
    ensures Agi(modified, last, i).0 == 2 <==> exists b :: b in modified && b < 8 && Reads(i.fetchdat, b)
    ensures Agi(modified, last, i).0 == 0
       <==> forall b :: b in modified || b in last ==> !(b < 8 && Reads(i.fetchdat, b))
    ensures Agi(modified, last, i).0 <= 2
    ensures Agi(modified, last, i).1 == if Agi(modified, last, i).0 == 2 then {} else modified
  {
    var addr := AddrRegmask(i.deps, i.fetchdat, true);
    AddressMaskExactly(i.deps, i.fetchdat);
    AddrNarrow(i.deps, i.fetchdat, true);
    forall b: nat
      ensures b in addr <==> b < 8 && Reads(i.fetchdat, b)
    {
      AddrNames(i.deps, i.fetchdat, b);
    }
    forall b | b in modified && b in addr
      ensures b in modified * addr
    {
    }
    forall b | b in last && b in addr
      ensures b in last * addr
    {
    }
    if modified * addr != {} {
      var b :| b in modified * addr;
    } else if last * addr != {} {
      var b :| b in last * addr;
    }
  }
}

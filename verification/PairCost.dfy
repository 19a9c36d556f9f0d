/** What a block costs, read off its partition group by group, and that the online
    scheduler charges exactly that. */
module PairCost {
  import opened Words
  import opened TimingMasks
  import opened PairSpec
  import opened PairTheorems

  /** The decode delay of an instruction: one cycle for every penalised prefix but the first. */
  function Decode(i: Instr): nat {
    if PrefixDelay(i.prefixes) > 1 then PrefixDelay(i.prefixes) - 1 else 0
  }

  /** The cycles of the groups gs, where modified are the registers the group before wrote
      and last those the group before that wrote, as far as no stall has cleared them.
      owed is the delay, often negative, that an instruction left behind which was found
      unable to pair only when the first of gs came.

      A pair takes its slower half and the second's stall. An instruction alone takes its
      count, its stall and a delay: its own, or what is owed to it. One that could have led
      a pair waits for its successor and takes the successor's decode delay instead; at the
      end of the block there is none, and no stall is charged. */
  function Price(gs: seq<Group>, modified: Mask, last: Mask, owed: Option<int>): int {
    if gs == [] then 0
    else match gs[0]
      case Two(a, b) =>
        var (_, left) := Agi(modified, last, a);
        var (stall, rest) := Agi(left, last, b);
        Max(Count(a), Count(b)) + stall + Price(gs[1..], Dst(b) + Dst(a), rest, None)
      case Alone(i) =>
        var (stall, rest) := Agi(modified, last, i);
        var delay := if owed.Some? then owed.value else Decode(i);
        if !CanLead(i) then Count(i) + delay + stall + Price(gs[1..], Dst(i), rest, None)
        else if |gs| == 1 then Count(i) + delay
        else
          Count(i) + Decode(Lead(gs[1])) + stall + Price(gs[1..], Dst(i), rest, Some(1 - Count(i) + stall))
  }

  function Owed(s: Sched): Option<int> {
    if s.prev.Some? then Some(s.delay) else None
  }

  /** What is still to be charged in state s when ins are to come. */
  function ToCome(s: Sched, ins: seq<Instr>): int {
    Price(Partition(Pending(s) + ins), s.modified, s.last, Owed(s))
  }

  lemma HeadOf(i: Instr, rest: seq<Instr>)
    ensures Partition([i] + rest) != [] && Lead(Partition([i] + rest)[0]) == i
  {
    assert ([i] + rest)[0] == i;
  }

  /** Nothing owed is the same as the delay of one's own. */
  lemma OwnDelay(i: Instr, rest: seq<Instr>, modified: Mask, last: Mask)
    ensures var gs := Partition([i] + rest);
            Price(gs, modified, last, Some(Decode(i))) == Price(gs, modified, last, None)
  {
    HeadOf(i, rest);
  }

  /** What is owed counts only for an instruction issued alone at once, or last. */
  lemma NothingOwedToLeader(p: Instr, i: Instr, rest: seq<Instr>, modified: Mask, last: Mask, d: Option<int>)
    requires CanLead(p)
    ensures var gs := Partition([p] + ([i] + rest));
            Price(gs, modified, last, d) == Price(gs, modified, last, None)
  {
    var ins := [p] + ([i] + rest);
    assert ins[0] == p && ins[1] == i;
    if !CanFollow(p, i) {
      AloneFirst(p, [i] + rest);
      HeadOf(i, rest);
    }
  }

  lemma AcceptPrice(s: Sched, i: Instr, rest: seq<Instr>)
    requires s.prev == None
    ensures var t := Accept(s, i);
            t.cycles + ToCome(t, rest) == s.cycles + Price(Partition([i] + rest), s.modified, s.last, Some(s.delay))
  {
    if !CanLead(i) {
      AloneFirst(i, rest);
      assert ([Alone(i)] + Partition(rest))[1..] == Partition(rest);
      assert [] + rest == rest;
    }
  }

  lemma LeaderPrice(p: Instr, gs: seq<Group>, modified: Mask, last: Mask)
    requires CanLead(p) && gs != []
    ensures var (stall, rest) := Agi(modified, last, p);
            Price([Alone(p)] + gs, modified, last, None)
            == Count(p) + Decode(Lead(gs[0])) + stall + Price(gs, Dst(p), rest, Some(1 - Count(p) + stall))
  {
    var all := [Alone(p)] + gs;
    assert all[1..] == gs && all[1] == gs[0] && all[0] == Alone(p) && |all| > 1;
  }

  lemma AlonePrice(s: Sched, p: Instr, i: Instr, rest: seq<Instr>)
    requires CanLead(p) && !CanFollow(p, i) && s.delay == Decode(i)
    ensures var u := RunAlone(s, p);
            u.cycles + Price(Partition([i] + rest), u.modified, u.last, Some(u.delay)) ==
            s.cycles + Price(Partition([p] + ([i] + rest)), s.modified, s.last, None)
  {
    AloneFirst(p, [i] + rest);
    HeadOf(i, rest);
    LeaderPrice(p, Partition([i] + rest), s.modified, s.last);
  }

  lemma PairPrice(s: Sched, p: Instr, i: Instr, rest: seq<Instr>)
    requires CanLead(p) && CanFollow(p, i)
    ensures var t := RunPair(s, p, i);
            t.cycles + ToCome(t, rest) == s.cycles + Price(Partition([p] + ([i] + rest)), s.modified, s.last, None)
  {
    PairFirst(p, i, rest);
    assert ([Two(p, i)] + Partition(rest))[1..] == Partition(rest);
    assert [] + rest == rest;
  }

  lemma FeedPrice(s: Sched, i: Instr, rest: seq<Instr>)
    requires BufferLeads(s)
    ensures var t := Feed(s, i); t.cycles + ToCome(t, rest) == s.cycles + ToCome(s, [i] + rest)
  {
    var d := Decoded(s, i);
    var s0 := d.(delay := Max(0, d.delay - 1));
    assert s0.delay == Decode(i);
    match s.prev {
      case None =>
        assert [] + ([i] + rest) == [i] + rest;
        AcceptPrice(s0, i, rest);
        OwnDelay(i, rest, s.modified, s.last);
      case Some(p) =>
        NothingOwedToLeader(p, i, rest, s.modified, s.last, Owed(s));
        if CanFollow(p, i) {
          PairPrice(s0, p, i, rest);
        } else {
          AlonePrice(s0, p, i, rest);
          AcceptPrice(RunAlone(s0, p), i, rest);
        }
    }
  }

  lemma {:induction false} FeedAllPrice(s: Sched, ins: seq<Instr>)
    requires BufferLeads(s)
    ensures var t := FeedAll(s, ins);
            BufferLeads(t) && t.cycles + ToCome(t, []) == s.cycles + ToCome(s, ins)
    decreases ins
  {
    if ins != [] {
      assert [ins[0]] + ins[1..] == ins;
      FeedPrice(s, ins[0], ins[1..]);
      FeedBuffers(s, ins[0]);
      FeedAllPrice(Feed(s, ins[0]), ins[1..]);
    }
  }

  /** Every block costs the price of its partition. */
  lemma BlockPrice(cycles: int, ins: seq<Instr>)
    ensures Block(cycles, ins).cycles == cycles + Price(Partition(ins), {}, {}, None)
  {
    FeedAllPrice(Begin(cycles), ins);
    assert [] + ins == ins;
    var t := FeedAll(Begin(cycles), ins);
    if t.prev.Some? {
      AloneFirst(t.prev.value, []);
      assert [t.prev.value] + [] == [t.prev.value];
    }
  }
}

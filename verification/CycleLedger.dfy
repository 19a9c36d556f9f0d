/** Cycle and time-stamp accounting of the recompiling executive: no cycle is lost
    or counted twice, and exactly when the executive's loop ends. */
module CycleLedger {
  import opened Words

  /** What a block does to the cycle counter: an amount before each update_tsc call
      it makes, and what is left for the end. Interrupt entry and the like belong
      to the block they follow. */
  datatype Block = Block(mids: seq<int>, rest: int)

  function Sum(s: seq<int>): int {
    if s == [] then 0 else Sum(s[..|s| - 1]) + s[|s| - 1]
  }

  function Consumed(b: Block): int {
    Sum(b.mids) + b.rest
  }

  /** The most that any update_tsc call of the block sees consumed. */
  function Peak(mids: seq<int>): int {
    if mids == [] then 0 else Max(Peak(mids[..|mids| - 1]), Sum(mids))
  }

  /** By how much the block moves the time stamp. */
  function Charged(b: Block): int {
    if Peak(b.mids) > 0 then Max(Peak(b.mids), Consumed(b)) else Consumed(b)
  }

  predicate Monotone(b: Block) {
    b.rest >= 0 && forall i | 0 <= i < |b.mids| :: b.mids[i] >= 0
  }

  lemma {:induction false} PeakOfMonotone(mids: seq<int>)
    requires forall i | 0 <= i < |mids| :: mids[i] >= 0
    ensures Peak(mids) == Sum(mids) && Sum(mids) >= 0
  {
    if mids != [] {
      PeakOfMonotone(mids[..|mids| - 1]);
    }
  }

  /** A block moves the time stamp by exactly what it consumes unless, after some
      update_tsc call, cycles are given back below what that call saw. */
  lemma ChargedExactly(b: Block)
    ensures Charged(b) == Consumed(b) <==> Peak(b.mids) <= 0 || Peak(b.mids) <= Consumed(b)
    ensures Monotone(b) ==> Charged(b) == Consumed(b)
  {
    if Monotone(b) {
      PeakOfMonotone(b.mids);
    }
  }

  /** C's division truncates toward zero. */
  function TruncDiv(a: int, b: int): int
    requires b > 0
  {
    if a >= 0 then a / b else -(-a / b)
  }

  function Period(cycs: int, force10ms: bool): int {
    TruncDiv(cycs, if force10ms then 2000 else 200)
  }

  function Magnitude(x: int): nat {
    if x < 0 then -x else x
  }

  /** The period is a 200th of the cycles, or a 2000th in the finer setting, rounded
      towards zero. */
  lemma PeriodExactly(cycs: int, force10ms: bool)
    ensures var p, n := Period(cycs, force10ms), if force10ms then 2000 else 200;
            && n * Magnitude(p) <= Magnitude(cycs) < n * Magnitude(p) + n
            && (p == 0 || (p > 0 <==> cycs > 0))
  {
  }

  // -------- the loop as a function --------

  /** Carried cycles, cycles_main, and how many blocks have run. */
  datatype Exec = Exec(cycles: int, main: int, blocks: nat)

  type Costs = nat -> int

  ghost predicate Positive(cost: Costs) {
    forall k: nat :: cost(k) >= 1
  }

  function Inner(s: Exec, cost: Costs): (t: Exec)
    requires Positive(cost)
    ensures t.main == s.main && t.blocks >= s.blocks
    ensures s.cycles <= 0 ==> t == s
    ensures s.cycles > 0 ==> t.cycles <= 0
    decreases s.cycles
  {
    if s.cycles <= 0 then s
    else Inner(Exec(s.cycles - cost(s.blocks), s.main, s.blocks + 1), cost)
  }

  /** One turn of the outer loop, or none once cycles_main is used up. */
  function Outer(s: Exec, period: int, cost: Costs): Exec
    requires Positive(cost)
  {
    if s.main <= 0 then s
    else
      var begun := s.(cycles := s.cycles + period);
      var t := Inner(begun, cost);
      t.(main := s.main - (begun.cycles - t.cycles))
  }

  function Turns(s: Exec, period: int, cost: Costs, n: nat): Exec
    requires Positive(cost)
  {
    if n == 0 then s else Outer(Turns(s, period, cost, n - 1), period, cost)
  }

  ghost predicate Ends(s: Exec, period: int, cost: Costs)
    requires Positive(cost)
  {
    exists n: nat :: Turns(s, period, cost, n).main <= 0
  }

  lemma {:induction false} TurnsFromFirst(s: Exec, period: int, cost: Costs, n: nat)
    requires Positive(cost)
    ensures Turns(Outer(s, period, cost), period, cost, n) == Turns(s, period, cost, n + 1)
  {
    if n > 0 {
      TurnsFromFirst(s, period, cost, n - 1);
    }
  }

  /** A turn either makes progress on cycles_main or pays off carried debt. */
  lemma OuterProgress(s: Exec, period: int, cost: Costs)
    requires Positive(cost) && s.cycles <= 0 && s.main > 0 && period > 0
    ensures var t := Outer(s, period, cost);
            t.cycles <= 0 && (t.main < s.main || (t.main == s.main && t.cycles == s.cycles + period))
  {
  }

  lemma {:induction false} EndsWithPeriod(s: Exec, period: int, cost: Costs) returns (n: nat)
    requires Positive(cost) && s.cycles <= 0 && period > 0
    ensures Turns(s, period, cost, n).main <= 0
    decreases Max(s.main, 0), -s.cycles
  {
    if s.main <= 0 {
      n := 0;
    } else {
      OuterProgress(s, period, cost);
      var m := EndsWithPeriod(Outer(s, period, cost), period, cost);
      TurnsFromFirst(s, period, cost, m);
      n := m + 1;
    }
  }

  lemma {:induction false} StuckWithoutPeriod(s: Exec, period: int, cost: Costs, n: nat)
    requires Positive(cost) && s.cycles <= 0 && s.main > 0 && period <= 0
    ensures var t := Turns(s, period, cost, n);
            t.main == s.main && t.blocks == s.blocks && t.cycles == s.cycles + n * period && t.cycles <= 0
  {
    if n > 0 {
      StuckWithoutPeriod(s, period, cost, n - 1);
    }
  }

  /** The loop ends exactly when the period is positive or there is nothing to do.
      With fewer cycles than make a period, it spins without running a block. */
  lemma EndsExactly(s: Exec, period: int, cost: Costs)
    requires Positive(cost) && s.cycles <= 0
    ensures Ends(s, period, cost) <==> period > 0 || s.main <= 0
  {
    if period > 0 {
      var n := EndsWithPeriod(s, period, cost);
    } else if s.main <= 0 {
      assert Turns(s, period, cost, 0).main <= 0;
    } else {
      forall n: nat
        ensures Turns(s, period, cost, n).main > 0
      {
        StuckWithoutPeriod(s, period, cost, n);
      }
    }
  }

  // -------- the executive --------

  /** Blocks only consume, at least one cycle and at most largest. */
  ghost predicate Ordinary(blocks: nat -> Block, largest: int) {
    forall k: nat :: Monotone(blocks(k)) && 1 <= Consumed(blocks(k)) <= largest
  }

  ghost function CostOf(blocks: nat -> Block, largest: int): (cost: Costs)
    requires Ordinary(blocks, largest)
    ensures Positive(cost)
  {
    (k: nat) => Consumed(blocks(k))
  }

  class Executive {
    var cycles: int
    var cyclesMain: int
    var tsc: int
    var cyclesOld: int
    var tscOld: int

    constructor ()
      ensures cycles == 0 && cyclesMain == 0 && tsc == 0
    {
      cycles, cyclesMain, tsc, cyclesOld, tscOld := 0, 0, 0, 0, 0;
    }

    method UpdateTsc()
      requires tscOld <= tsc
      modifies this`tsc
      ensures tsc == tscOld + Max(old(tsc) - tscOld, cyclesOld - cycles)
    {
      var cycdiff := cyclesOld - cycles;
      var delta := tsc - tscOld;
      if delta > 0 {
        cycdiff := cycdiff - delta;
      }
      if cycdiff > 0 {
        tsc := tsc + cycdiff;
      }
    }

    method RunBlock(b: Block)
      modifies this
      ensures cyclesMain == old(cyclesMain)
      ensures cycles == old(cycles) - Consumed(b)
      ensures tsc == old(tsc) + Charged(b)
    {
      var oldcyc := cycles;
      cyclesOld := cycles;
      var oldtsc := tsc;
      tscOld := tsc;
      for i := 0 to |b.mids|
        invariant cyclesOld == oldcyc && tscOld == oldtsc && cyclesMain == old(cyclesMain)
        invariant cycles == oldcyc - Sum(b.mids[..i])
        invariant tsc == oldtsc + Peak(b.mids[..i]) && Peak(b.mids[..i]) >= 0
      {
        assert b.mids[..i + 1][..i] == b.mids[..i];
        cycles := cycles - b.mids[i];
        UpdateTsc();
      }
      assert b.mids[..|b.mids|] == b.mids;
      cycles := cycles - b.rest;

      var cycdiff := oldcyc - cycles;
      var delta := tsc - oldtsc;
      if delta > 0 {
        cycdiff := cycdiff - delta;
        if cycdiff > 0 {
          tsc := tsc + cycdiff;
        }
      } else {
        tsc := tsc + cycdiff;
      }
    }

    /** Runs blocks until the period is used up. */
    method RunPeriod(blocks: nat -> Block, from: nat, ghost largest: int) returns (k: nat)
      requires Ordinary(blocks, largest)
      modifies this
      ensures cyclesMain == old(cyclesMain)
      ensures tsc - old(tsc) == old(cycles) - cycles >= 0
      ensures old(cycles) <= 0 ==> cycles == old(cycles)
      ensures old(cycles) > 0 ==> -largest < cycles <= 0
      ensures Exec(cycles, cyclesMain, k) == Inner(Exec(old(cycles), cyclesMain, from), CostOf(blocks, largest))
    {
      k := from;
      while cycles > 0
        invariant cyclesMain == old(cyclesMain) && cycles <= old(cycles)
        invariant tsc - old(tsc) == old(cycles) - cycles
        invariant cycles == old(cycles) || (old(cycles) > 0 && -largest < cycles)
        invariant Inner(Exec(cycles, cyclesMain, k), CostOf(blocks, largest))
               == Inner(Exec(old(cycles), cyclesMain, from), CostOf(blocks, largest))
        decreases cycles
      {
        assert Monotone(blocks(k)) && 1 <= Consumed(blocks(k)) <= largest;
        ChargedExactly(blocks(k));
        RunBlock(blocks(k));
        k := k + 1;
      }
    }

    /** One turn of the outer loop: it uses up cycles, or pays off a period of debt. */
    method RunTurn(period: int, blocks: nat -> Block, from: nat, ghost largest: int) returns (k: nat)
      requires Ordinary(blocks, largest) && cycles <= 0 && period > 0 && cyclesMain > 0
      modifies this
      ensures tsc - old(tsc) == old(cyclesMain) - cyclesMain && cycles <= 0
      ensures cyclesMain < old(cyclesMain) || (cyclesMain == old(cyclesMain) && cycles == old(cycles) + period)
      ensures cyclesMain == old(cyclesMain) || cyclesMain > old(cyclesMain) - period - largest
      ensures Exec(cycles, cyclesMain, k)
           == Outer(Exec(old(cycles), old(cyclesMain), from), period, CostOf(blocks, largest))
    {
      cycles := cycles + period;
      var cyclesStart := cycles;
      k := RunPeriod(blocks, from, largest);
      cyclesMain := cyclesMain - (cyclesStart - cycles);
    }

    /** blocks(k) is the k-th block that runs; largest bounds the cost of any block. */
    method Execute(cycs: int, force10ms: bool, blocks: nat -> Block, ghost largest: int) returns (ghost turns: nat)
      requires Ordinary(blocks, largest)
      requires cycles <= 0
      requires Period(cycs, force10ms) > 0 || cyclesMain + cycs <= 0
      modifies this
      ensures tsc - old(tsc) == old(cyclesMain) + cycs - cyclesMain
      ensures cycles <= 0 && cyclesMain <= 0
      ensures old(cyclesMain) + cycs <= 0 ==> cyclesMain == old(cyclesMain) + cycs
      ensures old(cyclesMain) + cycs > 0 ==> cyclesMain > 1 - Period(cycs, force10ms) - largest
      ensures var s := Turns(Exec(old(cycles), old(cyclesMain) + cycs, 0), Period(cycs, force10ms),
                             CostOf(blocks, largest), turns);
              s.cycles == cycles && s.main == cyclesMain
    {
      var period := Period(cycs, force10ms);
      cyclesMain := cyclesMain + cycs;
      var k: nat := 0;
      turns := 0;
      ghost var s0 := Exec(cycles, cyclesMain, 0);
      assert 1 <= Consumed(blocks(0)) <= largest;
      while cyclesMain > 0
        invariant cycles <= 0 && (period > 0 || cyclesMain <= 0)
        invariant tsc - old(tsc) == s0.main - cyclesMain
        invariant cyclesMain == s0.main || (s0.main > 0 && cyclesMain > 1 - period - largest)
        invariant Turns(s0, period, CostOf(blocks, largest), turns) == Exec(cycles, cyclesMain, k)
        decreases cyclesMain, -cycles
      {
        k := RunTurn(period, blocks, k, largest);
        turns := turns + 1;
      }
    }
  }
}

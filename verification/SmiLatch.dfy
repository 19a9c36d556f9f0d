/** SMI latching over all runs: which SMIs are served, which wait, which merge. */
module SmiLatch {
  import opened CpuModel
  import opened SmmSpec

  /** Idle stands for whatever else the processor does between events of the latch. */
  datatype Event = Raise | CheckLine(inHlt: bool) | ResumeSmm | Idle

  /** The latch with three tallies: SMIs taken off the line, entries into SMM, and
      SMIs merged into one that was already waiting or being served as the second. */
  datatype Ledger = Ledger(latch: Latch, accepted: nat, entries: nat, merged: nat)

  function Apply(g: Ledger, e: Event): Ledger {
    var l := g.latch;
    match e
    case Idle => g
    case Raise => g.(latch := l.(line := true))
    case CheckLine(inHlt) =>
      if !l.line then g
      else if l.inSmm == 1 then
        g.(latch := l.(latched := true, line := false), accepted := g.accepted + 1,
           merged := g.merged + if l.latched then 1 else 0)
      else if l.inSmm == 2 then
        g.(latch := l.(line := false), accepted := g.accepted + 1, merged := g.merged + 1)
      else
        g.(latch := EnterLatch(l, inHlt).(line := false), accepted := g.accepted + 1, entries := g.entries + 1)
    case ResumeSmm =>
      if l.inSmm == 0 then g
      else
        var out := l.(inSmm := 0, nmiMask := true);
        if l.latched then g.(latch := EnterLatch(out, l.inHlt), entries := g.entries + 1)
        else g.(latch := out)
  }

  function ApplyAll(g: Ledger, es: seq<Event>): Ledger {
    if es == [] then g else Apply(ApplyAll(g, es[..|es| - 1]), es[|es| - 1])
  }

  lemma EntryLatch(s: Cpu, inHlt: bool)
    ensures Enter(s, inHlt).latch == EnterLatch(s.latch, inHlt)
  {
    EnteredParts(s);
  }

  lemma ExitLatch(s: Cpu)
    ensures Leave(s).latch == s.latch.(inSmm := 0, nmiMask := true)
  {
  }

  /** The ledger's latch is the processor's. */
  lemma LedgerFollowsCheck(s: Cpu, inHlt: bool, g: Ledger)
    requires g.latch == s.latch
    ensures Apply(g, CheckLine(inHlt)).latch == Check(s, inHlt).latch
  {
    if s.latch.line && s.latch.inSmm != 1 && s.latch.inSmm != 2 {
      EntryLatch(s, inHlt);
    } else if s.latch.inSmm == 1 {
    }
  }

  lemma LedgerFollowsRelatch(g: Ledger, t: Cpu)
    requires g.latch.inSmm != 0 && t.latch == g.latch.(inSmm := 0, nmiMask := true)
    ensures Apply(g, ResumeSmm).latch == Relatched(t).latch
  {
    if t.latch.latched {
      EntryLatch(t, t.latch.inHlt);
    }
  }

  /** RSM moves both latches alike; outside SMM it is illegal and moves neither. */
  lemma LedgerFollowsResume(s: Cpu, g: Ledger)
    requires g.latch == s.latch
    ensures Apply(g, ResumeSmm).latch == if s.latch.inSmm != 0 then Rsm(s).latch else s.latch
  {
    if s.latch.inSmm != 0 {
      var t := LeftState(s);
      LedgerFollowsRelatch(g, t);
    }
  }

  lemma LeftState(s: Cpu) returns (t: Cpu)
    requires s.latch.inSmm != 0
    ensures Relatched(t) == Rsm(s) && t.latch == s.latch.(inSmm := 0, nmiMask := true)
  {
    t := Leave(s);
    ExitLatch(s);
  }

  predicate Sound(g: Ledger) {
    && 0 <= g.latch.inSmm <= 2
    && (g.latch.latched ==> g.latch.inSmm == 1)
    && (g.latch.inSmm != 0 ==> !g.latch.nmiMask)
    && g.accepted == g.entries + g.merged + if g.latch.latched then 1 else 0
  }

  /** In every run: SMM is not nested deeper than the latched second SMI, which can
      latch no third; NMIs are masked throughout; and every SMI taken off the line
      has been served, is waiting, or was merged. */
  lemma {:induction false} LedgerSound(g: Ledger, es: seq<Event>)
    requires Sound(g)
    ensures Sound(ApplyAll(g, es))
    ensures ApplyAll(g, es).latch.inSmm == 2 ==> !ApplyAll(g, es).latch.latched
  {
    if es != [] {
      LedgerSound(g, es[..|es| - 1]);
    }
  }

  /** No SMI is merged while none is being served: from outside SMM the next SMI is
      served at once, and one more may wait. */
  lemma TwoSmisServed(g: Ledger, inHlt: bool)
    requires Sound(g) && g.latch.inSmm == 0
    ensures var first := ApplyAll(g, [Raise, CheckLine(inHlt)]);
            var second := ApplyAll(first, [Raise, CheckLine(inHlt)]);
            var served := Apply(second, ResumeSmm);
            && first.latch.inSmm == 1 && second.latch.latched
            && served.latch.inSmm == 2 && served.entries == g.entries + 2 && served.merged == g.merged
            && Apply(served, ResumeSmm).latch.inSmm == 0
  {
    var es := [Raise, CheckLine(inHlt)];
    assert es[..1] == [Raise] && [Raise][..0] == [];
    var first := Apply(Apply(g, Raise), CheckLine(inHlt));
    assert ApplyAll(g, [Raise]) == Apply(ApplyAll(g, []), Raise);
    assert ApplyAll(g, es) == first;
    assert ApplyAll(first, [Raise]) == Apply(ApplyAll(first, []), Raise);
    assert ApplyAll(first, es) == Apply(Apply(first, Raise), CheckLine(inHlt));
  }

  lemma {:induction false} RaisesMerge(g: Ledger, n: nat, inHlt: bool)
    ensures n > 0 ==> ApplyAll(g, seq(n, _ => Raise)) == g.(latch := g.latch.(line := true))
    ensures n > 0 ==> var t := Apply(ApplyAll(g, seq(n, _ => Raise)), CheckLine(inHlt));
                      t.accepted == g.accepted + 1 && !t.latch.line
    ensures n == 0 ==> ApplyAll(g, seq(n, _ => Raise)) == g
  {
    var es: seq<Event> := seq(n, _ => Raise);
    if n > 0 {
      RaisesMerge(g, n - 1, inHlt);
      assert es[..n - 1] == seq(n - 1, _ => Raise);
    }
  }

  // -------- runs of the processor --------

  /** One step of the processor. An idle step does anything that leaves the latch alone. */
  ghost predicate Next(s: Cpu, e: Event, t: Cpu) {
    match e
    case Raise => t == s.(latch := s.latch.(line := true))
    case CheckLine(inHlt) => t == Check(s, inHlt)
    case ResumeSmm => t == if s.latch.inSmm != 0 then Rsm(s) else s
    case Idle => t.latch == s.latch
  }

  ghost predicate Run(states: seq<Cpu>, es: seq<Event>) {
    && |states| == |es| + 1
    && forall i | 0 <= i < |es| :: Next(states[i], es[i], states[i + 1])
  }

  lemma LedgerFollows(s: Cpu, e: Event, t: Cpu, g: Ledger)
    requires Next(s, e, t) && g.latch == s.latch
    ensures Apply(g, e).latch == t.latch
  {
    match e
    case Raise =>
    case CheckLine(inHlt) => LedgerFollowsCheck(s, inHlt, g);
    case ResumeSmm => LedgerFollowsResume(s, g);
    case Idle =>
  }

  lemma {:induction false} LedgerFollowsRun(states: seq<Cpu>, es: seq<Event>, g: Ledger, i: nat)
    requires Run(states, es) && i < |states| && g.latch == states[0].latch
    ensures ApplyAll(g, es[..i]).latch == states[i].latch
  {
    if i > 0 {
      LedgerFollowsRun(states, es, g, i - 1);
      assert es[..i][..i - 1] == es[..i - 1];
      LedgerFollows(states[i - 1], es[i - 1], states[i], ApplyAll(g, es[..i - 1]));
    }
  }

  /** In every run of the processor from a sound latch: SMM is entered no deeper than
      the second SMI, nothing is latched there, NMIs are masked throughout, and every
      SMI taken off the line so far was served, is waiting, or was merged. */
  lemma RunSound(states: seq<Cpu>, es: seq<Event>, g: Ledger, i: nat)
    requires Run(states, es) && i < |states| && g.latch == states[0].latch && Sound(g)
    ensures var l, now := states[i].latch, ApplyAll(g, es[..i]);
            && 0 <= l.inSmm <= 2
            && (l.latched ==> l.inSmm == 1)
            && (l.inSmm != 0 ==> !l.nmiMask)
            && now.accepted == now.entries + now.merged + if l.latched then 1 else 0
  {
    LedgerFollowsRun(states, es, g, i);
    LedgerSound(g, es[..i]);
  }
}

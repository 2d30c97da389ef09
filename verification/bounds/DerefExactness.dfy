/** What the bytes-left monitor of benchmarks/seahorn/abc/abc4.c reports, exactly. Its own checks are those of the
    reference monitor without underflow checks, plus the underflow check at the base of the tracked block. */
module DerefExactness {
  import opened BoundsProgram
  import opened MonitorSoundness
  import opened MonitorCompleteness
  import opened MonitorExactness
  import Boundary = MonitorBoundary
  import Ref = OffsetMonitor
  import D = DerefMonitor

  function Upward(cfg: Config): Config {
    cfg.(disableUnderflow := true)
  }

  /** The underflow check that is left: at the base of the tracked block. */
  predicate BelowBase(cfg: Config, r: Ref.State, e: Event) {
    !cfg.disableUnderflow && r.active && e.AssertValidPtr? && e.base == r.base && e.offset < 0
  }

  lemma StepIsUpward(cfg: Config, s: D.State, r: Ref.State, e: Event, c: Choice)
    requires D.Related(s, r)
    ensures D.Step(cfg, s, e, c) == Error <==> Ref.Step(Upward(cfg), r, e, c) == Error || BelowBase(cfg, r, e)
    ensures D.Step(cfg, s, e, c) == Error || D.SameVerdict(D.Step(cfg, s, e, c), Ref.Step(Upward(cfg), r, e, c))
  {
  }

  ghost predicate Shadowed(o: Outcome<D.State>, q: Outcome<Ref.State>) {
    match (o, q)
    case (Failed(_), _) => true
    case (Alive(s), Alive(r)) => D.Related(s, r)
    case (Pruned(i), Pruned(j)) => i == j
    case _ => false
  }

  /** As long as it has not failed, the bytes-left monitor runs as the reference monitor without underflow checks. */
  lemma {:induction false} RunIsUpward(cfg: Config, g: Guess, es: seq<Event>, cs: seq<Choice>, i: nat)
    requires i <= |es| == |cs|
    ensures Shadowed(D.Run(cfg, g, es, cs, i), Ref.Run(Upward(cfg), g, es, cs, i))
  {
    if i > 0 {
      RunIsUpward(cfg, g, es, cs, i - 1);
      var s, r := D.Run(cfg, g, es, cs, i - 1), Ref.Run(Upward(cfg), g, es, cs, i - 1);
      if s.Alive? && r.Alive? {
        StepIsUpward(cfg, s.s, r.s, es[i - 1], cs[i - 1]);
      }
    }
  }

  lemma {:induction false} FailsEarlier(cfg: Config, g: Guess, es: seq<Event>, cs: seq<Choice>, i: nat)
    requires i <= |es| == |cs|
    ensures var r := D.Run(cfg, g, es, cs, i);
            r.Failed? ==> r.at < i && D.Run(cfg, g, es, cs, r.at).Alive? &&
                          D.Step(cfg, D.Run(cfg, g, es, cs, r.at).s, es[r.at], cs[r.at]) == Error
  {
    if i > 0 {
      FailsEarlier(cfg, g, es, cs, i - 1);
    }
  }

  /** The call is not an underflow through a pointer other than the base of its block. */
  predicate Checked(cfg: Config, prog: Program, n: nat)
    requires n < |prog|
  {
    prog[n].Access? && prog[n].p.off != 0 ==> Violates(Upward(cfg), prog, n)
  }

  ghost predicate ReportedBy(cfg: Config, prog: Program, n: nat)
    requires n < |prog|
  {
    exists layout: Layout, g: Guess, cs: seq<Choice> :: Apart(prog, layout) && FailsBy(cfg, prog, layout, g, cs, n)
  }

  ghost predicate FailsBy(cfg: Config, prog: Program, layout: Layout, g: Guess, cs: seq<Choice>, n: nat)
    requires n < |prog|
  {
    |cs| == |prog| && D.Run(cfg, g, Events(prog, layout), cs, n + 1).Failed?
  }

  lemma FailureIsReportedBy(cfg: Config, prog: Program, layout: Layout, g: Guess, cs: seq<Choice>, m: nat, n: nat)
    requires m <= n < |prog| == |cs| && Apart(prog, layout) && D.Run(cfg, g, Events(prog, layout), cs, m + 1).Failed?
    ensures ReportedBy(cfg, prog, n)
  {
    D.StoppedStays(cfg, g, Events(prog, layout), cs, m + 1, n + 1);
    assert FailsBy(cfg, prog, layout, g, cs, n);
  }

  /** What the reference monitor reports without underflow checks, this one reports as well. */
  lemma UpwardIsReported(cfg: Config, prog: Program, n: nat)
    requires n < |prog| && Boundary.ReportedBy(Upward(cfg), prog, n)
    ensures ReportedBy(cfg, prog, n)
  {
    var layout: Layout, g: Guess, cs: seq<Choice> :|
      Apart(prog, layout) && Boundary.FailsBy(Upward(cfg), prog, layout, g, cs, n);
    RunIsUpward(cfg, g, Events(prog, layout), cs, n + 1);
    assert FailsBy(cfg, prog, layout, g, cs, n);
  }

  lemma UnderflowAtBaseFails(cfg: Config, prog: Program, layout: Layout, m: nat, picks: seq<bool>)
    requires m < |prog| && Formed(prog) && Apart(prog, layout) && NonNegative(Blocks(prog, |prog|))
    requires prog[m].Access? && prog[m].p.off == 0 && prog[m].delta < 0 && !cfg.disableUnderflow
    requires Lowest(prog, layout, prog[m].p.block) && Boundary.ReadsOutside(cfg, prog, prog[m].p.block, m)
    requires picks == seq(|prog|, _ => false)
    ensures var b := prog[m].p.block;
            D.Run(cfg, Guess(layout(b), Blocks(prog, |prog|)[b]), Events(prog, layout),
                  Choices(prog, layout, b, picks), m + 1).Failed?
  {
    var b := prog[m].p.block;
    var g, es, cs := Guess(layout(b), Blocks(prog, |prog|)[b]), Events(prog, layout), Choices(prog, layout, b, picks);
    Boundary.NoPicksFit(prog, layout, b, picks, m);
    Boundary.OutsideStaysOutside(cfg, prog, layout, b, m);
    RunFollows(Upward(cfg), prog, layout, b, picks, m);
    RunIsUpward(cfg, g, es, cs, m);
    assert prog[m].p in Operand(prog[m]) && es[m] == EventAt(prog, layout, m);
    var s, r := D.Run(cfg, g, es, cs, m), Ref.Run(Upward(cfg), g, es, cs, m);
    if s.Alive? && r.Alive? {
      StepIsUpward(cfg, s.s, r.s, es[m], cs[m]);
    } else {
      RunIsUpward(cfg, g, es, cs, m + 1);
    }
  }

  lemma UnderflowAtBaseIsReported(cfg: Config, prog: Program, n: nat, m: nat)
    requires m <= n < |prog| && Formed(prog) && NonNegative(Blocks(prog, |prog|))
    requires prog[m].Access? && prog[m].p.off == 0 && prog[m].delta < 0 && !cfg.disableUnderflow
    requires Boundary.ReadsOutside(cfg, prog, prog[m].p.block, m)
    ensures ReportedBy(cfg, prog, n)
  {
    var sizes, b, gap := Blocks(prog, |prog|), prog[m].p.block, 2 * Span(prog, |prog|);
    assert prog[m].p in Operand(prog[m]);
    BlocksGrow(prog, m, |prog|);
    var layout := StackedAbove(sizes, b, gap);
    AnyBlockCanBeLowest(prog, b, gap);
    var picks := seq(|prog|, _ => false);
    UnderflowAtBaseFails(cfg, prog, layout, m, picks);
    FailureIsReportedBy(cfg, prog, layout, Guess(layout(b), sizes[b]), Choices(prog, layout, b, picks), m, n);
  }

  lemma SeenIsReported(cfg: Config, prog: Program, n: nat, m: nat)
    requires m <= n < |prog| && Formed(prog) && NonNegative(Blocks(prog, |prog|))
    requires Checked(cfg, prog, m) && Boundary.Seen(cfg, prog, m)
    ensures ReportedBy(cfg, prog, n)
  {
    if prog[m].Access? && !Violates(Upward(cfg), prog, m) {
      UnderflowAtBaseIsReported(cfg, prog, n, m);
    } else {
      assert Boundary.Seen(Upward(cfg), prog, m);
      Boundary.SeenIsReported(Upward(cfg), prog, n, m);
      UpwardIsReported(cfg, prog, n);
    }
  }

  lemma UnderflowAtBaseIsSeen(cfg: Config, g: Guess, prog: Program, layout: Layout, cs: seq<Choice>, m: nat)
    requires m < |prog| == |cs| && Formed(prog) && Apart(prog, layout) && NonNegative(Blocks(prog, |prog|))
    requires prog[m].Access? && Ref.Run(Upward(cfg), g, Events(prog, layout), cs, m).Alive?
    requires BelowBase(cfg, Ref.Run(Upward(cfg), g, Events(prog, layout), cs, m).s, EventAt(prog, layout, m))
    ensures Checked(cfg, prog, m) && Boundary.Seen(cfg, prog, m)
  {
    var p := prog[m].p;
    var b := SeparationHolds(Upward(cfg), g, prog, layout, cs, m);
    Boundary.GuessIsKept(Upward(cfg), g, Events(prog, layout), cs, m);
    assert p in Operand(prog[m]);
    BlocksGrow(prog, m, |prog|);
    SpanCovers(prog, m, |prog|);
    SameAddressSamePointer(prog, layout, p, Pointer(b, 0));
    var explained := Boundary.RunIsExplained(Upward(cfg), g, prog, layout, cs, b, m);
    var picks := seq(|prog|, _ => false);
    Boundary.NoPicksFit(prog, layout, b, picks, m);
    assert Boundary.FollowedBy(prog, m, picks);
  }

  lemma ReportedIsSeen(cfg: Config, prog: Program, layout: Layout, g: Guess, cs: seq<Choice>, n: nat) returns (m: nat)
    requires n < |prog| && Formed(prog) && NonNegative(Blocks(prog, |prog|))
    requires Apart(prog, layout) && FailsBy(cfg, prog, layout, g, cs, n)
    ensures m <= n && Checked(cfg, prog, m) && Boundary.Seen(cfg, prog, m)
  {
    var es := Events(prog, layout);
    FailsEarlier(cfg, g, es, cs, n + 1);
    m := D.Run(cfg, g, es, cs, n + 1).at;
    RunIsUpward(cfg, g, es, cs, m);
    assert es[m] == EventAt(prog, layout, m);
    var r := Ref.Run(Upward(cfg), g, es, cs, m).s;
    StepIsUpward(cfg, D.Run(cfg, g, es, cs, m).s, r, es[m], cs[m]);
    if prog[m].Store? {
      Boundary.FailingStoreIsSeen(Upward(cfg), g, prog, layout, cs, m);
    } else if prog[m].Access? {
      if BelowBase(cfg, r, es[m]) {
        UnderflowAtBaseIsSeen(cfg, g, prog, layout, cs, m);
      } else {
        Boundary.FailingAccessIsSeen(Upward(cfg), g, prog, layout, cs, m);
      }
    }
  }

  /** The exact boundary, for every program and every configuration: of what the reference monitor can see, exactly the
      underflows through pointers other than the base are lost. */
  lemma ReportedByIffSeen(cfg: Config, prog: Program, n: nat)
    requires n < |prog| && Formed(prog) && NonNegative(Blocks(prog, |prog|))
    ensures ReportedBy(cfg, prog, n) <==> exists m :: 0 <= m <= n && Checked(cfg, prog, m) && Boundary.Seen(cfg, prog, m)
  {
    if m :| 0 <= m <= n && Checked(cfg, prog, m) && Boundary.Seen(cfg, prog, m) {
      SeenIsReported(cfg, prog, n, m);
    } else if ReportedBy(cfg, prog, n) {
      var layout: Layout, g: Guess, cs: seq<Choice> :| Apart(prog, layout) && FailsBy(cfg, prog, layout, g, cs, n);
      var m := ReportedIsSeen(cfg, prog, layout, g, cs, n);
    }
  }

  ghost predicate Reported(cfg: Config, prog: Program) {
    exists layout: Layout, g: Guess, cs: seq<Choice> :: ProperLayout(prog, layout) && Fails(cfg, prog, layout, g, cs)
  }

  ghost predicate Fails(cfg: Config, prog: Program, layout: Layout, g: Guess, cs: seq<Choice>) {
    |cs| == |prog| && D.Run(cfg, g, Events(prog, layout), cs, |prog|).Failed?
  }

  lemma InsideUnderflowIsChecked(cfg: Config, g: Guess, prog: Program, layout: Layout, cs: seq<Choice>, m: nat)
    requires m < |prog| == |cs| && Formed(prog) && PointersInside(prog) && prog[m].Access?
    requires Ref.Run(Upward(cfg), g, Events(prog, layout), cs, m).Alive?
    requires BelowBase(cfg, Ref.Run(Upward(cfg), g, Events(prog, layout), cs, m).s, EventAt(prog, layout, m))
    ensures Violates(cfg, prog, m) && Checked(cfg, prog, m)
  {
    var b := SeparationHolds(Upward(cfg), g, prog, layout, cs, m);
    assert prog[m].p in Operand(prog[m]);
    assert prog[m].p.block == b;
  }

  lemma InsideFailureIsChecked(cfg: Config, prog: Program, layout: Layout, g: Guess, cs: seq<Choice>) returns (m: nat)
    requires Formed(prog) && PointersInside(prog)
    requires cfg.disableStoreBaseOnly || StoresEnds(prog)
    requires forall n :: 0 <= n < |prog| ==> !Violates(Upward(cfg), prog, n)
    requires Fails(cfg, prog, layout, g, cs)
    ensures m < |prog| && Violates(cfg, prog, m) && Checked(cfg, prog, m)
  {
    var es := Events(prog, layout);
    FailsEarlier(cfg, g, es, cs, |prog|);
    m := D.Run(cfg, g, es, cs, |prog|).at;
    RunIsUpward(cfg, g, es, cs, m);
    NoFalseAlarm(Upward(cfg), g, prog, layout, cs, m + 1);
    StepIsUpward(cfg, D.Run(cfg, g, es, cs, m).s, Ref.Run(Upward(cfg), g, es, cs, m).s, es[m], cs[m]);
    assert es[m] == EventAt(prog, layout, m);
    InsideUnderflowIsChecked(cfg, g, prog, layout, cs, m);
  }

  lemma CheckedIsReported(cfg: Config, prog: Program, n: nat)
    requires n < |prog| && Violates(cfg, prog, n) && Checked(cfg, prog, n)
    requires Formed(prog) && (cfg.baseOnly || WellLogged(prog)) && NonNegative(Blocks(prog, |prog|))
    requires cfg.disableStoreBaseOnly || (StoresEnds(prog) && ReadsWhatWasStored(prog))
    ensures Reported(cfg, prog)
  {
    if prog[n].Access? {
      assert Derived(prog, prog[n].p, n);
      Boundary.EndsAreRead(cfg, prog, prog[n].p.block, n);
      Boundary.LoggedIsSeen(cfg, prog, n);
    }
    SeenIsReported(cfg, prog, |prog| - 1, n);
    var layout: Layout, g: Guess, cs: seq<Choice> :|
      Apart(prog, layout) && FailsBy(cfg, prog, layout, g, cs, |prog| - 1);
    ApartIsProper(prog, layout);
    assert Fails(cfg, prog, layout, g, cs);
  }

  lemma ReportedIsChecked(cfg: Config, prog: Program) returns (m: nat)
    requires Formed(prog) && PointersInside(prog) && Reported(cfg, prog)
    requires cfg.disableStoreBaseOnly || StoresEnds(prog)
    ensures m < |prog| && Violates(cfg, prog, m) && Checked(cfg, prog, m)
  {
    if n :| 0 <= n < |prog| && Violates(Upward(cfg), prog, n) {
      m := n;
    } else {
      var layout: Layout, g: Guess, cs: seq<Choice> :| ProperLayout(prog, layout) && Fails(cfg, prog, layout, g, cs);
      m := InsideFailureIsChecked(cfg, prog, layout, g, cs);
    }
  }

  /** Exactness for programs whose pointers stay inside their blocks and are all logged: reported are the upward overflows,
      the underflows through the base of a block, and the overflows of known size. */
  lemma ReportedIffChecked(cfg: Config, prog: Program)
    requires Formed(prog) && PointersInside(prog) && (cfg.baseOnly || WellLogged(prog)) && NonNegative(Blocks(prog, |prog|))
    requires cfg.disableStoreBaseOnly || (StoresEnds(prog) && ReadsWhatWasStored(prog))
    ensures Reported(cfg, prog) <==> exists n :: 0 <= n < |prog| && Violates(cfg, prog, n) && Checked(cfg, prog, n)
  {
    if n :| 0 <= n < |prog| && Violates(cfg, prog, n) && Checked(cfg, prog, n) {
      CheckedIsReported(cfg, prog, n);
    } else if Reported(cfg, prog) {
      var m := ReportedIsChecked(cfg, prog);
    }
  }

  /** A missed access that a run does reach: for every block and every distance into it. */
  lemma DivergenceIsReached(cfg: Config, g: Guess, d: int)
    requires g.base > 0 && g.size >= 0 && d > 0 && !cfg.disableUnderflow && !cfg.baseOnly
    ensures var es := [Alloc(g.base, g.size), LogPtr(g.base, d), AssertValidPtr(g.base + d, -d - 1)];
            var cs := [Choice(false, g.base), Choice(false, g.base + d), Choice(false, 0)];
            D.Diverged(cfg, g, es, cs, 3)
  {
    var es := [Alloc(g.base, g.size), LogPtr(g.base, d), AssertValidPtr(g.base + d, -d - 1)];
    var cs := [Choice(false, g.base), Choice(false, g.base + d), Choice(false, 0)];
    assert Ref.Run(cfg, g, es, cs, 0) == Alive(Ref.State(g.base, 0, 0, g.size, false));
    assert Ref.Run(cfg, g, es, cs, 1) == Alive(Ref.State(g.base, g.base, 0, g.size, true));
    assert Ref.Run(cfg, g, es, cs, 2) == Alive(Ref.State(g.base, g.base + d, d, g.size, true));
    assert Ref.Run(cfg, g, es, cs, 3) == Failed(2);
    assert D.Run(cfg, g, es, cs, 0) == Alive(D.State(g.base, 0, 0, g.size, false));
    assert D.Run(cfg, g, es, cs, 1) == Alive(D.State(g.base, g.base, g.size, g.size, true));
    assert D.Run(cfg, g, es, cs, 2) == Alive(D.State(g.base, g.base + d, g.size - d, g.size, true));
  }
}

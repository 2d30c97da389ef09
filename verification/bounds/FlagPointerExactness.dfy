/** What the monitor of benchmarks/seahorn/abc/abc.c reports of programs whose pointers stay inside their blocks: the same
    as the reference monitor. */
module FlagPointerExactness {
  import opened BoundsProgram
  import opened MonitorSoundness
  import E = MonitorExactness
  import F = FlagPointerMonitor
  import Ref = OffsetMonitor

  /** No move inside a block lands on address 0. */
  lemma InsideMissesNull(cfg: Config, prog: Program, layout: Layout, i: nat, s: Ref.State, b: nat, c: Choice)
    requires i < |prog| && Formed(prog) && PointersInside(prog) && Separated(prog, layout, i, s, b)
    requires s.active ==> Within(s.offset, s.size)
    ensures !F.LandsOnNull(cfg, s, EventAt(prog, layout, i), c)
  {
    assert prog[i].Move? ==> prog[i].p in Operand(prog[i]);
  }

  /** Whatever the layout, the guesses and the choices, the two monitors run alike, legal accesses or not. */
  lemma InsideRunsAgree(cfg: Config, g: Guess, prog: Program, layout: Layout, cs: seq<Choice>, i: nat)
    requires i <= |prog| == |cs| && Formed(prog) && PointersInside(prog)
    ensures F.SameOutcome(F.Run(cfg, g, Events(prog, layout), cs, i),
                          Ref.Run(F.NoStoreChecks(cfg), g, Events(prog, layout), cs, i))
  {
    var es := Events(prog, layout);
    forall j | 0 <= j < i && Ref.Run(F.NoStoreChecks(cfg), g, es, cs, j).Alive?
      ensures !F.LandsOnNull(cfg, Ref.Run(F.NoStoreChecks(cfg), g, es, cs, j).s, es[j], cs[j])
    {
      var b := SeparationHolds(F.NoStoreChecks(cfg), g, prog, layout, cs, j);
      StaysInside(F.NoStoreChecks(cfg), g, prog, layout, cs, j);
      InsideMissesNull(cfg, prog, layout, j, Ref.Run(F.NoStoreChecks(cfg), g, es, cs, j).s, b, cs[j]);
      assert es[j] == EventAt(prog, layout, j);
    }
    F.RunsAgree(cfg, g, es, cs, i);
  }

  ghost predicate Reported(cfg: Config, prog: Program) {
    exists layout: Layout, g: Guess, cs: seq<Choice> :: ProperLayout(prog, layout) && Fails(cfg, prog, layout, g, cs)
  }

  ghost predicate Fails(cfg: Config, prog: Program, layout: Layout, g: Guess, cs: seq<Choice>) {
    |cs| == |prog| && F.Run(cfg, g, Events(prog, layout), cs, |prog|).Failed?
  }

  lemma SameFailures(cfg: Config, prog: Program, layout: Layout, g: Guess, cs: seq<Choice>)
    requires Formed(prog) && PointersInside(prog)
    ensures Fails(cfg, prog, layout, g, cs) <==> E.Fails(F.NoStoreChecks(cfg), prog, layout, g, cs)
  {
    if |cs| == |prog| {
      InsideRunsAgree(cfg, g, prog, layout, cs, |prog|);
    }
  }

  /** The two monitors report the same of these programs. */
  lemma SameReports(cfg: Config, prog: Program)
    requires Formed(prog) && PointersInside(prog)
    ensures Reported(cfg, prog) <==> E.Reported(F.NoStoreChecks(cfg), prog)
  {
    if Reported(cfg, prog) {
      var layout: Layout, g: Guess, cs: seq<Choice> :| ProperLayout(prog, layout) && Fails(cfg, prog, layout, g, cs);
      SameFailures(cfg, prog, layout, g, cs);
    }
    if E.Reported(F.NoStoreChecks(cfg), prog) {
      var layout: Layout, g: Guess, cs: seq<Choice> :|
        ProperLayout(prog, layout) && E.Fails(F.NoStoreChecks(cfg), prog, layout, g, cs);
      SameFailures(cfg, prog, layout, g, cs);
    }
  }

  /** So it is exact as well: reported are the programs with an access that leaves its block. */
  lemma ReportedIffViolated(cfg: Config, prog: Program)
    requires Formed(prog) && PointersInside(prog) && (cfg.baseOnly || WellLogged(prog)) && NonNegative(Blocks(prog, |prog|))
    ensures Reported(cfg, prog) <==> exists n :: 0 <= n < |prog| && Violates(cfg, prog, n)
  {
    var ref := F.NoStoreChecks(cfg);
    SameReports(cfg, prog);
    E.ReportedIffViolated(ref, prog);
    assert forall n :: 0 <= n < |prog| ==> (Violates(cfg, prog, n) <==> Violates(ref, prog, n));
  }
}

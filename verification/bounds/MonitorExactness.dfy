/** What the reference monitor reports, exactly: soundness and completeness put together. */
module MonitorExactness {
  import opened BoundsProgram
  import opened OffsetMonitor
  import opened MonitorSoundness
  import opened MonitorCompleteness

  /** Some run of the instrumented program fails an assert, with the blocks placed disjointly. */
  ghost predicate Reported(cfg: Config, prog: Program) {
    exists layout: Layout, g: Guess, cs: seq<Choice> :: ProperLayout(prog, layout) && Fails(cfg, prog, layout, g, cs)
  }

  ghost predicate Fails(cfg: Config, prog: Program, layout: Layout, g: Guess, cs: seq<Choice>) {
    |cs| == |prog| && Run(cfg, g, Events(prog, layout), cs, |prog|).Failed?
  }

  lemma FailureIsReported(cfg: Config, prog: Program, layout: Layout, g: Guess, cs: seq<Choice>, i: nat)
    requires i <= |prog| == |cs| && ProperLayout(prog, layout) && Run(cfg, g, Events(prog, layout), cs, i).Failed?
    ensures Reported(cfg, prog)
  {
    StoppedStays(cfg, g, Events(prog, layout), cs, i, |prog|);
    assert Fails(cfg, prog, layout, g, cs);
  }

  /** The pointers held by the memory cells after the first `i` calls. */
  function Cells(prog: Program, i: nat): map<int, Pointer>
    requires i <= |prog|
  {
    if i == 0 then map[]
    else if prog[i - 1].Store? then Cells(prog, i - 1)[prog[i - 1].cell := prog[i - 1].value]
    else Cells(prog, i - 1)
  }

  ghost predicate ReadsWhatWasStored(prog: Program) {
    forall i :: 0 <= i < |prog| && prog[i].Load? ==>
      prog[i].cell in Cells(prog, i) && prog[i].lhs == Cells(prog, i)[prog[i].cell]
  }

  lemma {:induction false} CellsArePlaced(prog: Program, layout: Layout, i: nat)
    requires i <= |prog|
    ensures Memory(Events(prog, layout), i).Keys == Cells(prog, i).Keys
    ensures forall cell :: cell in Cells(prog, i) ==> Memory(Events(prog, layout), i)[cell] == At(layout, Cells(prog, i)[cell])
  {
    if i > 0 {
      CellsArePlaced(prog, layout, i - 1);
      assert Events(prog, layout)[i - 1] == EventAt(prog, layout, i - 1);
    }
  }

  lemma EndsAreNotBelow(cfg: Config, prog: Program)
    requires Formed(prog) && NonNegative(Blocks(prog, |prog|))
    requires cfg.disableStoreBaseOnly || StoresEnds(prog)
    ensures cfg.disableStoreBaseOnly || StoresNotBelow(prog)
  {
    if !cfg.disableStoreBaseOnly {
      forall i | 0 <= i < |prog| && prog[i].Store?
        ensures prog[i].value in Operand(prog[i]) && prog[i].value.off >= 0
      {
        assert prog[i].value in Operand(prog[i]);
        BlocksGrow(prog, i, |prog|);
        assert Blocks(prog, i)[prog[i].value.block] == Blocks(prog, |prog|)[prog[i].value.block];
      }
    }
  }

  lemma LoadsPassEverywhere(cfg: Config, prog: Program, layout: Layout)
    requires Formed(prog)
    requires cfg.disableStoreBaseOnly || (StoresNotBelow(prog) && ReadsWhatWasStored(prog))
    ensures LoadsPass(cfg, prog, layout)
  {
    var es := Events(prog, layout);
    if !cfg.disableStoreBaseOnly {
      forall i | 0 <= i < |es| && es[i].LogLoad?
        ensures es[i].cell in Memory(es, i) && es[i].lhs == Memory(es, i)[es[i].cell]
      {
        CellsArePlaced(prog, layout, i);
        assert es[i] == EventAt(prog, layout, i);
      }
    }
  }

  /** A run that guesses an empty block below all others tracks nothing, and no assume prunes it. */
  lemma {:induction false} UntrackedRunsOn(cfg: Config, prog: Program, layout: Layout, cs: seq<Choice>, i: nat)
    requires i <= |prog| == |cs| && AboveOne(prog, layout)
    ensures var r := Run(cfg, Guess(1, 0), Events(prog, layout), cs, i);
            r.Failed? || r == Alive(State(1, 0, 0, 0, false))
    decreases i
  {
    if i > 0 {
      UntrackedRunsOn(cfg, prog, layout, cs, i - 1);
      assert Events(prog, layout)[i - 1] == EventAt(prog, layout, i - 1);
      BlocksGrow(prog, i, |prog|);
    }
  }

  /** Hence a violated access with a known size fails, or something before it does, in every layout above address 1. */
  lemma KnownViolationFails(cfg: Config, prog: Program, layout: Layout, cs: seq<Choice>, n: nat)
    requires n < |prog| == |cs| && AboveOne(prog, layout) && prog[n].AccessKnown? && Violates(cfg, prog, n)
    ensures Run(cfg, Guess(1, 0), Events(prog, layout), cs, n + 1).Failed?
  {
    UntrackedRunsOn(cfg, prog, layout, cs, n);
    assert Events(prog, layout)[n] == EventAt(prog, layout, n);
  }

  lemma AnyProgramHasRoom(prog: Program, gap: nat) returns (layout: Layout)
    requires NonNegative(Blocks(prog, |prog|))
    ensures ProperLayout(prog, layout) && AboveOne(prog, layout) && (gap >= 2 * Span(prog, |prog|) ==> Apart(prog, layout))
  {
    var sizes := Blocks(prog, |prog|);
    layout := (k: nat) => 2;
    if |sizes| > 0 {
      layout := StackedAbove(sizes, 0, gap);
      AnyBlockCanBeLowest(prog, 0, gap);
    }
  }

  lemma ViolationIsReported(cfg: Config, prog: Program, n: nat)
    requires n < |prog| && Violates(cfg, prog, n) && Formed(prog) && NonNegative(Blocks(prog, |prog|))
    requires prog[n].Access? && !cfg.baseOnly ==> Derived(prog, prog[n].p, n)
    requires prog[n].Access? ==> cfg.disableStoreBaseOnly || (StoresNotBelow(prog) && ReadsWhatWasStored(prog))
    ensures Reported(cfg, prog)
  {
    if prog[n].Access? {
      var sizes, b := Blocks(prog, |prog|), prog[n].p.block;
      BlocksGrow(prog, n, |prog|);
      var layout := StackedAbove(sizes, b, 0);
      AnyBlockCanBeLowest(prog, b, 0);
      LoadsPassEverywhere(cfg, prog, layout);
      var g, cs := EveryViolationFails(cfg, prog, layout, n);
      FailureIsReported(cfg, prog, layout, g, cs, n + 1);
    } else {
      var layout := AnyProgramHasRoom(prog, 0);
      var cs := seq(|prog|, _ => Choice(true, 0));
      KnownViolationFails(cfg, prog, layout, cs, n);
      FailureIsReported(cfg, prog, layout, Guess(1, 0), cs, n + 1);
    }
  }

  /** Exactness: for a program whose pointers stay inside their blocks and are all logged, some run fails an assert if
      and only if some access leaves its block. With `baseOnly` no logging is needed, and only accesses through the base
      of a block are seen. */
  lemma ReportedIffViolated(cfg: Config, prog: Program)
    requires Formed(prog) && PointersInside(prog) && (cfg.baseOnly || WellLogged(prog)) && NonNegative(Blocks(prog, |prog|))
    requires cfg.disableStoreBaseOnly || (StoresEnds(prog) && ReadsWhatWasStored(prog))
    ensures Reported(cfg, prog) <==> exists n :: 0 <= n < |prog| && Violates(cfg, prog, n)
  {
    if n :| 0 <= n < |prog| && Violates(cfg, prog, n) {
      EndsAreNotBelow(cfg, prog);
      ViolationIsReported(cfg, prog, n);
    } else if Reported(cfg, prog) {
      var layout: Layout, g: Guess, cs: seq<Choice> :| ProperLayout(prog, layout) && Fails(cfg, prog, layout, g, cs);
      NoFalseAlarm(cfg, g, prog, layout, cs, |prog|);
    }
  }
}

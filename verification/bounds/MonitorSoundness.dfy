/** No false alarms, and the assume-guarantee treatment of stored pointers, for the reference monitor. */
module MonitorSoundness {
  import opened BoundsProgram
  import opened OffsetMonitor

  /** The shape of every live state: all blocks lie above the tracked one, and the tracked pointer is base plus offset. */
  ghost predicate Separated(prog: Program, layout: Layout, i: nat, s: State, b: nat)
    requires i <= |prog|
  {
    var sizes := Blocks(prog, i);
    s.base > 0 && s.size >= 0 &&
    (s.active ==> b < |sizes| && layout(b) == s.base && sizes[b] == s.size && s.ptr == s.base + s.offset) &&
    (!s.active ==> s.offset == 0 && s.ptr == 0) &&
    forall k: nat :: k < |sizes| && !(s.active && k == b) ==> s.base + s.size < layout(k)
  }

  lemma StepKeepsSeparated(cfg: Config, prog: Program, layout: Layout, i: nat, s: State, b: nat, c: Choice)
    returns (b': nat)
    requires i < |prog| && Separated(prog, layout, i, s, b)
    ensures var v := Step(cfg, s, EventAt(prog, layout, i), c);
            v.Go? ==> Separated(prog, layout, i + 1, v.s, b')
  {
    var sizes := Blocks(prog, i);
    var v := Step(cfg, s, EventAt(prog, layout, i), c);
    if prog[i].Allocate? {
      b' := if s.active then b else |sizes|;
      assert Blocks(prog, i + 1) == sizes + [prog[i].size];
    } else {
      b' := b;
      assert Blocks(prog, i + 1) == sizes;
      assert v.Go? ==> v.s.base == s.base && v.s.size == s.size && v.s.active == s.active;
    }
  }

  /** For every layout, every guess and every choice, the assumes keep the tracked block below and apart from all others. */
  lemma {:induction false} SeparationHolds(cfg: Config, g: Guess, prog: Program, layout: Layout, cs: seq<Choice>, i: nat)
    returns (b: nat)
    requires i <= |prog| == |cs|
    ensures var r := Run(cfg, g, Events(prog, layout), cs, i);
            r.Alive? ==> Separated(prog, layout, i, r.s, b)
    decreases i
  {
    b := 0;
    if i > 0 {
      b := SeparationHolds(cfg, g, prog, layout, cs, i - 1);
      var before := Run(cfg, g, Events(prog, layout), cs, i - 1);
      if before.Alive? {
        b := StepKeepsSeparated(cfg, prog, layout, i - 1, before.s, b, cs[i - 1]);
      }
    }
  }

  /** In a program whose pointers stay inside their blocks no call moves the tracked pointer out of its block. */
  lemma InsideStepStays(cfg: Config, prog: Program, layout: Layout, i: nat, s: State, b: nat, c: Choice)
    requires i < |prog| && Formed(prog) && PointersInside(prog) && Separated(prog, layout, i, s, b)
    requires s.active ==> Within(s.offset, s.size)
    ensures var v := Step(cfg, s, EventAt(prog, layout, i), c);
            v.Go? && v.s.active ==> Within(v.s.offset, v.s.size)
  {
    assert prog[i].Move? ==> prog[i].p in Operand(prog[i]);
  }

  lemma NextStaysInside(cfg: Config, g: Guess, prog: Program, layout: Layout, cs: seq<Choice>, j: nat)
    requires j < |prog| == |cs| && Formed(prog) && PointersInside(prog)
    requires var r := Run(cfg, g, Events(prog, layout), cs, j);
             r.Alive? && (r.s.active ==> Within(r.s.offset, r.s.size))
    ensures var v := Step(cfg, Run(cfg, g, Events(prog, layout), cs, j).s, Events(prog, layout)[j], cs[j]);
            v.Go? && v.s.active ==> Within(v.s.offset, v.s.size)
  {
    var b := SeparationHolds(cfg, g, prog, layout, cs, j);
    InsideStepStays(cfg, prog, layout, j, Run(cfg, g, Events(prog, layout), cs, j).s, b, cs[j]);
  }

  /** So it is inside in every live run, whatever accesses have been made. */
  lemma {:induction false} StaysInside(cfg: Config, g: Guess, prog: Program, layout: Layout, cs: seq<Choice>, i: nat)
    requires i <= |prog| == |cs| && Formed(prog) && PointersInside(prog)
    ensures var r := Run(cfg, g, Events(prog, layout), cs, i);
            r.Alive? && r.s.active ==> Within(r.s.offset, r.s.size)
    decreases i
  {
    if i > 0 {
      StaysInside(cfg, g, prog, layout, cs, i - 1);
      if Run(cfg, g, Events(prog, layout), cs, i - 1).Alive? {
        NextStaysInside(cfg, g, prog, layout, cs, i - 1);
      }
    }
  }

  lemma LegalStepIsQuiet(cfg: Config, prog: Program, layout: Layout, i: nat, s: State, b: nat, c: Choice)
    requires i < |prog|
    requires Formed(prog) && PointersInside(prog) && !Violates(cfg, prog, i)
    requires cfg.disableStoreBaseOnly || StoresEnds(prog)
    requires Separated(prog, layout, i, s, b)
    requires s.active ==> Within(s.offset, s.size)
    ensures var v := Step(cfg, s, EventAt(prog, layout, i), c);
            !v.Error? && (v.Go? && v.s.active ==> Within(v.s.offset, v.s.size))
  {
    InsideStepStays(cfg, prog, layout, i, s, b, c);
    match prog[i]
    case Access(p, _) =>
      assert p in Operand(prog[i]);
    case Store(value, _) =>
      assert value in Operand(prog[i]);
    case _ =>
  }

  /** Soundness: if every pointer and every access stays within the block it was derived from, no assert fails,
      whatever the layout, the tracked block and the pattern of skipped logs. */
  lemma {:induction false} NoFalseAlarm(cfg: Config, g: Guess, prog: Program, layout: Layout, cs: seq<Choice>, i: nat)
    requires i <= |prog| == |cs|
    requires Formed(prog) && PointersInside(prog)
    requires forall j :: 0 <= j < |prog| ==> !Violates(cfg, prog, j)
    requires cfg.disableStoreBaseOnly || StoresEnds(prog)
    ensures var r := Run(cfg, g, Events(prog, layout), cs, i);
            !r.Failed? && (r.Alive? && r.s.active ==> Within(r.s.offset, r.s.size))
    decreases i
  {
    if i > 0 {
      NoFalseAlarm(cfg, g, prog, layout, cs, i - 1);
      var es := Events(prog, layout);
      var before := Run(cfg, g, es, cs, i - 1);
      assert es[i - 1] == EventAt(prog, layout, i - 1);
      if before.Alive? {
        var b := SeparationHolds(cfg, g, prog, layout, cs, i - 1);
        LegalStepIsQuiet(cfg, prog, layout, i - 1, before.s, b, cs[i - 1]);
      }
    }
  }

  /** What the memory cells hold after the first `i` events: the last pointer stored in each. */
  function Memory(es: seq<Event>, i: nat): map<int, int>
    requires i <= |es|
  {
    if i == 0 then map[]
    else if es[i - 1].LogStore? then Memory(es, i - 1)[es[i - 1].cell := es[i - 1].value]
    else Memory(es, i - 1)
  }

  /** The assumption on loads: a pointer is only read from a cell that holds it. */
  ghost predicate LoadsReturnStores(es: seq<Event>) {
    forall i :: 0 <= i < |es| && es[i].LogLoad? ==>
      es[i].cell in Memory(es, i) && es[i].lhs == Memory(es, i)[es[i].cell]
  }

  /** Stored pointers do not lie below the block they were derived from. */
  ghost predicate StoresNotBelow(prog: Program) {
    forall i :: 0 <= i < |prog| && prog[i].Store? ==>
      prog[i].value in Operand(prog[i]) && prog[i].value.off >= 0
  }

  /** A store that is let through does not put an interior pointer of the tracked block into its cell. */
  lemma StoredIsNotInterior(cfg: Config, prog: Program, layout: Layout, i: nat, s: State, b: nat, c: Choice)
    requires i < |prog| && prog[i].Store? && Formed(prog) && prog[i].value.off >= 0 && !cfg.disableStoreBaseOnly
    requires Separated(prog, layout, i, s, b) && Step(cfg, s, EventAt(prog, layout, i), c).Go?
    ensures !Interior(s, At(layout, prog[i].value))
  {
    assert prog[i].value in Operand(prog[i]);
    assert !s.active ==> s.base + s.size < layout(prog[i].value.block);
  }

  ghost predicate NoneInterior(s: State, memory: map<int, int>) {
    forall cell :: cell in memory ==> !Interior(s, memory[cell])
  }

  lemma BlockStaysTracked(cfg: Config, s: State, e: Event, c: Choice)
    ensures var v := Step(cfg, s, e, c); v.Go? ==> v.s.base == s.base && v.s.size == s.size
  {
  }

  /** The guarantee checked at stores, over whole runs: no cell ever holds an interior pointer of the tracked block. */
  lemma {:induction false} CellsHoldNoInterior(cfg: Config, g: Guess, prog: Program, layout: Layout, cs: seq<Choice>, i: nat)
    requires i <= |prog| == |cs|
    requires Formed(prog) && StoresNotBelow(prog) && !cfg.disableStoreBaseOnly
    ensures var es := Events(prog, layout);
            var r := Run(cfg, g, es, cs, i);
            r.Alive? ==> NoneInterior(r.s, Memory(es, i))
    decreases i
  {
    if i > 0 {
      var es := Events(prog, layout);
      CellsHoldNoInterior(cfg, g, prog, layout, cs, i - 1);
      var before, after := Run(cfg, g, es, cs, i - 1), Run(cfg, g, es, cs, i);
      assert es[i - 1] == EventAt(prog, layout, i - 1);
      if after.Alive? {
        BlockStaysTracked(cfg, before.s, es[i - 1], cs[i - 1]);
        if prog[i - 1].Store? {
          var b := SeparationHolds(cfg, g, prog, layout, cs, i - 1);
          StoredIsNotInterior(cfg, prog, layout, i - 1, before.s, b, cs[i - 1]);
        }
      }
    }
  }

  /** Hence the assume made at loads never prunes a run: it costs no coverage. */
  lemma LoadsNeverPrune(cfg: Config, g: Guess, prog: Program, layout: Layout, cs: seq<Choice>, i: nat)
    requires i < |prog| == |cs|
    requires Formed(prog) && StoresNotBelow(prog) && LoadsReturnStores(Events(prog, layout))
    requires prog[i].Load?
    ensures var es := Events(prog, layout);
            var r := Run(cfg, g, es, cs, i);
            r.Alive? ==> Run(cfg, g, es, cs, i + 1) == r
  {
    if !cfg.disableStoreBaseOnly {
      CellsHoldNoInterior(cfg, g, prog, layout, cs, i);
    }
    assert Events(prog, layout)[i] == EventAt(prog, layout, i);
  }
}

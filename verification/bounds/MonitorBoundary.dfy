/** How far the reports of the reference monitor reach in arbitrary programs: pointers may leave their blocks, and nothing
    is assumed about what was logged. */
module MonitorBoundary {
  import opened BoundsProgram
  import opened OffsetMonitor
  import opened MonitorSoundness
  import opened MonitorCompleteness
  import opened MonitorExactness

  /** An access through a pointer below its block is never reported by a run that tracks this block, in any layout. */
  lemma SunkenAccessIsMissed(cfg: Config, g: Guess, prog: Program, layout: Layout, cs: seq<Choice>, n: nat)
    requires n < |prog| == |cs| && Formed(prog) && prog[n].Access? && prog[n].p.off < 0
    requires g.base == layout(prog[n].p.block)
    ensures Run(cfg, g, Events(prog, layout), cs, n + 1) != Failed(n)
  {
    var before := Run(cfg, g, Events(prog, layout), cs, n);
    assert prog[n].p in Operand(prog[n]);
    assert Events(prog, layout)[n] == EventAt(prog, layout, n);
    if before.Alive? {
      var b := SeparationHolds(cfg, g, prog, layout, cs, n);
      GuessIsKept(cfg, g, Events(prog, layout), cs, n);
    } else {
      FailsEarlier(cfg, g, Events(prog, layout), cs, n);
    }
  }

  lemma {:induction false} GuessIsKept(cfg: Config, g: Guess, es: seq<Event>, cs: seq<Choice>, i: nat)
    requires i <= |es| == |cs|
    ensures var r := Run(cfg, g, es, cs, i);
            r.Alive? ==> r.s.base == g.base && r.s.size == g.size
  {
    if i > 0 {
      GuessIsKept(cfg, g, es, cs, i - 1);
      var before := Run(cfg, g, es, cs, i - 1);
      if before.Alive? {
        BlockStaysTracked(cfg, before.s, es[i - 1], cs[i - 1]);
      }
    }
  }

  /** A failed run was alive until the call at which it failed. */
  lemma {:induction false} FailsEarlier(cfg: Config, g: Guess, es: seq<Event>, cs: seq<Choice>, i: nat)
    requires i <= |es| == |cs|
    ensures var r := Run(cfg, g, es, cs, i);
            r.Failed? ==> r.at < i && Run(cfg, g, es, cs, r.at).Alive? &&
                          Step(cfg, Run(cfg, g, es, cs, r.at).s, es[r.at], cs[r.at]) == Error
  {
    if i > 0 {
      FailsEarlier(cfg, g, es, cs, i - 1);
    }
  }

  /** A run that tracks another block does report such an access if the sunken address happens to be that block's base:
      two blocks of any sizes, the second one as close to the first as the monitor allows. */
  lemma AliasedSunkenAccessIsReported(size: nat, size': nat)
    ensures var d := size + 2;
            var prog := [Allocate(size), Allocate(size'), Move(Pointer(1, 0), -d), Access(Pointer(1, -d), size + 1)];
            var cfg := Config(false, false, true);
            Formed(prog) && Reported(cfg, prog) && Violates(cfg, prog, 3) &&
            forall i :: 0 <= i < 3 ==> !Violates(cfg, prog, i)
  {
    var d := size + 2;
    var prog := [Allocate(size), Allocate(size'), Move(Pointer(1, 0), -d), Access(Pointer(1, -d), size + 1)];
    var cfg := Config(false, false, true);
    var layout: Layout := (k: nat) => 1 + k * d;
    var g, cs := Guess(1, size), seq(4, _ => Choice(true, 1));
    var es := Events(prog, layout);
    assert Blocks(prog, 0) == [];
    assert Blocks(prog, 1) == [size];
    assert Blocks(prog, 2) == Blocks(prog, 3) == Blocks(prog, 4) == [size, size'];
    assert es[0] == Alloc(1, size) && es[1] == Alloc(1 + d, size') && es[2] == LogPtr(1 + d, -d);
    assert es[3] == AssertValidPtr(1, size + 1);
    var s := State(1, 1, 0, size, true);
    assert Run(cfg, g, es, cs, 0) == Alive(State(1, 0, 0, size, false));
    assert Run(cfg, g, es, cs, 1) == Alive(s);
    assert Run(cfg, g, es, cs, 2) == Alive(s);
    assert Run(cfg, g, es, cs, 3) == Alive(s);
    assert Fails(cfg, prog, layout, g, cs);
    assert ProperLayout(prog, layout);
  }

  /** The pointer of access `n` can be reached by following picked moves, and on the way no access goes through the
      followed pointer while it is below its block; neither does this one. */
  ghost predicate FollowedBy(prog: Program, n: nat, picks: seq<bool>)
    requires n < |prog| && prog[n].Access?
  {
    var b := prog[n].p.block;
    |picks| == |prog| && prog[n].p.off == Track(prog, b, picks, n) >= 0 && Unsunk(prog, b, picks, n)
  }

  ghost predicate Unsunk(prog: Program, b: nat, picks: seq<bool>, n: nat)
    requires n <= |prog| == |picks|
  {
    forall j :: 0 <= j < n ==>
      (picks[j] ==> prog[j].Move? && prog[j].p == Pointer(b, Track(prog, b, picks, j))) &&
      (prog[j].Access? && prog[j].p == Pointer(b, Track(prog, b, picks, j)) ==> Track(prog, b, picks, j) >= 0)
  }

  /** The pointer points into block `b`, but not to its base. */
  ghost predicate InsideOf(prog: Program, p: Pointer, b: nat) {
    p.block == b < |Blocks(prog, |prog|)| && 0 < p.off < Blocks(prog, |prog|)[b]
  }

  /** With the store checks on, no load before call `n` reads a pointer into block `b`: the assume would prune the run. */
  ghost predicate ReadsOutside(cfg: Config, prog: Program, b: nat, n: nat)
    requires n <= |prog|
  {
    cfg.disableStoreBaseOnly || forall j :: 0 <= j < n && prog[j].Load? ==> !InsideOf(prog, prog[j].lhs, b)
  }

  /** What the monitor can see: a violation of known size, one through a pointer it can have followed, and with the store
      checks on a store of a pointer into a block; in the last two cases only if no pointer into the block was loaded. */
  ghost predicate Seen(cfg: Config, prog: Program, n: nat)
    requires n < |prog|
  {
    match prog[n]
    case Access(p, _) =>
      Violates(cfg, prog, n) && ReadsOutside(cfg, prog, p.block, n) && exists picks :: FollowedBy(prog, n, picks)
    case AccessKnown(_, _) => Violates(cfg, prog, n)
    case Store(value, _) =>
      !cfg.disableStoreBaseOnly && InsideOf(prog, value, value.block) && ReadsOutside(cfg, prog, value.block, n)
    case _ => false
  }

  /** Some run fails by call `n`, with the blocks too far apart for pointers from different blocks to meet. */
  ghost predicate ReportedBy(cfg: Config, prog: Program, n: nat)
    requires n < |prog|
  {
    exists layout: Layout, g: Guess, cs: seq<Choice> :: Apart(prog, layout) && FailsBy(cfg, prog, layout, g, cs, n)
  }

  ghost predicate FailsBy(cfg: Config, prog: Program, layout: Layout, g: Guess, cs: seq<Choice>, n: nat)
    requires n < |prog|
  {
    |cs| == |prog| && Run(cfg, g, Events(prog, layout), cs, n + 1).Failed?
  }

  lemma {:induction false} TrackIsInSpan(prog: Program, b: nat, picks: seq<bool>, i: nat)
    requires i <= |prog| == |picks|
    ensures Abs(Track(prog, b, picks, i)) <= Span(prog, i)
  {
    if i > 0 {
      TrackIsInSpan(prog, b, picks, i - 1);
    }
  }

  lemma SpanCoversAll(prog: Program, b: nat, picks: seq<bool>, j: nat)
    requires j < |prog| == |picks|
    ensures Distance(prog[j]) <= Span(prog, |prog|) && Abs(Track(prog, b, picks, j)) <= Span(prog, |prog|)
  {
    TrackIsInSpan(prog, b, picks, j);
    SpanCovers(prog, j, |prog|);
  }

  /** With the blocks apart, an operand at the address of the tracked pointer is the tracked pointer. */
  lemma OperandAtTrack(prog: Program, layout: Layout, b: nat, picks: seq<bool>, j: nat, p: Pointer)
    requires j < |prog| == |picks| && Formed(prog) && Apart(prog, layout) && NonNegative(Blocks(prog, |prog|))
    requires b < |Blocks(prog, |prog|)| && (prog[j].Move? || prog[j].Access?) && p == prog[j].p
    requires At(layout, p) == layout(b) + Track(prog, b, picks, j)
    ensures p == Pointer(b, Track(prog, b, picks, j))
  {
    assert p in Operand(prog[j]);
    BlocksGrow(prog, j, |prog|);
    SpanCoversAll(prog, b, picks, j);
    SameAddressSamePointer(prog, layout, p, Pointer(b, Track(prog, b, picks, j)));
  }

  lemma FailureIsReportedBy(cfg: Config, prog: Program, layout: Layout, g: Guess, cs: seq<Choice>, m: nat, n: nat)
    requires m <= n < |prog| == |cs| && Apart(prog, layout) && Run(cfg, g, Events(prog, layout), cs, m + 1).Failed?
    ensures ReportedBy(cfg, prog, n)
  {
    StoppedStays(cfg, g, Events(prog, layout), cs, m + 1, n + 1);
    assert FailsBy(cfg, prog, layout, g, cs, n);
  }

  /** With the blocks apart, a loaded or stored address lies inside a block exactly if its pointer points into it. */
  lemma AddressInside(prog: Program, layout: Layout, j: nat, p: Pointer, b: nat)
    requires j < |prog| && Formed(prog) && Apart(prog, layout) && NonNegative(Blocks(prog, |prog|))
    requires b < |Blocks(prog, |prog|)| && p in Operand(prog[j]) && (prog[j].Load? || prog[j].Store?)
    ensures 0 < At(layout, p) - layout(b) < Blocks(prog, |prog|)[b] <==> InsideOf(prog, p, b)
  {
    BlocksGrow(prog, j, |prog|);
    SpanCovers(prog, j, |prog|);
    if 0 < At(layout, p) - layout(b) < Blocks(prog, |prog|)[b] {
      InsideOwnBlock(prog, layout, p, b);
    }
  }

  lemma OutsideStaysOutside(cfg: Config, prog: Program, layout: Layout, b: nat, n: nat)
    requires n <= |prog| && Formed(prog) && Apart(prog, layout) && NonNegative(Blocks(prog, |prog|))
    requires b < |Blocks(prog, |prog|)| && ReadsOutside(cfg, prog, b, n)
    ensures LoadsStayOutside(cfg, prog, layout, b, n)
  {
    forall j | 0 <= j < n && prog[j].Load?
      ensures 0 < At(layout, prog[j].lhs) - layout(b) < Blocks(prog, |prog|)[b] <==> InsideOf(prog, prog[j].lhs, b)
    {
      AddressInside(prog, layout, j, prog[j].lhs, b);
    }
  }

  lemma SeenAccessFails(cfg: Config, prog: Program, layout: Layout, m: nat) returns (g: Guess, cs: seq<Choice>)
    requires m < |prog| && Seen(cfg, prog, m) && prog[m].Access? && Formed(prog) && NonNegative(Blocks(prog, |prog|))
    requires Apart(prog, layout) && Lowest(prog, layout, prog[m].p.block)
    ensures |cs| == |prog| && Run(cfg, g, Events(prog, layout), cs, m + 1).Failed?
  {
    var b := prog[m].p.block;
    var picks := PicksFor(cfg, prog, m);
    PicksFit(prog, layout, b, picks, m);
    OutsideStaysOutside(cfg, prog, layout, b, m);
    BlocksGrow(prog, m, |prog|);
    TrackedViolationFails(cfg, prog, layout, picks, m);
    g, cs := Guess(layout(b), Blocks(prog, |prog|)[b]), Choices(prog, layout, b, picks);
  }

  lemma NoPicksFit(prog: Program, layout: Layout, b: nat, picks: seq<bool>, n: nat)
    requires n <= |prog| && picks == seq(|prog|, _ => false)
    ensures forall j :: 0 <= j <= n ==> Track(prog, b, picks, j) == 0
    ensures forall j :: 0 <= j < n ==> PickFits(prog, layout, b, picks, j)
  {
    forall j | 0 <= j <= n
      ensures Track(prog, b, picks, j) == 0
    {
      TrackRests(prog, b, picks, 0, j);
    }
  }

  lemma SeenStoreFails(cfg: Config, prog: Program, layout: Layout, m: nat) returns (g: Guess, cs: seq<Choice>)
    requires m < |prog| && Seen(cfg, prog, m) && prog[m].Store? && Formed(prog) && NonNegative(Blocks(prog, |prog|))
    requires Apart(prog, layout) && Lowest(prog, layout, prog[m].value.block)
    ensures |cs| == |prog| && Run(cfg, g, Events(prog, layout), cs, m + 1).Failed?
  {
    var b, picks := prog[m].value.block, seq(|prog|, _ => false);
    NoPicksFit(prog, layout, b, picks, m);
    OutsideStaysOutside(cfg, prog, layout, b, m);
    RunFollows(cfg, prog, layout, b, picks, m);
    g, cs := Guess(layout(b), Blocks(prog, |prog|)[b]), Choices(prog, layout, b, picks);
    assert prog[m].value in Operand(prog[m]);
    assert Events(prog, layout)[m] == EventAt(prog, layout, m);
  }

  lemma SeenInBlockFails(cfg: Config, prog: Program, m: nat) returns (layout: Layout, g: Guess, cs: seq<Choice>)
    requires m < |prog| && Seen(cfg, prog, m) && !prog[m].AccessKnown? && Formed(prog) && NonNegative(Blocks(prog, |prog|))
    ensures Apart(prog, layout) && |cs| == |prog| && Run(cfg, g, Events(prog, layout), cs, m + 1).Failed?
  {
    var p := if prog[m].Access? then prog[m].p else prog[m].value;
    assert p in Operand(prog[m]);
    BlocksGrow(prog, m, |prog|);
    layout := StackedAbove(Blocks(prog, |prog|), p.block, 2 * Span(prog, |prog|));
    AnyBlockCanBeLowest(prog, p.block, 2 * Span(prog, |prog|));
    if prog[m].Access? {
      g, cs := SeenAccessFails(cfg, prog, layout, m);
    } else {
      g, cs := SeenStoreFails(cfg, prog, layout, m);
    }
  }

  lemma SeenIsReported(cfg: Config, prog: Program, n: nat, m: nat)
    requires m <= n < |prog| && Seen(cfg, prog, m) && Formed(prog) && NonNegative(Blocks(prog, |prog|))
    ensures ReportedBy(cfg, prog, n)
  {
    if prog[m].AccessKnown? {
      var layout := AnyProgramHasRoom(prog, 2 * Span(prog, |prog|));
      var cs := seq(|prog|, _ => Choice(true, 0));
      KnownViolationFails(cfg, prog, layout, cs, m);
      FailureIsReportedBy(cfg, prog, layout, Guess(1, 0), cs, m, n);
    } else {
      var layout, g, cs := SeenInBlockFails(cfg, prog, m);
      FailureIsReportedBy(cfg, prog, layout, g, cs, m, n);
    }
  }

  lemma PicksFor(cfg: Config, prog: Program, n: nat) returns (picks: seq<bool>)
    requires n < |prog| && prog[n].Access? && Seen(cfg, prog, n)
    ensures FollowedBy(prog, n, picks) && Allowed(cfg, picks)
  {
    if cfg.baseOnly {
      picks := seq(|prog|, _ => false);
      forall j | 0 <= j <= |prog|
        ensures Track(prog, prog[n].p.block, picks, j) == 0
      {
        TrackRests(prog, prog[n].p.block, picks, 0, j);
      }
    } else {
      picks :| FollowedBy(prog, n, picks);
    }
  }

  lemma PicksFit(prog: Program, layout: Layout, b: nat, picks: seq<bool>, n: nat)
    requires n <= |prog| == |picks| && Formed(prog) && Apart(prog, layout) && NonNegative(Blocks(prog, |prog|))
    requires b < |Blocks(prog, |prog|)| && Unsunk(prog, b, picks, n)
    ensures forall j :: 0 <= j < n ==> PickFits(prog, layout, b, picks, j)
  {
    forall j | 0 <= j < n
      ensures PickFits(prog, layout, b, picks, j)
    {
      if prog[j].Access? && At(layout, prog[j].p) == layout(b) + Track(prog, b, picks, j) {
        OperandAtTrack(prog, layout, b, picks, j, prog[j].p);
      }
    }
  }

  /** What a live run has followed: picks that bring the tracked pointer to where the monitor has it. */
  ghost predicate Explains(cfg: Config, prog: Program, layout: Layout, b: nat, picks: seq<bool>, i: nat, s: State)
    requires i <= |prog|
  {
    |picks| == |prog| && Unsunk(prog, b, picks, i) && (forall j :: i <= j < |prog| ==> !picks[j]) &&
    (s.active ==> s.base == layout(b) && s.offset == Track(prog, b, picks, i) && s.ptr == s.base + s.offset) &&
    (cfg.baseOnly ==> Track(prog, b, picks, i) == 0) && ReadsOutside(cfg, prog, b, i)
  }

  lemma PickingKeepsTracks(prog: Program, b: nat, picks: seq<bool>, j: nat)
    requires j < |prog| == |picks| && !picks[j]
    requires prog[j].Move? && prog[j].p == Pointer(b, Track(prog, b, picks, j))
    ensures forall k :: 0 <= k <= j ==> Track(prog, b, picks[j := true], k) == Track(prog, b, picks, k)
    ensures Track(prog, b, picks[j := true], j + 1) == Track(prog, b, picks, j) + prog[j].delta
  {
    forall k | 0 <= k <= j
      ensures Track(prog, b, picks[j := true], k) == Track(prog, b, picks, k)
    {
      TrackReadsPrefix(prog, b, picks, picks[j := true], k);
    }
  }

  lemma PickingKeepsUnsunk(prog: Program, b: nat, picks: seq<bool>, j: nat)
    requires j < |prog| == |picks| && !picks[j] && Unsunk(prog, b, picks, j)
    requires prog[j].Move? && prog[j].p == Pointer(b, Track(prog, b, picks, j))
    ensures Unsunk(prog, b, picks[j := true], j + 1)
  {
    PickingKeepsTracks(prog, b, picks, j);
  }

  lemma PickingIsExplained(cfg: Config, prog: Program, layout: Layout, b: nat, picks: seq<bool>, j: nat, s: State, s': State)
    requires j < |prog| && Explains(cfg, prog, layout, b, picks, j, s) && s.active && !cfg.baseOnly
    requires prog[j].Move? && prog[j].p == Pointer(b, Track(prog, b, picks, j))
    requires s' == s.(ptr := s.ptr + prog[j].delta, offset := s.offset + prog[j].delta)
    ensures Explains(cfg, prog, layout, b, picks[j := true], j + 1, s')
  {
    PickingKeepsUnsunk(prog, b, picks, j);
    PickingKeepsTracks(prog, b, picks, j);
  }

  lemma UnsunkGrows(prog: Program, b: nat, picks: seq<bool>, j: nat)
    requires j < |prog| == |picks| && !picks[j] && Unsunk(prog, b, picks, j)
    requires prog[j].Access? && prog[j].p == Pointer(b, Track(prog, b, picks, j)) ==> Track(prog, b, picks, j) >= 0
    ensures Unsunk(prog, b, picks, j + 1) && Track(prog, b, picks, j + 1) == Track(prog, b, picks, j)
  {
  }

  lemma ReadsOutsideGrows(cfg: Config, prog: Program, b: nat, j: nat)
    requires j < |prog| && ReadsOutside(cfg, prog, b, j)
    requires prog[j].Load? ==> cfg.disableStoreBaseOnly || !InsideOf(prog, prog[j].lhs, b)
    ensures ReadsOutside(cfg, prog, b, j + 1)
  {
  }

  lemma SkippingIsExplained(cfg: Config, prog: Program, layout: Layout, b: nat, picks: seq<bool>, j: nat, s: State, s': State)
    requires j < |prog| && Explains(cfg, prog, layout, b, picks, j, s)
    requires s'.active ==> s'.base == layout(b) && s'.offset == Track(prog, b, picks, j) && s'.ptr == s'.base + s'.offset
    requires prog[j].Access? && prog[j].p == Pointer(b, Track(prog, b, picks, j)) ==> Track(prog, b, picks, j) >= 0
    requires prog[j].Load? ==> cfg.disableStoreBaseOnly || !InsideOf(prog, prog[j].lhs, b)
    ensures Explains(cfg, prog, layout, b, picks, j + 1, s')
  {
    UnsunkGrows(prog, b, picks, j);
    ReadsOutsideGrows(cfg, prog, b, j);
  }

  lemma PassedLoadIsOutside(cfg: Config, prog: Program, layout: Layout, b: nat, j: nat, s: State, c: Choice)
    requires j < |prog| && prog[j].Load? && Formed(prog) && Apart(prog, layout) && NonNegative(Blocks(prog, |prog|))
    requires b < |Blocks(prog, |prog|)| && s.base == layout(b)
    requires (s.active <==> b < |Blocks(prog, j)|) && (s.active ==> s.size == Blocks(prog, |prog|)[b])
    requires Step(cfg, s, EventAt(prog, layout, j), c).Go?
    ensures cfg.disableStoreBaseOnly || !InsideOf(prog, prog[j].lhs, b)
  {
    assert prog[j].lhs in Operand(prog[j]);
    AddressInside(prog, layout, j, prog[j].lhs, b);
  }

  lemma StepIsExplained(cfg: Config, prog: Program, layout: Layout, b: nat, picks: seq<bool>, j: nat, s: State, c: Choice)
    returns (picks': seq<bool>)
    requires j < |prog| && Formed(prog) && Apart(prog, layout) && NonNegative(Blocks(prog, |prog|))
    requires b < |Blocks(prog, |prog|)| && s.base == layout(b)
    requires Explains(cfg, prog, layout, b, picks, j, s)
    requires (s.active <==> b < |Blocks(prog, j)|) && (!s.active ==> s.offset == 0)
    requires s.active ==> s.size == Blocks(prog, |prog|)[b]
    ensures var v := Step(cfg, s, EventAt(prog, layout, j), c);
            v.Go? ==> Explains(cfg, prog, layout, b, picks', j + 1, v.s)
  {
    picks' := picks;
    var v := Step(cfg, s, EventAt(prog, layout, j), c);
    if !s.active { TrackWaits(prog, b, picks, j); }
    if !v.Go? {
    } else if prog[j].Move? && s.active && s.ptr == At(layout, prog[j].p) && !c.skip && !cfg.baseOnly {
      OperandAtTrack(prog, layout, b, picks, j, prog[j].p);
      PickingIsExplained(cfg, prog, layout, b, picks, j, s, v.s);
      picks' := picks[j := true];
    } else {
      assert prog[j].Access? ==> prog[j].p in Operand(prog[j]);
      if prog[j].Load? { PassedLoadIsOutside(cfg, prog, layout, b, j, s, c); }
      SkippingIsExplained(cfg, prog, layout, b, picks, j, s, v.s);
    }
  }

  /** A live run is active exactly from the allocation of the guessed block on. */
  lemma OwnBlockIsActive(cfg: Config, g: Guess, prog: Program, layout: Layout, cs: seq<Choice>, b: nat, i: nat)
    requires i <= |prog| == |cs| && Apart(prog, layout) && NonNegative(Blocks(prog, |prog|))
    requires b < |Blocks(prog, |prog|)| && g.base == layout(b)
    ensures var r := Run(cfg, g, Events(prog, layout), cs, i);
            r.Alive? ==> (r.s.active <==> b < |Blocks(prog, i)|) && (!r.s.active ==> r.s.offset == 0) &&
                         (r.s.active ==> r.s.size == Blocks(prog, |prog|)[b])
  {
    var r := Run(cfg, g, Events(prog, layout), cs, i);
    if r.Alive? {
      GuessIsKept(cfg, g, Events(prog, layout), cs, i);
      var b' := SeparationHolds(cfg, g, prog, layout, cs, i);
      BlocksGrow(prog, i, |prog|);
    }
  }

  lemma NextIsExplained(cfg: Config, g: Guess, prog: Program, layout: Layout, cs: seq<Choice>, b: nat, picks: seq<bool>,
                        j: nat) returns (picks': seq<bool>)
    requires j < |prog| == |cs| && Formed(prog) && Apart(prog, layout) && NonNegative(Blocks(prog, |prog|))
    requires b < |Blocks(prog, |prog|)| && g.base == layout(b)
    requires var r := Run(cfg, g, Events(prog, layout), cs, j);
             r.Alive? && Explains(cfg, prog, layout, b, picks, j, r.s)
    ensures var v := Step(cfg, Run(cfg, g, Events(prog, layout), cs, j).s, EventAt(prog, layout, j), cs[j]);
            v.Go? ==> Explains(cfg, prog, layout, b, picks', j + 1, v.s)
  {
    GuessIsKept(cfg, g, Events(prog, layout), cs, j);
    OwnBlockIsActive(cfg, g, prog, layout, cs, b, j);
    picks' := StepIsExplained(cfg, prog, layout, b, picks, j, Run(cfg, g, Events(prog, layout), cs, j).s, cs[j]);
  }

  /** Every live run is explained by picks. */
  lemma {:induction false} RunIsExplained(cfg: Config, g: Guess, prog: Program, layout: Layout, cs: seq<Choice>,
                                          b: nat, i: nat) returns (picks: seq<bool>)
    requires i <= |prog| == |cs| && Formed(prog) && Apart(prog, layout) && NonNegative(Blocks(prog, |prog|))
    requires b < |Blocks(prog, |prog|)| && g.base == layout(b)
    ensures var r := Run(cfg, g, Events(prog, layout), cs, i);
            r.Alive? ==> Explains(cfg, prog, layout, b, picks, i, r.s)
    decreases i
  {
    picks := seq(|prog|, _ => false);
    if i > 0 && Run(cfg, g, Events(prog, layout), cs, i - 1).Alive? {
      picks := RunIsExplained(cfg, g, prog, layout, cs, b, i - 1);
      picks := NextIsExplained(cfg, g, prog, layout, cs, b, picks, i - 1);
      assert Events(prog, layout)[i - 1] == EventAt(prog, layout, i - 1);
    }
  }

  /** An access at which a run fails is a violation that the monitor can see. */
  lemma FailingAccessIsSeen(cfg: Config, g: Guess, prog: Program, layout: Layout, cs: seq<Choice>, m: nat)
    requires m < |prog| == |cs| && Formed(prog) && Apart(prog, layout) && NonNegative(Blocks(prog, |prog|))
    requires prog[m].Access? && Run(cfg, g, Events(prog, layout), cs, m).Alive?
    requires Step(cfg, Run(cfg, g, Events(prog, layout), cs, m).s, EventAt(prog, layout, m), cs[m]) == Error
    ensures Seen(cfg, prog, m)
  {
    var s := Run(cfg, g, Events(prog, layout), cs, m).s;
    var b := SeparationHolds(cfg, g, prog, layout, cs, m);
    GuessIsKept(cfg, g, Events(prog, layout), cs, m);
    BlocksGrow(prog, m, |prog|);
    var picks := RunIsExplained(cfg, g, prog, layout, cs, b, m);
    assert prog[m].p in Operand(prog[m]);
    if At(layout, prog[m].p) == s.base {
      picks := seq(|prog|, _ => false);
      NoPicksFit(prog, layout, b, picks, m);
    }
    OperandAtTrack(prog, layout, b, picks, m, prog[m].p);
    assert FollowedBy(prog, m, picks);
  }

  /** And so is a store at which a run fails. */
  lemma FailingStoreIsSeen(cfg: Config, g: Guess, prog: Program, layout: Layout, cs: seq<Choice>, m: nat)
    requires m < |prog| == |cs| && Formed(prog) && Apart(prog, layout) && NonNegative(Blocks(prog, |prog|))
    requires prog[m].Store? && Run(cfg, g, Events(prog, layout), cs, m).Alive?
    requires Step(cfg, Run(cfg, g, Events(prog, layout), cs, m).s, EventAt(prog, layout, m), cs[m]) == Error
    ensures Seen(cfg, prog, m)
  {
    var b := SeparationHolds(cfg, g, prog, layout, cs, m);
    GuessIsKept(cfg, g, Events(prog, layout), cs, m);
    BlocksGrow(prog, m, |prog|);
    var picks := RunIsExplained(cfg, g, prog, layout, cs, b, m);
    assert prog[m].value in Operand(prog[m]);
    AddressInside(prog, layout, m, prog[m].value, b);
  }

  lemma ReportedIsSeen(cfg: Config, prog: Program, layout: Layout, g: Guess, cs: seq<Choice>, n: nat) returns (m: nat)
    requires n < |prog| && Formed(prog) && NonNegative(Blocks(prog, |prog|))
    requires Apart(prog, layout) && FailsBy(cfg, prog, layout, g, cs, n)
    ensures m <= n && Seen(cfg, prog, m)
  {
    var es := Events(prog, layout);
    FailsEarlier(cfg, g, es, cs, n + 1);
    m := Run(cfg, g, es, cs, n + 1).at;
    assert es[m] == EventAt(prog, layout, m);
    if prog[m].Access? {
      FailingAccessIsSeen(cfg, g, prog, layout, cs, m);
    } else if prog[m].Store? {
      FailingStoreIsSeen(cfg, g, prog, layout, cs, m);
    }
  }

  /** The exact boundary, for every program and every configuration: with the blocks apart some run fails by call `n` if
      and only if one of the calls up to `n` can be seen. In particular no access through a pointer below its block is
      ever reported. */
  lemma ReportedByIffSeen(cfg: Config, prog: Program, n: nat)
    requires n < |prog| && Formed(prog) && NonNegative(Blocks(prog, |prog|))
    ensures ReportedBy(cfg, prog, n) <==> exists m :: 0 <= m <= n && Seen(cfg, prog, m)
  {
    if m :| 0 <= m <= n && Seen(cfg, prog, m) {
      SeenIsReported(cfg, prog, n, m);
    } else if ReportedBy(cfg, prog, n) {
      var layout: Layout, g: Guess, cs: seq<Choice> :| Apart(prog, layout) && FailsBy(cfg, prog, layout, g, cs, n);
      var m := ReportedIsSeen(cfg, prog, layout, g, cs, n);
    }
  }

  /** For well logged programs the boundary can be read off each access. */
  lemma LoggedIsSeen(cfg: Config, prog: Program, n: nat)
    requires n < |prog| && prog[n].Access? && (prog[n].p.off >= 0 ==> Derived(prog, prog[n].p, n))
    requires ReadsOutside(cfg, prog, prog[n].p.block, n)
    ensures Seen(cfg, prog, n) <==> Violates(cfg, prog, n) && prog[n].p.off >= 0
  {
    if prog[n].p.off >= 0 {
      var picks := DerivedIsTrackable(prog, prog[n].p, n);
      assert FollowedBy(prog, n, picks);
    }
  }

  /** Programs that store only the ends of blocks, and load what they stored, load no pointer into a block. */
  lemma EndsAreRead(cfg: Config, prog: Program, b: nat, n: nat)
    requires n <= |prog| && Formed(prog)
    requires cfg.disableStoreBaseOnly || (StoresEnds(prog) && ReadsWhatWasStored(prog))
    ensures ReadsOutside(cfg, prog, b, n)
  {
    if !cfg.disableStoreBaseOnly {
      forall j | 0 <= j < n && prog[j].Load?
        ensures !InsideOf(prog, prog[j].lhs, b)
      {
        CellsHoldEnds(prog, j);
      }
    }
  }

  lemma {:induction false} CellsHoldEnds(prog: Program, i: nat)
    requires i <= |prog| && Formed(prog) && StoresEnds(prog)
    ensures forall cell :: cell in Cells(prog, i) ==>
              !InsideOf(prog, Cells(prog, i)[cell], Cells(prog, i)[cell].block)
  {
    if i > 0 {
      CellsHoldEnds(prog, i - 1);
      if prog[i - 1].Store? {
        assert prog[i - 1].value in Operand(prog[i - 1]);
        BlocksGrow(prog, i - 1, |prog|);
      }
    }
  }

  /** With a single block there is nothing to keep apart, so that the boundary is that of all runs. */
  lemma OneBlockReportedIffSeen(cfg: Config, prog: Program)
    requires |prog| > 0 && Formed(prog) && NonNegative(Blocks(prog, |prog|)) && |Blocks(prog, |prog|)| <= 1
    ensures Reported(cfg, prog) <==> exists m :: 0 <= m < |prog| && Seen(cfg, prog, m)
  {
    var n := |prog| - 1;
    ReportedByIffSeen(cfg, prog, n);
    if Reported(cfg, prog) {
      var layout: Layout, g: Guess, cs: seq<Choice> :| ProperLayout(prog, layout) && Fails(cfg, prog, layout, g, cs);
      assert Apart(prog, layout) && FailsBy(cfg, prog, layout, g, cs, n);
    }
    if ReportedBy(cfg, prog, n) {
      var layout: Layout, g: Guess, cs: seq<Choice> :| Apart(prog, layout) && FailsBy(cfg, prog, layout, g, cs, n);
      assert ProperLayout(prog, layout) && Fails(cfg, prog, layout, g, cs);
    }
  }

  /** An overflow that no run reports, whatever the layout: for a block of any size and any distance below it. */
  lemma SunkenOverflowIsNotReported(cfg: Config, size: nat, d: int)
    requires d > 0 && !cfg.baseOnly
    ensures var prog := [Allocate(size), Move(Pointer(0, 0), -d), Access(Pointer(0, -d), size + d + 1)];
            Formed(prog) && Violates(cfg, prog, 2) && !Reported(cfg, prog)
  {
    var prog := [Allocate(size), Move(Pointer(0, 0), -d), Access(Pointer(0, -d), size + d + 1)];
    assert Blocks(prog, 0) == [];
    assert Blocks(prog, 1) == [size];
    assert Blocks(prog, 2) == Blocks(prog, 3) == [size];
    OneBlockReportedIffSeen(cfg, prog);
  }
}

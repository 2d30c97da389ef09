/** Completeness of the reference monitor: every access that leaves its block is reported by some run,
    as long as the pointer used was followed by the log and never sank below its block. */
module MonitorCompleteness {
  import opened BoundsProgram
  import opened OffsetMonitor
  import opened MonitorSoundness

  /** The offset of the tracked pointer after `i` calls, if block `b` is tracked and exactly the picked moves are followed. */
  function Track(prog: Program, b: nat, picks: seq<bool>, i: nat): int
    requires i <= |prog| == |picks|
  {
    if i == 0 then 0
    else
      var off := Track(prog, b, picks, i - 1);
      if picks[i - 1] && prog[i - 1].Move? && prog[i - 1].p == Pointer(b, off) then off + prog[i - 1].delta else off
  }

  lemma {:induction false} TrackReadsPrefix(prog: Program, b: nat, picks: seq<bool>, picks': seq<bool>, i: nat)
    requires i <= |prog| == |picks| == |picks'| && picks[..i] == picks'[..i]
    ensures Track(prog, b, picks, i) == Track(prog, b, picks', i)
  {
    if i > 0 {
      assert picks[..i - 1] == picks[..i][..i - 1] == picks'[..i - 1];
      assert picks[i - 1] == picks[..i][i - 1] == picks'[i - 1];
      TrackReadsPrefix(prog, b, picks, picks', i - 1);
    }
  }

  lemma {:induction false} TrackRests(prog: Program, b: nat, picks: seq<bool>, i: nat, j: nat)
    requires i <= j <= |prog| == |picks|
    requires forall k :: i <= k < j ==> !picks[k]
    ensures Track(prog, b, picks, j) == Track(prog, b, picks, i)
    decreases j
  {
    if i < j {
      TrackRests(prog, b, picks, i, j - 1);
    }
  }

  /** Following one more move: picking move `j` after `picks` have led to its operand. */
  lemma PickOneMore(prog: Program, p: Pointer, picks: seq<bool>, j: nat, k: nat)
    requires j < |prog| == |picks| && k <= |prog| && Creates(prog[j], p)
    requires Track(prog, p.block, picks, j) == prog[j].p.off
    requires forall m :: j <= m < |prog| ==> !picks[m]
    ensures Track(prog, p.block, picks[j := true], k) == if k <= j then Track(prog, p.block, picks, k) else p.off
  {
    var picks' := picks[j := true];
    if k <= j {
      TrackReadsPrefix(prog, p.block, picks, picks', k);
    } else {
      TrackReadsPrefix(prog, p.block, picks, picks', j);
      TrackRests(prog, p.block, picks', j + 1, k);
    }
  }

  /** The picks only follow the tracked pointer, keep it at or above the base, and leave it at `p` from call `i` on. */
  ghost predicate LeadsTo(prog: Program, p: Pointer, i: nat, picks: seq<bool>)
    requires i <= |prog|
  {
    |picks| == |prog| &&
    (forall j :: 0 <= j < |prog| && picks[j] ==>
       prog[j].Move? && prog[j].p == Pointer(p.block, Track(prog, p.block, picks, j))) &&
    (forall j :: 0 <= j <= |prog| ==> Track(prog, p.block, picks, j) >= 0) &&
    (forall j :: i <= j < |prog| ==> !picks[j]) &&
    Track(prog, p.block, picks, i) == p.off
  }

  lemma PickingLeadsTo(prog: Program, p: Pointer, i: nat, picks: seq<bool>, j: nat)
    requires j < i <= |prog| && p.off >= 0 && Creates(prog[j], p) && LeadsTo(prog, prog[j].p, j, picks)
    ensures LeadsTo(prog, p, i, picks[j := true])
  {
    var picks' := picks[j := true];
    assert prog[j].p.block == p.block;
    forall k | 0 <= k <= |prog|
      ensures Track(prog, p.block, picks', k) == if k <= j then Track(prog, p.block, picks, k) else p.off
    {
      PickOneMore(prog, p, picks, j, k);
    }
    forall k | 0 <= k < |prog| && picks'[k]
      ensures prog[k].Move? && prog[k].p == Pointer(p.block, Track(prog, p.block, picks', k))
    {
      assert k == j || (k < j && picks[k]);
    }
  }

  /** Every derived pointer can be reached by a choice of moves that never goes below the block. */
  lemma {:induction false} DerivedIsTrackable(prog: Program, p: Pointer, i: nat) returns (picks: seq<bool>)
    requires i <= |prog| && Derived(prog, p, i)
    ensures LeadsTo(prog, p, i, picks)
    ensures p.off == 0 ==> forall j :: 0 <= j < |picks| ==> !picks[j]
    decreases i
  {
    if p.off == 0 {
      picks := seq(|prog|, _ => false);
      forall k | 0 <= k <= |prog|
        ensures Track(prog, p.block, picks, k) == 0
      {
        TrackRests(prog, p.block, picks, 0, k);
      }
    } else {
      var j :| 0 <= j < i && Creates(prog[j], p) && Derived(prog, prog[j].p, j);
      picks := DerivedIsTrackable(prog, prog[j].p, j);
      PickingLeadsTo(prog, p, i, picks, j);
      picks := picks[j := true];
    }
  }

  /** The choice that makes the monitor follow call `j` exactly if it is picked. */
  function ChoiceAt(prog: Program, layout: Layout, b: nat, picks: seq<bool>, j: nat): Choice
    requires j < |prog| == |picks|
  {
    Choice(!picks[j], layout(b) + Track(prog, b, picks, if prog[j].Move? then j + 1 else j))
  }

  function Choices(prog: Program, layout: Layout, b: nat, picks: seq<bool>): (cs: seq<Choice>)
    requires |prog| == |picks|
    ensures |cs| == |prog|
    ensures forall j :: 0 <= j < |prog| ==> cs[j] == ChoiceAt(prog, layout, b, picks, j)
  {
    seq(|prog|, j requires 0 <= j < |prog| => ChoiceAt(prog, layout, b, picks, j))
  }

  /** The monitor tracks block `b` of size `size` with its pointer at offset `off`; until `b` is allocated it is idle. */
  ghost predicate TracksAt(base: int, size: int, off: int, live: bool, s: State) {
    s.base == base && s.size == size && s.active == live &&
    (s.active ==> s.ptr == base + off && s.offset == off) &&
    (!s.active ==> s.ptr == 0 && s.offset == 0)
  }

  /** Allocations never stop the run: block `b` is recognised, and every other block lies above it. */
  lemma AllocationFollows(cfg: Config, prog: Program, layout: Layout, b: nat, picks: seq<bool>, j: nat, s: State)
    requires j < |prog| == |picks| && prog[j].Allocate? && Lowest(prog, layout, b) && Blocks(prog, |prog|)[b] >= 0
    requires Track(prog, b, picks, j) == 0 || b < |Blocks(prog, j)|
    requires TracksAt(layout(b), Blocks(prog, |prog|)[b], Track(prog, b, picks, j), b < |Blocks(prog, j)|, s)
    ensures var v := Step(cfg, s, EventAt(prog, layout, j), ChoiceAt(prog, layout, b, picks, j));
            v.Go? && TracksAt(layout(b), Blocks(prog, |prog|)[b], Track(prog, b, picks, j), b < |Blocks(prog, j + 1)|, v.s)
  {
    var k := |Blocks(prog, j)|;
    BlocksGrow(prog, j + 1, |prog|);
    assert Blocks(prog, j + 1)[k] == prog[j].size == Blocks(prog, |prog|)[k];
  }

  /** The configuration lets the monitor follow the picked moves. */
  predicate Allowed(cfg: Config, picks: seq<bool>) {
    cfg.baseOnly ==> forall j :: 0 <= j < |picks| ==> !picks[j]
  }

  lemma MoveFollows(cfg: Config, prog: Program, layout: Layout, b: nat, picks: seq<bool>, j: nat, s: State, size: int)
    requires j < |prog| == |picks| && prog[j].Move? && Allowed(cfg, picks)
    requires picks[j] ==> prog[j].p == Pointer(b, Track(prog, b, picks, j)) && b < |Blocks(prog, j)|
    requires TracksAt(layout(b), size, Track(prog, b, picks, j), b < |Blocks(prog, j)|, s)
    ensures var v := Step(cfg, s, EventAt(prog, layout, j), ChoiceAt(prog, layout, b, picks, j));
            v.Go? && TracksAt(layout(b), size, Track(prog, b, picks, j + 1), b < |Blocks(prog, j)|, v.s)
  {
  }

  lemma CheckFollows(cfg: Config, prog: Program, layout: Layout, b: nat, picks: seq<bool>, j: nat, s: State, size: int)
    requires j < |prog| == |picks| && !prog[j].Move? && !prog[j].Allocate?
    requires prog[j].Access? && At(layout, prog[j].p) == layout(b) + Track(prog, b, picks, j) ==>
               Track(prog, b, picks, j) >= 0
    requires prog[j].Load? ==> cfg.disableStoreBaseOnly || !Interior(s, At(layout, prog[j].lhs))
    requires TracksAt(layout(b), size, Track(prog, b, picks, j), b < |Blocks(prog, j)|, s)
    ensures var v := Step(cfg, s, EventAt(prog, layout, j), ChoiceAt(prog, layout, b, picks, j));
            v.Error? || v == Go(s)
  {
  }

  /** While block `b` is unallocated the tracked pointer rests at its base. */
  lemma {:induction false} TrackWaits(prog: Program, b: nat, picks: seq<bool>, j: nat)
    requires j <= |prog| == |picks| && Formed(prog) && b >= |Blocks(prog, j)|
    ensures Track(prog, b, picks, j) == 0
  {
    if j > 0 {
      TrackWaits(prog, b, picks, j - 1);
      assert prog[j - 1].Move? ==> prog[j - 1].p in Operand(prog[j - 1]);
    }
  }

  /** Loads only return stored pointers, or are not checked at all, so that no load prunes the run. */
  ghost predicate LoadsPass(cfg: Config, prog: Program, layout: Layout) {
    cfg.disableStoreBaseOnly || (StoresNotBelow(prog) && LoadsReturnStores(Events(prog, layout)))
  }

  /** What one call asks of the picks: that it moves the tracked pointer if it is picked, and that it does not access
      memory through the tracked pointer while that is below its block. */
  ghost predicate PickFits(prog: Program, layout: Layout, b: nat, picks: seq<bool>, j: nat)
    requires j < |prog| == |picks|
  {
    (picks[j] ==> prog[j].Move? && prog[j].p == Pointer(b, Track(prog, b, picks, j))) &&
    (prog[j].Access? && At(layout, prog[j].p) == layout(b) + Track(prog, b, picks, j) ==> Track(prog, b, picks, j) >= 0)
  }

  lemma StepFollows(cfg: Config, prog: Program, layout: Layout, b: nat, picks: seq<bool>, j: nat, s: State)
    requires j < |prog| == |picks| && Allowed(cfg, picks) && Formed(prog) && Lowest(prog, layout, b)
    requires PickFits(prog, layout, b, picks, j) && Blocks(prog, |prog|)[b] >= 0
    requires prog[j].Load? ==> cfg.disableStoreBaseOnly || !Interior(s, At(layout, prog[j].lhs))
    requires TracksAt(layout(b), Blocks(prog, |prog|)[b], Track(prog, b, picks, j), b < |Blocks(prog, j)|, s)
    ensures var v := Step(cfg, s, EventAt(prog, layout, j), ChoiceAt(prog, layout, b, picks, j));
            v.Error? || (v.Go? && TracksAt(layout(b), Blocks(prog, |prog|)[b], Track(prog, b, picks, j + 1),
                                           b < |Blocks(prog, j + 1)|, v.s))
  {
    if prog[j].Allocate? {
      if b >= |Blocks(prog, j)| { TrackWaits(prog, b, picks, j); }
      AllocationFollows(cfg, prog, layout, b, picks, j, s);
    } else if prog[j].Move? {
      assert prog[j].p in Operand(prog[j]);
      MoveFollows(cfg, prog, layout, b, picks, j, s, Blocks(prog, |prog|)[b]);
    } else {
      CheckFollows(cfg, prog, layout, b, picks, j, s, Blocks(prog, |prog|)[b]);
    }
  }

  /** Or no load, whatever it reads, brings in an address inside block `b` other than its base. */
  ghost predicate LoadsStayOutside(cfg: Config, prog: Program, layout: Layout, b: nat, n: nat)
    requires n <= |prog| && b < |Blocks(prog, |prog|)|
  {
    cfg.disableStoreBaseOnly || forall j :: 0 <= j < n && prog[j].Load? ==>
      !(0 < At(layout, prog[j].lhs) - layout(b) < Blocks(prog, |prog|)[b])
  }

  /** The monitor, given the right guesses, follows the tracked pointer until something is reported. */
  lemma {:induction false} RunFollows(cfg: Config, prog: Program, layout: Layout, b: nat, picks: seq<bool>, i: nat)
    requires i <= |prog| == |picks| && Allowed(cfg, picks)
    requires Formed(prog) && Lowest(prog, layout, b)
    requires forall j :: 0 <= j < i ==> PickFits(prog, layout, b, picks, j)
    requires Blocks(prog, |prog|)[b] >= 0
    requires LoadsPass(cfg, prog, layout) || LoadsStayOutside(cfg, prog, layout, b, i)
    ensures var size := Blocks(prog, |prog|)[b];
            var r := Run(cfg, Guess(layout(b), size), Events(prog, layout), Choices(prog, layout, b, picks), i);
            r.Failed? || (r.Alive? && TracksAt(layout(b), size, Track(prog, b, picks, i), b < |Blocks(prog, i)|, r.s))
    decreases i
  {
    if i > 0 {
      var j := i - 1;
      var g, es, cs := Guess(layout(b), Blocks(prog, |prog|)[b]), Events(prog, layout), Choices(prog, layout, b, picks);
      RunFollows(cfg, prog, layout, b, picks, j);
      var before := Run(cfg, g, es, cs, j);
      assert es[j] == EventAt(prog, layout, j) && cs[j] == ChoiceAt(prog, layout, b, picks, j);
      if before.Alive? {
        if prog[j].Load? && LoadsPass(cfg, prog, layout) && !cfg.disableStoreBaseOnly {
          CellsHoldNoInterior(cfg, g, prog, layout, cs, j);
        }
        StepFollows(cfg, prog, layout, b, picks, j, before.s);
      }
    }
  }

  lemma TrackedAccessFails(cfg: Config, s: State, base: int, size: int, off: int, delta: int, c: Choice)
    requires TracksAt(base, size, off, true, s) && Leaves(cfg, off + delta, size) && off >= 0 && (cfg.baseOnly ==> off == 0)
    ensures Step(cfg, s, AssertValidPtr(base + off, delta), c) == Error
  {
  }

  /** If the picked moves bring the tracked pointer to the operand of an access that leaves the block,
      then the run with those picks fails at that access or before it, in every layout with the block lowest. */
  lemma TrackedViolationFails(cfg: Config, prog: Program, layout: Layout, picks: seq<bool>, n: nat)
    requires n < |prog| == |picks| && Allowed(cfg, picks) && Formed(prog)
    requires prog[n].Access? && (cfg.baseOnly ==> prog[n].p.off == 0)
    requires var b := prog[n].p.block;
             Lowest(prog, layout, b) && (forall j :: 0 <= j < n ==> PickFits(prog, layout, b, picks, j)) &&
             prog[n].p.off == Track(prog, b, picks, n) >= 0 &&
             Blocks(prog, |prog|)[b] >= 0 && Leaves(cfg, prog[n].p.off + prog[n].delta, Blocks(prog, |prog|)[b])
    requires LoadsPass(cfg, prog, layout) || LoadsStayOutside(cfg, prog, layout, prog[n].p.block, n)
    ensures var b := prog[n].p.block;
            Run(cfg, Guess(layout(b), Blocks(prog, |prog|)[b]), Events(prog, layout),
                Choices(prog, layout, b, picks), n + 1).Failed?
  {
    assert prog[n].p in Operand(prog[n]);
    var b := prog[n].p.block;
    RunFollows(cfg, prog, layout, b, picks, n);
    assert Events(prog, layout)[n] == EventAt(prog, layout, n);
    var g, cs := Guess(layout(b), Blocks(prog, |prog|)[b]), Choices(prog, layout, b, picks);
    var r := Run(cfg, g, Events(prog, layout), cs, n);
    if r.Alive? {
      TrackedAccessFails(cfg, r.s, layout(b), g.size, prog[n].p.off, prog[n].delta, cs[n]);
    }
  }

  /** Completeness: an access that leaves its block through a derived pointer fails, at that access or before it,
      in every layout with the block lowest, for some guesses and choices. */
  lemma EveryViolationFails(cfg: Config, prog: Program, layout: Layout, n: nat) returns (g: Guess, cs: seq<Choice>)
    requires n < |prog| && Formed(prog) && prog[n].Access?
    requires if cfg.baseOnly then prog[n].p.off == 0 else Derived(prog, prog[n].p, n)
    requires var b := prog[n].p.block;
             Lowest(prog, layout, b) && Blocks(prog, |prog|)[b] >= 0 &&
             Leaves(cfg, prog[n].p.off + prog[n].delta, Blocks(prog, |prog|)[b])
    requires LoadsPass(cfg, prog, layout)
    ensures |cs| == |prog| && Run(cfg, g, Events(prog, layout), cs, n + 1).Failed?
  {
    var b := prog[n].p.block;
    assert prog[n].p in Operand(prog[n]);
    var picks := DerivedIsTrackable(prog, prog[n].p, n);
    g, cs := Guess(layout(b), Blocks(prog, |prog|)[b]), Choices(prog, layout, b, picks);
    TrackedViolationFails(cfg, prog, layout, picks, n);
  }
}

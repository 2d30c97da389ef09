/** The monitor of benchmarks/seahorn/abc/abc3.c: it guesses one bad address, lets one block lie below it,
    and follows no pointers at all. */
module BadPointerMonitor {
  import opened BoundsProgram
  import E = MonitorExactness

  datatype State = State(bad: int, active: bool, top: int)

  /** The three values read by `sea_abc_init`; the second must repeat the first. */
  datatype BadGuess = BadGuess(bad: int, copy: int, top: int)

  /** What an allocation reads: whether to place the block below the bad address, and a copy of the block's address. */
  datatype Placement = Placement(low: bool, copy: int)

  function Init(g: BadGuess): Verdict<State> {
    if g.copy > 0 && g.copy == g.bad && g.top > g.bad then Go(State(g.bad, false, g.top)) else Cut
  }

  function Step(s: State, e: Event, c: Placement): Verdict<State> {
    match e
    case Alloc(base, size) =>
      if c.copy <= 0 || c.copy != base then Cut
      else if c.low then
        if !s.active && base + size < s.bad then Go(s.(active := true)) else Cut
      else
        if base > s.top && s.top > s.bad then Go(s.(top := s.top + size)) else Cut
    case AssertValidPtr(base, offset) =>
      if base > s.bad || base + offset < s.bad then Go(s) else Error
    case AssertValidOffset(offset, size) =>
      if offset <= size then Go(s) else Error
    case _ => Go(s)
  }

  function Run(g: BadGuess, es: seq<Event>, cs: seq<Placement>, i: nat): Outcome<State>
    requires i <= |es| == |cs|
  {
    if i == 0 then Continue(Init(g), 0)
    else
      match Run(g, es, cs, i - 1)
      case Alive(s) => Continue(Step(s, es[i - 1], cs[i - 1]), i - 1)
      case Pruned(at) => Pruned(at)
      case Failed(at) => Failed(at)
  }

  lemma {:induction false} StoppedStays(g: BadGuess, es: seq<Event>, cs: seq<Placement>, i: nat, j: nat)
    requires i <= j <= |es| == |cs| && !Run(g, es, cs, i).Alive?
    ensures Run(g, es, cs, j) == Run(g, es, cs, i)
    decreases j
  {
    if i < j {
      StoppedStays(g, es, cs, i, j - 1);
    }
  }

  class Monitor {
    var seaBadPtr: int
    var seaActive: bool
    var seaTopAlloc: int

    function View(): State
      reads this
    {
      State(seaBadPtr, seaActive, seaTopAlloc)
    }

    method AbcInit(ndBad: int, ndCopy: int, ndTop: int) returns (mark: Mark)
      modifies this
      ensures Report(mark, View()) == Init(BadGuess(ndBad, ndCopy, ndTop))
    {
      seaBadPtr := ndBad;
      var tmp := ndCopy;
      if !(tmp > 0) { return Prune; }
      if tmp != seaBadPtr { return Prune; }
      seaActive := false;
      seaTopAlloc := ndTop;
      if !(seaTopAlloc > seaBadPtr) { return Prune; }
      return Proceed;
    }

    method AbcAlloc(base: int, size: int, nd: Placement) returns (mark: Mark)
      modifies this
      ensures Report(mark, View()) == Step(old(View()), Alloc(base, size), nd)
    {
      var tmp := nd.copy;
      if !(tmp > 0) { return Prune; }
      if tmp != base { return Prune; }
      if nd.low {
        if seaActive { return Prune; }
        seaActive := true;
        if !(base + size < seaBadPtr) { return Prune; }
      } else {
        if !(base > seaTopAlloc) { return Prune; }
        if !(seaTopAlloc > seaBadPtr) { return Prune; }
        seaTopAlloc := seaTopAlloc + size;
      }
      return Proceed;
    }

    method AbcAssertValidPtr(base: int, offset: int, nd: Placement) returns (mark: Mark)
      ensures Report(mark, View()) == Step(View(), AssertValidPtr(base, offset), nd)
    {
      if !(base > seaBadPtr || base + offset < seaBadPtr) { return Alarm; }
      return Proceed;
    }

    method AbcAssertValidOffset(offset: int, size: int, nd: Placement) returns (mark: Mark)
      ensures Report(mark, View()) == Step(View(), AssertValidOffset(offset, size), nd)
    {
      if !(offset <= size) { return Alarm; }
      return Proceed;
    }

    /** One call of the instrumented program. */
    method Call(e: Event, nd: Placement) returns (mark: Mark)
      modifies this
      ensures Report(mark, View()) == Step(old(View()), e, nd)
    {
      match e {
        case Alloc(base, size) => mark := AbcAlloc(base, size, nd);
        case AssertValidPtr(base, offset) => mark := AbcAssertValidPtr(base, offset, nd);
        case AssertValidOffset(offset, size) => mark := AbcAssertValidOffset(offset, size, nd);
        case _ => mark := Proceed;
      }
    }

    /** The instrumented program runs until a call stops it. */
    method Drive(g: BadGuess, es: seq<Event>, nds: seq<Placement>) returns (outcome: Outcome<State>)
      requires |es| == |nds|
      modifies this
      ensures outcome == Run(g, es, nds, |es|)
    {
      var mark := AbcInit(g.bad, g.copy, g.top);
      if mark != Proceed {
        StoppedStays(g, es, nds, 0, |es|);
        return Pruned(0);
      }
      for i := 0 to |es|
        invariant Run(g, es, nds, i) == Alive(View())
      {
        mark := Call(es[i], nds[i]);
        if mark != Proceed {
          StoppedStays(g, es, nds, i + 1, |es|);
          return if mark == Prune then Pruned(i) else Failed(i);
        }
      }
      outcome := Alive(View());
    }
  }

  /** The room taken by the first `k` blocks without block `low`: how far they push up the top of the allocations. */
  function HighBefore(sizes: seq<int>, low: nat, k: nat): int
    requires k <= |sizes|
  {
    if k == 0 then 0 else HighBefore(sizes, low, k - 1) + if k - 1 == low then 0 else sizes[k - 1]
  }

  lemma {:induction false} HighBeforeAgrees(sizes: seq<int>, low: nat, sizes': seq<int>, low': nat, k: nat)
    requires k <= |sizes| && sizes <= sizes' && (low == low' || (low >= k && low' >= k))
    ensures HighBefore(sizes, low, k) == HighBefore(sizes', low', k)
  {
    if k > 0 {
      HighBeforeAgrees(sizes, low, sizes', low', k - 1);
    }
  }

  lemma {:induction false} HighBeforeIsInHeight(sizes: seq<int>, low: nat, gap: nat, k: nat)
    requires k <= |sizes| && NonNegative(sizes)
    ensures 0 <= HighBefore(sizes, low, k) <= Height(sizes, gap, k)
  {
    if k > 0 {
      HighBeforeIsInHeight(sizes, low, gap, k - 1);
    }
  }

  predicate Below(s: State, base: int, size: int) {
    base + size < s.bad
  }

  /** At most one block (block `b`, once the flag is set) lies below the bad address; each other one starts above it, by
      more than the room that the blocks before it take above the bad address. */
  ghost predicate Divided(prog: Program, layout: Layout, i: nat, s: State, b: nat)
    requires i <= |prog|
  {
    var sizes := Blocks(prog, i);
    (if s.active then b < |sizes| && Below(s, layout(b), sizes[b]) else b >= |sizes|) &&
    (forall k: nat {:trigger layout(k)} :: k < |sizes| && k != b ==> layout(k) > s.bad + 1 + HighBefore(sizes, b, k)) &&
    s.top >= s.bad + 1 + HighBefore(sizes, b, |sizes|)
  }

  lemma LowAllocationDivides(prog: Program, layout: Layout, i: nat, s: State, b: nat)
    requires i < |prog| && prog[i].Allocate? && Divided(prog, layout, i, s, b) && !s.active
    requires layout(|Blocks(prog, i)|) + prog[i].size < s.bad
    ensures Divided(prog, layout, i + 1, s.(active := true), |Blocks(prog, i)|)
  {
    var sizes, sizes' := Blocks(prog, i), Blocks(prog, i + 1);
    forall k: nat | k < |sizes|
      ensures layout(k) > s.bad + 1 + HighBefore(sizes', |sizes|, k)
    {
      HighBeforeAgrees(sizes, b, sizes', |sizes|, k);
    }
    HighBeforeAgrees(sizes, b, sizes', |sizes|, |sizes|);
  }

  lemma HighAllocationDivides(prog: Program, layout: Layout, i: nat, s: State, b: nat)
    requires i < |prog| && prog[i].Allocate? && Divided(prog, layout, i, s, b) && layout(|Blocks(prog, i)|) > s.top
    ensures Divided(prog, layout, i + 1, s.(top := s.top + prog[i].size), if s.active then b else b + 1)
  {
    var sizes, sizes', b' := Blocks(prog, i), Blocks(prog, i + 1), if s.active then b else b + 1;
    assert sizes' == sizes + [prog[i].size];
    HighBeforeAgrees(sizes, b, sizes', b', |sizes|);
    assert HighBefore(sizes', b', |sizes'|) == HighBefore(sizes, b, |sizes|) + prog[i].size;
    forall k: nat {:trigger layout(k)} | k < |sizes'| && k != b'
      ensures layout(k) > s.bad + 1 + HighBefore(sizes', b', k)
    {
      if k < |sizes| {
        HighBeforeAgrees(sizes, b, sizes', b', k);
      }
    }
  }

  lemma StepKeepsDivided(prog: Program, layout: Layout, i: nat, s: State, b: nat, c: Placement) returns (b': nat)
    requires i < |prog| && Divided(prog, layout, i, s, b)
    ensures var v := Step(s, EventAt(prog, layout, i), c);
            v.Go? ==> Divided(prog, layout, i + 1, v.s, b') && v.s.bad == s.bad
  {
    b' := b;
    var v := Step(s, EventAt(prog, layout, i), c);
    if prog[i].Allocate? && v.Go? {
      if c.low {
        b' := |Blocks(prog, i)|;
        LowAllocationDivides(prog, layout, i, s, b);
      } else {
        b' := if s.active then b else b + 1;
        HighAllocationDivides(prog, layout, i, s, b);
      }
    }
  }

  /** In every live state, for every layout and all choices, the bad address divides the blocks. */
  lemma {:induction false} BlocksAreDivided(g: BadGuess, prog: Program, layout: Layout, cs: seq<Placement>, i: nat)
    returns (b: nat)
    requires i <= |prog| == |cs|
    ensures var r := Run(g, Events(prog, layout), cs, i);
            r.Alive? ==> Divided(prog, layout, i, r.s, b) && r.s.bad > 0
    decreases i
  {
    b := 0;
    if i > 0 {
      b := BlocksAreDivided(g, prog, layout, cs, i - 1);
      var before := Run(g, Events(prog, layout), cs, i - 1);
      if before.Alive? {
        b := StepKeepsDivided(prog, layout, i - 1, before.s, b, cs[i - 1]);
      }
    }
  }

  /** The room that the allocations above the bad address have taken in the first `i` calls. */
  function RoomAbove(prog: Program, cs: seq<Placement>, i: nat): int
    requires i <= |prog| == |cs|
  {
    if i == 0 then 0
    else RoomAbove(prog, cs, i - 1) + if prog[i - 1].Allocate? && !cs[i - 1].low then prog[i - 1].size else 0
  }

  predicate LowBefore(prog: Program, cs: seq<Placement>, i: nat)
    requires i <= |prog| == |cs|
  {
    exists j :: 0 <= j < i && prog[j].Allocate? && cs[j].low
  }

  predicate Consistent(g: BadGuess) {
    g.copy == g.bad > 0 && g.top > g.bad
  }

  /** What the assumes ask of one allocation: a positive address, read a second time; and that it is the only one below the
      bad address and ends there, or that it lies above all the room taken so far. */
  predicate Admitted(g: BadGuess, prog: Program, layout: Layout, cs: seq<Placement>, j: nat)
    requires j < |prog| == |cs|
  {
    prog[j].Allocate? ==>
      var base := layout(|Blocks(prog, j)|);
      cs[j].copy == base > 0 &&
      if cs[j].low then !LowBefore(prog, cs, j) && base + prog[j].size < g.bad
      else base > g.top + RoomAbove(prog, cs, j) > g.bad
  }

  lemma StepIsAdmitted(g: BadGuess, prog: Program, layout: Layout, cs: seq<Placement>, j: nat)
    requires j < |prog| == |cs|
    ensures var v := Step(State(g.bad, LowBefore(prog, cs, j), g.top + RoomAbove(prog, cs, j)), EventAt(prog, layout, j), cs[j]);
            v.Cut? <==> !Admitted(g, prog, layout, cs, j)
    ensures var v := Step(State(g.bad, LowBefore(prog, cs, j), g.top + RoomAbove(prog, cs, j)), EventAt(prog, layout, j), cs[j]);
            v.Go? ==> v.s == State(g.bad, LowBefore(prog, cs, j + 1), g.top + RoomAbove(prog, cs, j + 1))
  {
    assert LowBefore(prog, cs, j + 1) <==> LowBefore(prog, cs, j) || (prog[j].Allocate? && cs[j].low);
  }

  /** Which runs go on, for every program, layout, guess and choices: those whose guess is consistent and whose allocations
      are all admitted. The state is what has been allocated. */
  lemma {:induction false} AliveIffAdmitted(g: BadGuess, prog: Program, layout: Layout, cs: seq<Placement>, i: nat)
    requires i <= |prog| == |cs|
    ensures var r := Run(g, Events(prog, layout), cs, i);
            r.Failed? || (r.Alive? <==> Consistent(g) && forall j :: 0 <= j < i ==> Admitted(g, prog, layout, cs, j))
    ensures var r := Run(g, Events(prog, layout), cs, i);
            r.Alive? ==> r.s == State(g.bad, LowBefore(prog, cs, i), g.top + RoomAbove(prog, cs, i))
    decreases i
  {
    if i > 0 {
      AliveIffAdmitted(g, prog, layout, cs, i - 1);
      StepIsAdmitted(g, prog, layout, cs, i - 1);
      assert Events(prog, layout)[i - 1] == EventAt(prog, layout, i - 1);
    }
  }

  /** With nonnegative sizes the top of the allocations stays above the bad address, so the optional assume is implied. */
  lemma {:induction false} TopStaysAboveBad(g: BadGuess, es: seq<Event>, cs: seq<Placement>, i: nat)
    requires i <= |es| == |cs|
    requires forall j :: 0 <= j < |es| && es[j].Alloc? ==> es[j].size >= 0
    ensures var r := Run(g, es, cs, i); r.Alive? ==> r.s.top > r.s.bad
  {
    if i > 0 {
      TopStaysAboveBad(g, es, cs, i - 1);
    }
  }

  /** An access that reaches the bad address from its base upwards, for some placement of the blocks: either it goes past
      the end of its block, or its base lies so far below the block that the bad address fits in between, above the room
      of the earlier blocks, of which one may be placed below it. */
  ghost predicate Seen(prog: Program, n: nat)
    requires n < |prog|
  {
    match prog[n]
    case Access(p, delta) =>
      var sizes := Blocks(prog, n);
      p.block < |sizes| && delta >= 0 &&
      (p.off + delta > sizes[p.block] || exists a: nat :: 2 + HighBefore(sizes, a, p.block) <= -p.off)
    case AccessKnown(delta, size) => delta > size
    case _ => false
  }

  lemma FailingCallIsSeen(prog: Program, layout: Layout, n: nat, s: State, b: nat, c: Placement)
    requires n < |prog| && Formed(prog) && Divided(prog, layout, n, s, b)
    requires Step(s, EventAt(prog, layout, n), c) == Error
    ensures Seen(prog, n)
  {
    if prog[n].Access? {
      assert prog[n].p in Operand(prog[n]);
      var k := prog[n].p.block;
      assert k != b ==> 2 + HighBefore(Blocks(prog, n), b, k) <= -prog[n].p.off;
    }
  }

  /** Soundness, for every program: a run that fails has made an access that the monitor can see. */
  lemma {:induction false} NoFalseAlarm(g: BadGuess, prog: Program, layout: Layout, cs: seq<Placement>, i: nat)
    requires i <= |prog| == |cs| && Formed(prog)
    requires forall j :: 0 <= j < |prog| ==> !Seen(prog, j)
    ensures !Run(g, Events(prog, layout), cs, i).Failed?
  {
    if i > 0 {
      NoFalseAlarm(g, prog, layout, cs, i - 1);
      var before := Run(g, Events(prog, layout), cs, i - 1);
      assert Events(prog, layout)[i - 1] == EventAt(prog, layout, i - 1);
      if before.Alive? && Step(before.s, EventAt(prog, layout, i - 1), cs[i - 1]) == Error {
        var b := BlocksAreDivided(g, prog, layout, cs, i - 1);
        FailingCallIsSeen(prog, layout, i - 1, before.s, b, cs[i - 1]);
      }
    }
  }

  /** A placement of all blocks that the assumes admit, with block `low`, if there is one, below the bad address. */
  ghost predicate Course(sizes: seq<int>, layout: Layout, low: nat, bad: int) {
    bad > 0 && NonNegative(sizes) &&
    (low < |sizes| ==> layout(low) > 0 && layout(low) + sizes[low] < bad) &&
    forall k: nat {:trigger layout(k)} :: k < |sizes| && k != low ==> layout(k) > bad + 1 + HighBefore(sizes, low, k)
  }

  function Guessed(bad: int): BadGuess {
    BadGuess(bad, bad, bad + 1)
  }

  function Placements(prog: Program, layout: Layout, low: nat): (cs: seq<Placement>)
    ensures |cs| == |prog|
    ensures forall j :: 0 <= j < |prog| ==> cs[j] == Placement(|Blocks(prog, j)| == low, layout(|Blocks(prog, j)|))
  {
    seq(|prog|, j requires 0 <= j < |prog| => Placement(|Blocks(prog, j)| == low, layout(|Blocks(prog, j)|)))
  }

  function StateAt(sizes: seq<int>, low: nat, bad: int, allocs: nat): State
    requires allocs <= |sizes|
  {
    State(bad, low < allocs, bad + 1 + HighBefore(sizes, low, allocs))
  }

  lemma AllocationStaysOnCourse(prog: Program, layout: Layout, low: nat, bad: int, j: nat)
    requires j < |prog| && prog[j].Allocate? && Course(Blocks(prog, |prog|), layout, low, bad)
    ensures |Blocks(prog, j)| < |Blocks(prog, |prog|)|
    ensures var sizes := Blocks(prog, |prog|);
            var k := |Blocks(prog, j)|;
            Step(StateAt(sizes, low, bad, k), Alloc(layout(k), prog[j].size), Placement(k == low, layout(k))) ==
              Go(StateAt(sizes, low, bad, k + 1))
  {
    var sizes := Blocks(prog, |prog|);
    var k := |Blocks(prog, j)|;
    BlocksGrow(prog, j + 1, |prog|);
    assert Blocks(prog, j + 1)[k] == prog[j].size == sizes[k] >= 0;
    HighBeforeIsInHeight(sizes, low, 0, k);
  }

  lemma OtherCallsStayOnCourse(prog: Program, layout: Layout, j: nat, s: State, c: Placement)
    requires j < |prog| && !prog[j].Allocate?
    ensures var v := Step(s, EventAt(prog, layout, j), c); v == Error || v == Go(s)
    ensures Blocks(prog, j + 1) == Blocks(prog, j)
  {
  }

  lemma StepStaysOnCourse(prog: Program, layout: Layout, low: nat, bad: int, j: nat)
    requires j < |prog| && Course(Blocks(prog, |prog|), layout, low, bad)
    ensures |Blocks(prog, j)| <= |Blocks(prog, j + 1)| <= |Blocks(prog, |prog|)|
    ensures var sizes := Blocks(prog, |prog|);
            var v := Step(StateAt(sizes, low, bad, |Blocks(prog, j)|), Events(prog, layout)[j], Placements(prog, layout, low)[j]);
            v == Error || v == Go(StateAt(sizes, low, bad, |Blocks(prog, j + 1)|))
  {
    BlocksGrow(prog, j, j + 1);
    BlocksGrow(prog, j + 1, |prog|);
    assert Events(prog, layout)[j] == EventAt(prog, layout, j);
    if prog[j].Allocate? {
      AllocationStaysOnCourse(prog, layout, low, bad, j);
    } else {
      OtherCallsStayOnCourse(prog, layout, j, StateAt(Blocks(prog, |prog|), low, bad, |Blocks(prog, j)|),
                             Placements(prog, layout, low)[j]);
    }
  }

  /** With such a placement no assume prunes the run. */
  lemma {:induction false} StaysOnCourse(prog: Program, layout: Layout, low: nat, bad: int, i: nat)
    requires i <= |prog| && Course(Blocks(prog, |prog|), layout, low, bad)
    ensures |Blocks(prog, i)| <= |Blocks(prog, |prog|)|
    ensures var r := Run(Guessed(bad), Events(prog, layout), Placements(prog, layout, low), i);
            r.Failed? || r == Alive(StateAt(Blocks(prog, |prog|), low, bad, |Blocks(prog, i)|))
    decreases i
  {
    if i == 0 {
      BlocksGrow(prog, 0, |prog|);
    } else {
      StaysOnCourse(prog, layout, low, bad, i - 1);
      StepStaysOnCourse(prog, layout, low, bad, i - 1);
    }
  }

  ghost predicate Reported(prog: Program) {
    exists layout: Layout, g: BadGuess, cs: seq<Placement> :: ProperLayout(prog, layout) && Fails(prog, layout, g, cs)
  }

  ghost predicate Fails(prog: Program, layout: Layout, g: BadGuess, cs: seq<Placement>) {
    |cs| == |prog| && Run(g, Events(prog, layout), cs, |prog|).Failed?
  }

  lemma FailureIsReported(prog: Program, layout: Layout, g: BadGuess, cs: seq<Placement>, i: nat)
    requires i <= |prog| == |cs| && ProperLayout(prog, layout) && Run(g, Events(prog, layout), cs, i).Failed?
    ensures Reported(prog)
  {
    StoppedStays(g, Events(prog, layout), cs, i, |prog|);
    assert Fails(prog, layout, g, cs);
  }

  /** An access from at or below the bad address to at or above it. */
  predicate Reaches(prog: Program, layout: Layout, bad: int, n: nat)
    requires n < |prog|
  {
    match prog[n]
    case Access(p, delta) => At(layout, p) <= bad <= At(layout, p) + delta
    case AccessKnown(delta, size) => delta > size
    case _ => false
  }

  lemma ReachingFails(prog: Program, layout: Layout, low: nat, bad: int, n: nat)
    requires n < |prog| && Course(Blocks(prog, |prog|), layout, low, bad) && Reaches(prog, layout, bad, n)
    ensures Run(Guessed(bad), Events(prog, layout), Placements(prog, layout, low), n + 1).Failed?
  {
    StaysOnCourse(prog, layout, low, bad, n);
    var s := StateAt(Blocks(prog, |prog|), low, bad, |Blocks(prog, n)|);
    assert Events(prog, layout)[n] == EventAt(prog, layout, n);
    assert Step(s, EventAt(prog, layout, n), Placements(prog, layout, low)[n]) == Error;
  }

  /** Such an access fails, or something before it does. */
  lemma ReachingBadIsReported(prog: Program, layout: Layout, low: nat, bad: int, n: nat)
    requires n < |prog| && ProperLayout(prog, layout) && Course(Blocks(prog, |prog|), layout, low, bad)
    requires Reaches(prog, layout, bad, n)
    ensures Reported(prog)
  {
    var g, es, cs := Guessed(bad), Events(prog, layout), Placements(prog, layout, low);
    assert Run(g, es, cs, n + 1).Failed? by { ReachingFails(prog, layout, low, bad, n); }
    FailureIsReported(prog, layout, g, cs, n + 1);
  }

  /** The placement for an access past the end of block `b`: this block at address 2, the bad address just past the block
      or at the base of the access, and everything else above that. */
  lemma PastTheEndIsReported(prog: Program, b: nat, n: nat)
    requires n < |prog| && Formed(prog) && NonNegative(Blocks(prog, |prog|)) && b < |Blocks(prog, |prog|)|
    requires match prog[n]
             case Access(p, delta) => b == p.block && delta >= 0 && p.off + delta > Blocks(prog, |prog|)[b]
             case AccessKnown(delta, size) => delta > size
             case _ => false
    ensures Reported(prog)
  {
    var sizes := Blocks(prog, |prog|);
    var off := if prog[n].Access? then prog[n].p.off else 0;
    var bad := 2 + if off > sizes[b] then off else sizes[b] + 1;
    var layout := StackedAbove(sizes, b, Abs(off));
    AnyBlockCanBeLowest(prog, b, Abs(off));
    forall k: nat | k < |sizes| && k != b
      ensures layout(k) > bad + 1 + HighBefore(sizes, b, k)
    {
      HighBeforeIsInHeight(sizes, b, Abs(off), k);
    }
    assert sizes[b] >= 0;
    ReachingBadIsReported(prog, layout, b, bad, n);
  }

  /** The placement for a base below block `b`: block `low`, if there is one, at address 1, the bad address above it, the
      block `depth` above the bad address, and the others above the block. */
  function Sunken(sizes: seq<int>, b: nat, low: nat, bad: int, depth: int): Layout
    requires b < |sizes|
  {
    (k: nat) => if k == low then 1 else if k == b || k > |sizes| then bad + depth
                else bad + depth + sizes[b] + 2 + Height(sizes, 0, k)
  }

  lemma SunkenIsProper(prog: Program, b: nat, low: nat, bad: int, depth: int)
    requires var sizes := Blocks(prog, |prog|);
             b < |sizes| && low != b && NonNegative(sizes) && depth > 0 && bad > 0 && (low < |sizes| ==> bad > 1 + sizes[low])
    ensures ProperLayout(prog, Sunken(Blocks(prog, |prog|), b, low, bad, depth))
  {
    var sizes := Blocks(prog, |prog|);
    var layout := Sunken(sizes, b, low, bad, depth);
    forall k: nat | k < |sizes| && k != low
      ensures layout(k) >= bad + depth && (k != b ==> layout(k) > bad + depth + sizes[b])
    {
      assert sizes[b] >= 0;
      HighBeforeIsInHeight(sizes, low, 0, k);
    }
    forall j: nat, k: nat | j < k < |sizes|
      ensures layout(j) + sizes[j] < layout(k) || layout(k) + sizes[k] < layout(j)
    {
      HeightGrows(sizes, 0, j, k);
    }
  }

  lemma FarBelowIsReported(prog: Program, a: nat, n: nat)
    requires n < |prog| && Formed(prog) && NonNegative(Blocks(prog, |prog|)) && prog[n].Access? && prog[n].delta >= 0
    requires prog[n].p.block < |Blocks(prog, |prog|)|
    requires 2 + HighBefore(Blocks(prog, |prog|), a, prog[n].p.block) <= -prog[n].p.off
    ensures Reported(prog)
  {
    var sizes, b, depth := Blocks(prog, |prog|), prog[n].p.block, -prog[n].p.off;
    var low := if a < b then a else |sizes|;
    var bad := if a < b then sizes[a] + 3 else 1;
    var layout := Sunken(sizes, b, low, bad, depth);
    HighBeforeAgrees(sizes, a, sizes, low, b);
    HighBeforeIsInHeight(sizes, a, 0, b);
    SunkenIsProper(prog, b, low, bad, depth);
    forall k: nat | k < |sizes| && k != low
      ensures layout(k) > bad + 1 + HighBefore(sizes, low, k)
    {
      HighBeforeIsInHeight(sizes, low, 0, k);
      assert sizes[b] >= 0;
    }
    ReachingBadIsReported(prog, layout, low, bad, n);
  }

  /** A program without blocks is not pruned either. */
  lemma {:induction false} BlocklessRunsOn(prog: Program, layout: Layout, cs: seq<Placement>, i: nat, n: nat)
    requires i <= |prog| == |cs| && Formed(prog) && |Blocks(prog, |prog|)| == 0
    requires n < |prog| && Seen(prog, n)
    ensures var r := Run(BadGuess(1, 1, 2), Events(prog, layout), cs, i);
            r.Failed? || (r.Alive? && i <= n)
    decreases i
  {
    if i > 0 {
      BlocklessRunsOn(prog, layout, cs, i - 1, n);
      BlocklessOnlyKnown(prog, i - 1);
      assert Events(prog, layout)[i - 1] == EventAt(prog, layout, i - 1);
    }
  }

  lemma BlocklessIsReported(prog: Program, n: nat)
    requires n < |prog| && Seen(prog, n) && Formed(prog) && |Blocks(prog, |prog|)| == 0
    ensures Reported(prog)
  {
    var layout: Layout := (k: nat) => 1;
    var cs := seq(|prog|, _ => Placement(false, 0));
    BlocklessRunsOn(prog, layout, cs, |prog|, n);
    assert Fails(prog, layout, BadGuess(1, 1, 2), cs);
  }

  /** Completeness, for every program: whatever the monitor can see, some run reports. */
  lemma SeenIsReported(prog: Program, n: nat)
    requires n < |prog| && Seen(prog, n) && Formed(prog) && NonNegative(Blocks(prog, |prog|))
    ensures Reported(prog)
  {
    var sizes := Blocks(prog, |prog|);
    BlocksGrow(prog, n, |prog|);
    if |sizes| == 0 {
      BlocklessIsReported(prog, n);
    } else if prog[n].AccessKnown? {
      PastTheEndIsReported(prog, 0, n);
    } else if prog[n].p.off + prog[n].delta > sizes[prog[n].p.block] {
      PastTheEndIsReported(prog, prog[n].p.block, n);
    } else {
      var a: nat :| 2 + HighBefore(Blocks(prog, n), a, prog[n].p.block) <= -prog[n].p.off;
      HighBeforeAgrees(Blocks(prog, n), a, sizes, a, prog[n].p.block);
      FarBelowIsReported(prog, a, n);
    }
  }

  /** Exactness, for every program: some run fails if and only if some access can be seen. */
  lemma ReportedIffSeen(prog: Program)
    requires Formed(prog) && NonNegative(Blocks(prog, |prog|))
    ensures Reported(prog) <==> exists n :: 0 <= n < |prog| && Seen(prog, n)
  {
    if n :| 0 <= n < |prog| && Seen(prog, n) {
      SeenIsReported(prog, n);
    } else if Reported(prog) {
      var layout: Layout, g: BadGuess, cs: seq<Placement> :| ProperLayout(prog, layout) && Fails(prog, layout, g, cs);
      NoFalseAlarm(g, prog, layout, cs, |prog|);
    }
  }

  /** An access upwards that ends past its block. */
  predicate Overflows(prog: Program, n: nat)
    requires n < |prog|
  {
    match prog[n]
    case Access(p, delta) => p.block < |Blocks(prog, n)| && delta >= 0 && p.off + delta > Blocks(prog, n)[p.block]
    case AccessKnown(delta, size) => delta > size
    case _ => false
  }

  /** No access goes through a base below its block. */
  ghost predicate AccessesFromAbove(prog: Program) {
    forall i :: 0 <= i < |prog| && prog[i].Access? ==> prog[i].p.off >= 0
  }

  /** Through bases that are not below their blocks, past their end or not, exactly the upward overflows are reported. */
  lemma ReportedIffOverflows(prog: Program)
    requires Formed(prog) && AccessesFromAbove(prog) && NonNegative(Blocks(prog, |prog|))
    ensures Reported(prog) <==> exists n :: 0 <= n < |prog| && Overflows(prog, n)
  {
    ReportedIffSeen(prog);
    forall n | 0 <= n < |prog|
      ensures Seen(prog, n) <==> Overflows(prog, n)
    {
      SeenFromAbove(prog, n);
    }
  }

  lemma SeenFromAbove(prog: Program, n: nat)
    requires n < |prog| && NonNegative(Blocks(prog, |prog|)) && (prog[n].Access? ==> prog[n].p.off >= 0)
    ensures Seen(prog, n) <==> Overflows(prog, n)
  {
    var sizes := Blocks(prog, n);
    BlocksGrow(prog, n, |prog|);
    assert NonNegative(sizes) by {
      forall k | 0 <= k < |sizes| ensures sizes[k] >= 0 {
        assert sizes[k] == Blocks(prog, |prog|)[k];
      }
    }
    if prog[n].Access? && prog[n].p.block < |sizes| {
      forall a: nat ensures HighBefore(sizes, a, prog[n].p.block) >= 0 {
        HighBeforeIsInHeight(sizes, a, 0, prog[n].p.block);
      }
    }
  }

  /** The configuration of the reference monitor that checks what this one checks: upward overflow only. */
  const UPWARD := Config(true, false, true)

  /** Two encodings, one verdict: on fully logged programs whose pointers stay inside their blocks, the bad-pointer
      monitor reports exactly the programs that the reference monitor reports without its underflow checks. */
  lemma SameVerdictAsReference(prog: Program)
    requires Formed(prog) && PointersInside(prog) && WellLogged(prog) && NonNegative(Blocks(prog, |prog|))
    ensures Reported(prog) <==> E.Reported(UPWARD, prog)
  {
    forall i | 0 <= i < |prog|
      ensures prog[i].Access? ==> prog[i].p.off >= 0
      ensures Overflows(prog, i) <==> Violates(UPWARD, prog, i)
    {
      assert prog[i].Access? ==> prog[i].p in Operand(prog[i]);
    }
    ReportedIffOverflows(prog);
    E.ReportedIffViolated(UPWARD, prog);
  }
}

/** The vocabulary shared by the array-bounds-check monitors (benchmarks/seahorn/abc/abc*.c).

    An instrumented program is a sequence of calls into a monitor. The calls are described twice:
    - `Event` is what the monitor sees: plain addresses and offsets;
    - `Call` is what the program means: every pointer carries the block it was derived from.
    A layout places the blocks in memory and turns a program of calls into a run of events.
    Addresses and sizes are unbounded integers. */
module BoundsProgram {
  /** The calls of the instrumentation interface, with addresses as arguments. */
  datatype Event =
    | Alloc(base: int, size: int)
    | LogPtr(base: int, offset: int)
    | AssertValidPtr(base: int, offset: int)
    | AssertValidOffset(offset: int, size: int)
    | LogLoad(lhs: int, cell: int)
    | LogStore(value: int, cell: int)

  /** What one call reads from `nd_int64_t` and `nd_int8_ptr`. */
  datatype Choice = Choice(skip: bool, guess: int)

  /** The two values guessed by `sea_abc_init`. */
  datatype Guess = Guess(base: int, size: int)

  /** The preprocessor switches of the monitors. */
  datatype Config = Config(disableUnderflow: bool, baseOnly: bool, disableStoreBaseOnly: bool)

  /** How one monitor call ends: it returns, an `assume` is false, or an `assert` is false. */
  datatype Mark = Proceed | Prune | Alarm

  /** A call's ending together with the monitor state it leaves behind. */
  datatype Verdict<+S> = Go(s: S) | Cut | Error

  function Report<S>(mark: Mark, s: S): Verdict<S> {
    match mark
    case Proceed => Go(s)
    case Prune => Cut
    case Alarm => Error
  }

  /** How a run ends: still alive, or stopped by the event with index `at`. */
  datatype Outcome<+S> = Alive(s: S) | Pruned(at: nat) | Failed(at: nat)

  function Continue<S>(v: Verdict<S>, at: nat): Outcome<S> {
    match v
    case Go(s) => Alive(s)
    case Cut => Pruned(at)
    case Error => Failed(at)
  }

  /** A pointer of the program: the block it was derived from, and its distance from the block's base. */
  datatype Pointer = Pointer(block: nat, off: int)

  /** The calls of the instrumentation interface, with symbolic pointers as arguments. */
  datatype Call =
    | Allocate(size: int)
    | Move(p: Pointer, delta: int)
    | Access(p: Pointer, delta: int)
    | AccessKnown(delta: int, size: int)
    | Load(lhs: Pointer, cell: int)
    | Store(value: Pointer, cell: int)

  type Program = seq<Call>
  type Layout = nat -> int

  /** The sizes of the blocks allocated by the first `i` calls; block `k` is the `k`-th allocation. */
  function Blocks(prog: Program, i: nat): (sizes: seq<int>)
    requires i <= |prog|
  {
    if i == 0 then []
    else if prog[i - 1].Allocate? then Blocks(prog, i - 1) + [prog[i - 1].size]
    else Blocks(prog, i - 1)
  }

  lemma {:induction false} BlocksGrow(prog: Program, i: nat, j: nat)
    requires i <= j <= |prog|
    ensures Blocks(prog, i) <= Blocks(prog, j)
    decreases j
  {
    if i < j {
      BlocksGrow(prog, i, j - 1);
    }
  }

  /** The pointer a call works on, if it works on one. */
  function Operand(c: Call): (ps: seq<Pointer>) {
    match c
    case Move(p, _) => [p]
    case Access(p, _) => [p]
    case Load(lhs, _) => [lhs]
    case Store(value, _) => [value]
    case _ => []
  }

  /** Every pointer belongs to a block that has already been allocated. */
  ghost predicate Formed(prog: Program) {
    forall i, p {:trigger p in Operand(prog[i])} :: 0 <= i < |prog| && p in Operand(prog[i]) ==> p.block < |Blocks(prog, i)|
  }

  function At(layout: Layout, p: Pointer): int {
    layout(p.block) + p.off
  }

  function EventAt(prog: Program, layout: Layout, i: nat): Event
    requires i < |prog|
  {
    match prog[i]
    case Allocate(size) => Alloc(layout(|Blocks(prog, i)|), size)
    case Move(p, delta) => LogPtr(At(layout, p), delta)
    case Access(p, delta) => AssertValidPtr(At(layout, p), delta)
    case AccessKnown(delta, size) => AssertValidOffset(delta, size)
    case Load(lhs, cell) => LogLoad(At(layout, lhs), cell)
    case Store(value, cell) => LogStore(At(layout, value), cell)
  }

  /** The events a monitor sees when `prog` runs with its blocks placed by `layout`. */
  function Events(prog: Program, layout: Layout): (es: seq<Event>)
    ensures |es| == |prog|
    ensures forall i :: 0 <= i < |prog| ==> es[i] == EventAt(prog, layout, i)
  {
    seq(|prog|, i requires 0 <= i < |prog| => EventAt(prog, layout, i))
  }

  predicate Within(off: int, size: int) {
    0 <= off <= size
  }

  /** An offset outside its block, as far as the configuration checks it. */
  predicate Leaves(cfg: Config, off: int, size: int) {
    off > size || (!cfg.disableUnderflow && off < 0)
  }

  /** An access that leaves its block, as far as the configuration looks at it: with `baseOnly` it only looks at
      accesses through the base of a block. */
  predicate Violates(cfg: Config, prog: Program, i: nat)
    requires i < |prog|
  {
    match prog[i]
    case Access(p, delta) =>
      (cfg.baseOnly ==> p.off == 0) && p.block < |Blocks(prog, i)| && Leaves(cfg, p.off + delta, Blocks(prog, i)[p.block])
    case AccessKnown(delta, size) => delta > size
    case _ => false
  }

  /** All pointers the program holds or creates point into their block or one past its end. */
  ghost predicate PointersInside(prog: Program)
    requires Formed(prog)
  {
    forall i :: 0 <= i < |prog| ==>
      (forall p {:trigger p in Operand(prog[i])} :: p in Operand(prog[i]) ==> Within(p.off, Blocks(prog, i)[p.block])) &&
      (prog[i].Move? ==>
         prog[i].p in Operand(prog[i]) && Within(prog[i].p.off + prog[i].delta, Blocks(prog, i)[prog[i].p.block]))
  }

  /** The program stores only pointers to the base of a block or to its end. */
  ghost predicate StoresEnds(prog: Program)
    requires Formed(prog)
  {
    forall i :: 0 <= i < |prog| && prog[i].Store? ==>
      prog[i].value in Operand(prog[i]) && prog[i].value.off in {0, Blocks(prog, i)[prog[i].value.block]}
  }

  /** `p` was reached from its block's base by moves among the first `i` calls, never going below the base. */
  ghost predicate Derived(prog: Program, p: Pointer, i: nat)
    requires i <= |prog|
    decreases i
  {
    p.block < |Blocks(prog, i)| &&
    (p.off == 0 || (p.off > 0 && exists j :: 0 <= j < i && Creates(prog[j], p) && Derived(prog, prog[j].p, j)))
  }

  predicate Creates(c: Call, p: Pointer) {
    c.Move? && Pointer(c.p.block, c.p.off + c.delta) == p
  }

  /** Every pointer that is accessed has its whole derivation in the log. */
  ghost predicate WellLogged(prog: Program) {
    forall i :: 0 <= i < |prog| && prog[i].Access? ==> Derived(prog, prog[i].p, i)
  }

  /** Blocks have positive addresses and are pairwise disjoint, with at least one byte between them. */
  ghost predicate ProperLayout(prog: Program, layout: Layout) {
    var sizes := Blocks(prog, |prog|);
    (forall k: nat :: k < |sizes| ==> layout(k) > 0) &&
    (forall j: nat, k: nat :: j < k < |sizes| ==>
       layout(j) + sizes[j] < layout(k) || layout(k) + sizes[k] < layout(j))
  }

  /** Block `b` lies below all other blocks. */
  ghost predicate Lowest(prog: Program, layout: Layout, b: nat) {
    var sizes := Blocks(prog, |prog|);
    b < |sizes| && layout(b) > 0 &&
    forall k: nat :: k < |sizes| && k != b ==> layout(b) + sizes[b] < layout(k)
  }

  function Abs(x: int): (a: nat)
    ensures a == x || a == -x
  {
    if x < 0 then -x else x
  }

  /** How far from its block a call can see a pointer, or put one. */
  function Distance(c: Call): nat {
    match c
    case Move(p, delta) => Abs(p.off) + Abs(delta)
    case Access(p, _) => Abs(p.off)
    case Load(lhs, _) => Abs(lhs.off)
    case Store(value, _) => Abs(value.off)
    case _ => 0
  }

  /** A bound for the distances of the first `i` calls. */
  function Span(prog: Program, i: nat): nat
    requires i <= |prog|
  {
    if i == 0 then 0 else Span(prog, i - 1) + Distance(prog[i - 1])
  }

  lemma {:induction false} SpanCovers(prog: Program, j: nat, i: nat)
    requires j < i <= |prog|
    ensures Span(prog, j) + Distance(prog[j]) <= Span(prog, i)
    decreases i
  {
    if j < i - 1 {
      SpanCovers(prog, j, i - 1);
    }
  }

  /** A proper layout in which the blocks are so far apart that pointers from different blocks never meet. */
  ghost predicate Apart(prog: Program, layout: Layout) {
    var sizes, gap := Blocks(prog, |prog|), 2 * Span(prog, |prog|);
    (forall k: nat :: k < |sizes| ==> layout(k) > 0) &&
    (forall j: nat, k: nat :: j < k < |sizes| ==>
       layout(j) + sizes[j] + gap < layout(k) || layout(k) + sizes[k] + gap < layout(j))
  }

  lemma ApartIsProper(prog: Program, layout: Layout)
    requires Apart(prog, layout)
    ensures ProperLayout(prog, layout)
  {
  }

  /** With the blocks apart, a pointer is at an address inside a block only if it was derived from this block. */
  lemma InsideOwnBlock(prog: Program, layout: Layout, p: Pointer, b: nat)
    requires Apart(prog, layout) && NonNegative(Blocks(prog, |prog|)) && Abs(p.off) <= Span(prog, |prog|)
    requires p.block < |Blocks(prog, |prog|)| && b < |Blocks(prog, |prog|)|
    requires 0 <= At(layout, p) - layout(b) <= Blocks(prog, |prog|)[b]
    ensures p.block == b
  {
    var sizes := Blocks(prog, |prog|);
    assert sizes[p.block] >= 0 && sizes[b] >= 0;
  }

  lemma SameAddressSamePointer(prog: Program, layout: Layout, p: Pointer, q: Pointer)
    requires Apart(prog, layout) && NonNegative(Blocks(prog, |prog|)) && At(layout, p) == At(layout, q)
    requires p.block < |Blocks(prog, |prog|)| && q.block < |Blocks(prog, |prog|)|
    requires Abs(p.off) <= Span(prog, |prog|) && Abs(q.off) <= Span(prog, |prog|)
    ensures p == q
  {
    var sizes := Blocks(prog, |prog|);
    assert sizes[p.block] >= 0 && sizes[q.block] >= 0;
  }

  /** All blocks lie above address 1. */
  ghost predicate AboveOne(prog: Program, layout: Layout) {
    forall k: nat :: k < |Blocks(prog, |prog|)| ==> layout(k) > 1
  }

  /** The room taken by the first `k` blocks when they are stacked with a gap after each. */
  function Height(sizes: seq<int>, gap: nat, k: nat): (h: int)
    requires k <= |sizes|
  {
    if k == 0 then 0 else Height(sizes, gap, k - 1) + sizes[k - 1] + 1 + gap
  }

  predicate NonNegative(sizes: seq<int>) {
    forall k :: 0 <= k < |sizes| ==> sizes[k] >= 0
  }

  lemma {:induction false} HeightGrows(sizes: seq<int>, gap: nat, j: nat, k: nat)
    requires j < k <= |sizes| && NonNegative(sizes)
    ensures Height(sizes, gap, j) + sizes[j] + 1 + gap <= Height(sizes, gap, k)
    decreases k
  {
    if j < k - 1 {
      HeightGrows(sizes, gap, j, k - 1);
      assert sizes[k - 1] >= 0;
    }
  }

  /** Where block `k` goes when block `b` is put at address 2 and the others are stacked above it. */
  function Stacked(sizes: seq<int>, b: nat, gap: nat, k: nat): int
    requires b < |sizes|
  {
    if k == b || k > |sizes| then 2 else sizes[b] + 5 + gap + Height(sizes, gap, k)
  }

  function StackedAbove(sizes: seq<int>, b: nat, gap: nat): Layout
    requires b < |sizes|
  {
    (k: nat) => Stacked(sizes, b, gap, k)
  }

  lemma StackedIsAbove(sizes: seq<int>, b: nat, gap: nat, k: nat)
    requires b < |sizes| && k < |sizes| && k != b && NonNegative(sizes)
    ensures Stacked(sizes, b, gap, b) + sizes[b] + gap < Stacked(sizes, b, gap, k)
  {
    if k > 0 {
      HeightGrows(sizes, gap, 0, k);
      assert sizes[0] >= 0;
    }
  }

  lemma StackedIsDisjoint(sizes: seq<int>, b: nat, gap: nat, j: nat, k: nat)
    requires b < |sizes| && j < k < |sizes| && NonNegative(sizes)
    ensures Stacked(sizes, b, gap, j) + sizes[j] + gap < Stacked(sizes, b, gap, k) ||
            Stacked(sizes, b, gap, k) + sizes[k] + gap < Stacked(sizes, b, gap, j)
  {
    if j == b {
      StackedIsAbove(sizes, b, gap, k);
    } else if k == b {
      StackedIsAbove(sizes, b, gap, j);
    } else {
      HeightGrows(sizes, gap, j, k);
    }
  }

  /** Any block of any program can be placed below all others, with the blocks as far apart as one likes. */
  lemma AnyBlockCanBeLowest(prog: Program, b: nat, gap: nat)
    requires b < |Blocks(prog, |prog|)| && NonNegative(Blocks(prog, |prog|))
    ensures var layout := StackedAbove(Blocks(prog, |prog|), b, gap);
            ProperLayout(prog, layout) && Lowest(prog, layout, b) && AboveOne(prog, layout) &&
            (gap >= 2 * Span(prog, |prog|) ==> Apart(prog, layout))
  {
    var sizes := Blocks(prog, |prog|);
    forall k: nat | k < |sizes| && k != b
      ensures Stacked(sizes, b, gap, b) + sizes[b] + gap < Stacked(sizes, b, gap, k)
    {
      StackedIsAbove(sizes, b, gap, k);
    }
    assert sizes[b] >= 0;
    forall j: nat, k: nat | j < k < |sizes|
      ensures Stacked(sizes, b, gap, j) + sizes[j] + gap < Stacked(sizes, b, gap, k) ||
              Stacked(sizes, b, gap, k) + sizes[k] + gap < Stacked(sizes, b, gap, j)
    {
      StackedIsDisjoint(sizes, b, gap, j, k);
    }
  }

  lemma NoBlocksNoPointers(prog: Program, j: nat)
    requires j < |prog| && Formed(prog) && |Blocks(prog, j)| == 0
    ensures Operand(prog[j]) == []
  {
    var ps := Operand(prog[j]);
    forall k | 0 <= k < |ps|
      ensures ps[k].block < |Blocks(prog, j)|
    {
      assert ps[k] in Operand(prog[j]);
    }
    assert |ps| == 0 || ps[0].block >= 0;
  }

  lemma BlocklessOnlyKnown(prog: Program, j: nat)
    requires j < |prog| && Formed(prog) && |Blocks(prog, |prog|)| == 0
    ensures prog[j].AccessKnown?
  {
    BlocksGrow(prog, j, |prog|);
    NoBlocksNoPointers(prog, j);
    if prog[j].Allocate? {
      BlocksGrow(prog, j + 1, |prog|);
      assert false;
    }
  }
}

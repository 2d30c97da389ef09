/** The monitor of benchmarks/seahorn/abc/abc4.c, which keeps the number of bytes left beyond the tracked pointer
    instead of its offset, and its simulation of the reference monitor. */
module DerefMonitor {
  import opened BoundsProgram
  import Ref = OffsetMonitor

  datatype State = State(base: int, ptr: int, derefBytes: int, size: int, active: bool)

  function Init(g: Guess): Verdict<State> {
    if g.base > 0 && g.size >= 0 then Go(State(g.base, 0, 0, g.size, false)) else Cut
  }

  predicate Interior(s: State, address: int) {
    0 <= address - s.base < s.size && address != s.base
  }

  function Step(cfg: Config, s: State, e: Event, c: Choice): Verdict<State> {
    match e
    case Alloc(base, size) =>
      if !s.active && s.base == base then
        if s.size == size && c.guess == s.base then Go(s.(ptr := c.guess, derefBytes := s.size, active := true)) else Cut
      else if s.base + s.size < base then Go(s) else Cut
    case LogPtr(base, offset) =>
      if cfg.baseOnly || c.skip || !s.active || s.ptr != base then Go(s)
      else if c.guess == base + offset then Go(s.(ptr := c.guess, derefBytes := s.derefBytes - offset))
      else Cut
    case AssertValidPtr(base, offset) =>
      if !s.active then Go(s)
      else if base == s.base then
        if (cfg.disableUnderflow || offset >= 0) && offset <= s.size then Go(s) else Error
      else if cfg.baseOnly || base != s.ptr then Go(s)
      else if s.ptr <= s.base then Cut
      else if s.derefBytes - offset >= 0 then Go(s) else Error
    case AssertValidOffset(offset, size) =>
      if offset <= size then Go(s) else Error
    case LogLoad(lhs, _) =>
      if cfg.disableStoreBaseOnly || !s.active || !Interior(s, lhs) then Go(s) else Cut
    case LogStore(value, _) =>
      if cfg.disableStoreBaseOnly || !s.active || !Interior(s, value) then Go(s) else Error
  }

  function Run(cfg: Config, g: Guess, es: seq<Event>, cs: seq<Choice>, i: nat): Outcome<State>
    requires i <= |es| == |cs|
  {
    if i == 0 then Continue(Init(g), 0)
    else
      match Run(cfg, g, es, cs, i - 1)
      case Alive(s) => Continue(Step(cfg, s, es[i - 1], cs[i - 1]), i - 1)
      case Pruned(at) => Pruned(at)
      case Failed(at) => Failed(at)
  }

  lemma {:induction false} StoppedStays(cfg: Config, g: Guess, es: seq<Event>, cs: seq<Choice>, i: nat, j: nat)
    requires i <= j <= |es| == |cs| && !Run(cfg, g, es, cs, i).Alive?
    ensures Run(cfg, g, es, cs, j) == Run(cfg, g, es, cs, i)
    decreases j
  {
    if i < j {
      StoppedStays(cfg, g, es, cs, i, j - 1);
    }
  }

  class Monitor {
    const cfg: Config
    var seaBase: int
    var seaPtr: int
    var seaDerefBytes: int
    var seaSize: int
    var seaActive: bool

    function View(): State
      reads this
    {
      State(seaBase, seaPtr, seaDerefBytes, seaSize, seaActive)
    }

    constructor (cfg: Config)
      ensures this.cfg == cfg
    {
      this.cfg := cfg;
    }

    method AbcInit(ndBase: int, ndSize: int) returns (mark: Mark)
      modifies this
      ensures Report(mark, View()) == Init(Guess(ndBase, ndSize))
    {
      seaBase := ndBase;
      if !(seaBase > 0) { return Prune; }
      seaSize := ndSize;
      if !(seaSize >= 0) { return Prune; }
      seaDerefBytes := 0;
      seaPtr := 0;
      seaActive := false;
      return Proceed;
    }

    method AbcAlloc(base: int, size: int, nd: Choice) returns (mark: Mark)
      modifies this
      ensures Report(mark, View()) == Step(cfg, old(View()), Alloc(base, size), nd)
    {
      if !seaActive && seaBase == base {
        if seaSize != size { return Prune; }
        seaPtr := nd.guess;
        if seaPtr != seaBase { return Prune; }
        seaDerefBytes := seaSize;
        seaActive := true;
      } else if !(seaBase + seaSize < base) {
        return Prune;
      }
      return Proceed;
    }

    method AbcLogPtr(base: int, offset: int, nd: Choice) returns (mark: Mark)
      modifies this
      ensures Report(mark, View()) == Step(cfg, old(View()), LogPtr(base, offset), nd)
    {
      if !cfg.baseOnly {
        if nd.skip { return Proceed; }
        if seaActive && seaPtr == base {
          seaPtr := nd.guess;
          if seaPtr != base + offset { return Prune; }
          seaDerefBytes := seaDerefBytes - offset;
        }
      }
      return Proceed;
    }

    method AbcAssertValidPtr(base: int, offset: int, nd: Choice) returns (mark: Mark)
      ensures Report(mark, View()) == Step(cfg, View(), AssertValidPtr(base, offset), nd)
    {
      if !seaActive { return Proceed; }
      if base == seaBase {
        if !cfg.disableUnderflow && !(offset >= 0) { return Alarm; }
        if !(offset <= seaSize) { return Alarm; }
      } else if !cfg.baseOnly && base == seaPtr {
        if !(seaPtr > seaBase) { return Prune; }
        if !(seaDerefBytes - offset >= 0) { return Alarm; }
      }
      return Proceed;
    }

    method AbcAssertValidOffset(offset: int, size: int, nd: Choice) returns (mark: Mark)
      ensures Report(mark, View()) == Step(cfg, View(), AssertValidOffset(offset, size), nd)
    {
      if !(offset <= size) { return Alarm; }
      return Proceed;
    }

    method AbcLogLoadPtr(lhs: int, cell: int, nd: Choice) returns (mark: Mark)
      ensures Report(mark, View()) == Step(cfg, View(), LogLoad(lhs, cell), nd)
    {
      if !cfg.disableStoreBaseOnly {
        if !seaActive { return Proceed; }
        var offset := lhs - seaBase;
        var isValidPtr := 0 <= offset && offset < seaSize;
        if !(!isValidPtr || lhs == seaBase) { return Prune; }
      }
      return Proceed;
    }

    method AbcLogStorePtr(value: int, cell: int, nd: Choice) returns (mark: Mark)
      ensures Report(mark, View()) == Step(cfg, View(), LogStore(value, cell), nd)
    {
      if !cfg.disableStoreBaseOnly {
        if !seaActive { return Proceed; }
        var offset := value - seaBase;
        var isValidPtr := 0 <= offset && offset < seaSize;
        if !(!isValidPtr || value == seaBase) { return Alarm; }
      }
      return Proceed;
    }

    /** One call of the instrumented program. */
    method Call(e: Event, nd: Choice) returns (mark: Mark)
      modifies this
      ensures Report(mark, View()) == Step(cfg, old(View()), e, nd)
    {
      match e {
        case Alloc(base, size) => mark := AbcAlloc(base, size, nd);
        case LogPtr(base, offset) => mark := AbcLogPtr(base, offset, nd);
        case AssertValidPtr(base, offset) => mark := AbcAssertValidPtr(base, offset, nd);
        case AssertValidOffset(offset, size) => mark := AbcAssertValidOffset(offset, size, nd);
        case LogLoad(lhs, cell) => mark := AbcLogLoadPtr(lhs, cell, nd);
        case LogStore(value, cell) => mark := AbcLogStorePtr(value, cell, nd);
      }
    }

    /** The instrumented program runs until a call stops it. */
    method Drive(g: Guess, es: seq<Event>, nds: seq<Choice>) returns (outcome: Outcome<State>)
      requires |es| == |nds|
      modifies this
      ensures outcome == Run(cfg, g, es, nds, |es|)
    {
      var mark := AbcInit(g.base, g.size);
      if mark != Proceed {
        StoppedStays(cfg, g, es, nds, 0, |es|);
        return Pruned(0);
      }
      for i := 0 to |es|
        invariant Run(cfg, g, es, nds, i) == Alive(View())
      {
        mark := Call(es[i], nds[i]);
        if mark != Proceed {
          StoppedStays(cfg, g, es, nds, i + 1, |es|);
          return if mark == Prune then Pruned(i) else Failed(i);
        }
      }
      outcome := Alive(View());
    }
  }

  /** The correspondence of states: the bytes left and the offset add up to the size. */
  ghost predicate Related(s: State, r: Ref.State) {
    s.base == r.base && s.ptr == r.ptr && s.size == r.size && s.active == r.active &&
    (s.active ==> s.derefBytes == s.size - r.offset) &&
    (!s.active ==> r.offset == 0)
  }

  ghost predicate SameVerdict(v: Verdict<State>, w: Verdict<Ref.State>) {
    match (v, w)
    case (Go(s), Go(r)) => Related(s, r)
    case (Cut, Cut) => true
    case (Error, Error) => true
    case _ => false
  }

  /** The one kind of access the bytes-left encoding lets pass: below the block, through the tracked pointer. */
  predicate Missed(cfg: Config, r: Ref.State, e: Event) {
    !cfg.disableUnderflow && !cfg.baseOnly && r.active && e.AssertValidPtr? &&
    e.base != r.base && e.base == r.ptr && r.ptr > r.base && r.offset + e.offset < 0 <= r.size
  }

  /** Step for step the two monitors agree exactly on all events but the missed ones. */
  lemma StepsAgreeIffNotMissed(cfg: Config, s: State, r: Ref.State, e: Event, c: Choice)
    requires Related(s, r) && r.size >= 0
    ensures SameVerdict(Step(cfg, s, e, c), Ref.Step(cfg, r, e, c)) <==> !Missed(cfg, r, e)
    ensures Missed(cfg, r, e) ==> Ref.Step(cfg, r, e, c) == Error && Step(cfg, s, e, c) == Go(s)
  {
  }

  ghost predicate SameOutcome(o: Outcome<State>, q: Outcome<Ref.State>) {
    match (o, q)
    case (Alive(s), Alive(r)) => Related(s, r) && r.size >= 0
    case (Pruned(i), Pruned(j)) => i == j
    case (Failed(i), Failed(j)) => i == j
    case _ => false
  }

  /** The reference monitor has failed at a missed access, and this one has gone on. */
  ghost predicate Diverged(cfg: Config, g: Guess, es: seq<Event>, cs: seq<Choice>, i: nat)
    requires i <= |es| == |cs|
  {
    var r := Ref.Run(cfg, g, es, cs, i);
    r.Failed? && r.at < i && Ref.Run(cfg, g, es, cs, r.at).Alive? &&
    Missed(cfg, Ref.Run(cfg, g, es, cs, r.at).s, es[r.at]) && Run(cfg, g, es, cs, r.at + 1).Alive?
  }

  /** Simulation over whole runs: under the same choices both monitors are alive in related states, are pruned by the
      same event or fail at the same event, unless the reference monitor fails at a missed access. */
  lemma {:induction false} RunsAgreeUnlessMissed(cfg: Config, g: Guess, es: seq<Event>, cs: seq<Choice>, i: nat)
    requires i <= |es| == |cs|
    ensures SameOutcome(Run(cfg, g, es, cs, i), Ref.Run(cfg, g, es, cs, i)) || Diverged(cfg, g, es, cs, i)
    decreases i
  {
    if i > 0 {
      RunsAgreeUnlessMissed(cfg, g, es, cs, i - 1);
      var s, r := Run(cfg, g, es, cs, i - 1), Ref.Run(cfg, g, es, cs, i - 1);
      if s.Alive? && r.Alive? {
        StepsAgreeIffNotMissed(cfg, s.s, r.s, es[i - 1], cs[i - 1]);
      } else if r.Failed? {
        assert Ref.Run(cfg, g, es, cs, i) == r;
      }
    }
  }

  /** With DISABLE_UNDERFLOW the two monitors are indistinguishable. */
  lemma SameWithoutUnderflow(cfg: Config, g: Guess, es: seq<Event>, cs: seq<Choice>, i: nat)
    requires i <= |es| == |cs| && cfg.disableUnderflow
    ensures SameOutcome(Run(cfg, g, es, cs, i), Ref.Run(cfg, g, es, cs, i))
  {
    RunsAgreeUnlessMissed(cfg, g, es, cs, i);
  }

  /** What the bytes-left monitor reports, the reference monitor reports at the same event or before. */
  lemma AlarmsAreShared(cfg: Config, g: Guess, es: seq<Event>, cs: seq<Choice>, i: nat)
    requires i <= |es| == |cs| && Run(cfg, g, es, cs, i).Failed?
    ensures var r := Ref.Run(cfg, g, es, cs, i);
            r.Failed? && r.at <= Run(cfg, g, es, cs, i).at
  {
    RunsAgreeUnlessMissed(cfg, g, es, cs, i);
    var r := Ref.Run(cfg, g, es, cs, i);
    if !SameOutcome(Run(cfg, g, es, cs, i), r) {
      FailsAfterAlive(cfg, g, es, cs, r.at + 1, i);
    }
  }

  lemma {:induction false} FailsAfterAlive(cfg: Config, g: Guess, es: seq<Event>, cs: seq<Choice>, i: nat, j: nat)
    requires i <= j <= |es| == |cs|
    requires Run(cfg, g, es, cs, i).Alive? && Run(cfg, g, es, cs, j).Failed?
    ensures Run(cfg, g, es, cs, j).at >= i
    decreases j
  {
    if i < j && Run(cfg, g, es, cs, j - 1).Failed? {
      FailsAfterAlive(cfg, g, es, cs, i, j - 1);
    }
  }
}

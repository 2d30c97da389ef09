/** The monitor of benchmarks/seahorn/abc/abc.c, in which a nonzero tracked pointer doubles as the active flag,
    and its bisimulation with the reference monitor. */
module FlagPointerMonitor {
  import opened BoundsProgram
  import Ref = OffsetMonitor

  datatype State = State(base: int, ptr: int, offset: int, size: int)

  function Init(g: Guess): Verdict<State> {
    if g.base > 0 && g.size >= 0 then Go(State(g.base, 0, 0, g.size)) else Cut
  }

  function Step(cfg: Config, s: State, e: Event, c: Choice): Verdict<State> {
    match e
    case Alloc(base, size) =>
      if s.ptr == 0 && s.base == base then
        if s.size == size && c.guess == s.base then Go(s.(ptr := c.guess)) else Cut
      else if s.base + s.size < base then Go(s) else Cut
    case LogPtr(base, offset) =>
      if cfg.baseOnly || c.skip || s.ptr == 0 || s.ptr != base then Go(s)
      else if c.guess == base + offset then Go(s.(ptr := c.guess, offset := s.offset + offset))
      else Cut
    case AssertValidPtr(base, offset) =>
      if s.ptr == 0 then Go(s)
      else if base == s.base then
        if (cfg.disableUnderflow || offset >= 0) && offset <= s.size then Go(s) else Error
      else if cfg.baseOnly || base != s.ptr then Go(s)
      else if s.ptr <= s.base then Cut
      else if (cfg.disableUnderflow || s.offset + offset >= 0) && s.offset + offset <= s.size then Go(s) else Error
    case AssertValidOffset(offset, size) =>
      if offset <= size then Go(s) else Error
    case LogLoad(_, _) => Go(s)
    case LogStore(_, _) => Go(s)
  }

  function Run(cfg: Config, g: Guess, es: seq<Event>, cs: seq<Choice>, i: nat): Outcome<State>
    requires i <= |es| == |cs|
  {
    if i == 0 then Continue(Init(g), 0)
    else
      match Run(cfg, g, es, cs, i - 1)
      case Alive(s) => Continue(Step(cfg, s, es[i - 1], cs[i - 1]), i - 1)
      case Pruned(at) => Pruned(at)
      case Failed(at) => Failed(at)
  }

  lemma {:induction false} StoppedStays(cfg: Config, g: Guess, es: seq<Event>, cs: seq<Choice>, i: nat, j: nat)
    requires i <= j <= |es| == |cs| && !Run(cfg, g, es, cs, i).Alive?
    ensures Run(cfg, g, es, cs, j) == Run(cfg, g, es, cs, i)
    decreases j
  {
    if i < j {
      StoppedStays(cfg, g, es, cs, i, j - 1);
    }
  }

  class Monitor {
    const cfg: Config
    var seaBase: int
    var seaPtr: int
    var seaOffset: int
    var seaSize: int

    function View(): State
      reads this
    {
      State(seaBase, seaPtr, seaOffset, seaSize)
    }

    constructor (cfg: Config)
      ensures this.cfg == cfg
    {
      this.cfg := cfg;
    }

    method AbcInit(ndBase: int, ndSize: int) returns (mark: Mark)
      modifies this
      ensures Report(mark, View()) == Init(Guess(ndBase, ndSize))
    {
      seaBase := ndBase;
      if !(seaBase > 0) { return Prune; }
      seaSize := ndSize;
      if !(seaSize >= 0) { return Prune; }
      seaOffset := 0;
      seaPtr := 0;
      return Proceed;
    }

    method AbcAlloc(base: int, size: int, nd: Choice) returns (mark: Mark)
      modifies this
      ensures Report(mark, View()) == Step(cfg, old(View()), Alloc(base, size), nd)
    {
      if seaPtr == 0 && seaBase == base {
        if seaSize != size { return Prune; }
        seaPtr := nd.guess;
        if seaPtr != seaBase { return Prune; }
      } else if !(seaBase + seaSize < base) {
        return Prune;
      }
      return Proceed;
    }

    method AbcLogPtr(base: int, offset: int, nd: Choice) returns (mark: Mark)
      modifies this
      ensures Report(mark, View()) == Step(cfg, old(View()), LogPtr(base, offset), nd)
    {
      if !cfg.baseOnly {
        if nd.skip { return Proceed; }
        if seaPtr != 0 && seaPtr == base {
          seaPtr := nd.guess;
          if seaPtr != base + offset { return Prune; }
          seaOffset := seaOffset + offset;
        }
      }
      return Proceed;
    }

    method AbcAssertValidPtr(base: int, offset: int, nd: Choice) returns (mark: Mark)
      ensures Report(mark, View()) == Step(cfg, View(), AssertValidPtr(base, offset), nd)
    {
      if seaPtr == 0 { return Proceed; }
      if base == seaBase {
        if !cfg.disableUnderflow && !(offset >= 0) { return Alarm; }
        if !(offset <= seaSize) { return Alarm; }
      } else if !cfg.baseOnly && base == seaPtr {
        if !(seaPtr > seaBase) { return Prune; }
        if !cfg.disableUnderflow && !(seaOffset + offset >= 0) { return Alarm; }
        if !(seaOffset + offset <= seaSize) { return Alarm; }
      }
      return Proceed;
    }

    method AbcAssertValidOffset(offset: int, size: int, nd: Choice) returns (mark: Mark)
      ensures Report(mark, View()) == Step(cfg, View(), AssertValidOffset(offset, size), nd)
    {
      if !(offset <= size) { return Alarm; }
      return Proceed;
    }

    /** One call of the instrumented program. */
    method Call(e: Event, nd: Choice) returns (mark: Mark)
      modifies this
      ensures Report(mark, View()) == Step(cfg, old(View()), e, nd)
    {
      match e {
        case Alloc(base, size) => mark := AbcAlloc(base, size, nd);
        case LogPtr(base, offset) => mark := AbcLogPtr(base, offset, nd);
        case AssertValidPtr(base, offset) => mark := AbcAssertValidPtr(base, offset, nd);
        case AssertValidOffset(offset, size) => mark := AbcAssertValidOffset(offset, size, nd);
        case LogLoad(_, _) => mark := Proceed;
        case LogStore(_, _) => mark := Proceed;
      }
    }

    /** The instrumented program runs until a call stops it. */
    method Drive(g: Guess, es: seq<Event>, nds: seq<Choice>) returns (outcome: Outcome<State>)
      requires |es| == |nds|
      modifies this
      ensures outcome == Run(cfg, g, es, nds, |es|)
    {
      var mark := AbcInit(g.base, g.size);
      if mark != Proceed {
        StoppedStays(cfg, g, es, nds, 0, |es|);
        return Pruned(0);
      }
      for i := 0 to |es|
        invariant Run(cfg, g, es, nds, i) == Alive(View())
      {
        mark := Call(es[i], nds[i]);
        if mark != Proceed {
          StoppedStays(cfg, g, es, nds, i + 1, |es|);
          return if mark == Prune then Pruned(i) else Failed(i);
        }
      }
      outcome := Alive(View());
    }
  }

  /** The correspondence of states: the tracked pointer is nonzero exactly while the block is active. */
  ghost predicate Related(s: State, r: Ref.State) {
    s.base == r.base && s.size == r.size && s.offset == r.offset && s.ptr == r.ptr && (r.active <==> s.ptr != 0)
  }

  ghost predicate SameVerdict(v: Verdict<State>, w: Verdict<Ref.State>) {
    match (v, w)
    case (Go(s), Go(r)) => Related(s, r)
    case (Cut, Cut) => true
    case (Error, Error) => true
    case _ => false
  }

  /** An accepted move of the tracked pointer to address 0. */
  predicate LandsOnNull(cfg: Config, r: Ref.State, e: Event, c: Choice) {
    !cfg.baseOnly && !c.skip && r.active && e.LogPtr? && e.base == r.ptr && c.guess == e.base + e.offset == 0
  }

  /** This monitor has no checks of loads and stores, and no switch for them: it is compared with the reference monitor
      without these checks. */
  function NoStoreChecks(cfg: Config): Config {
    cfg.(disableStoreBaseOnly := true)
  }

  /** Step for step the two monitors stay related exactly as long as no move lands on address 0. */
  lemma StepsAgreeIffNotNull(cfg: Config, s: State, r: Ref.State, e: Event, c: Choice)
    requires Related(s, r) && r.base > 0
    ensures SameVerdict(Step(cfg, s, e, c), Ref.Step(NoStoreChecks(cfg), r, e, c)) <==> !LandsOnNull(cfg, r, e, c)
  {
  }

  ghost predicate SameOutcome(o: Outcome<State>, q: Outcome<Ref.State>) {
    match (o, q)
    case (Alive(s), Alive(r)) => Related(s, r) && r.base > 0
    case (Pruned(i), Pruned(j)) => i == j
    case (Failed(i), Failed(j)) => i == j
    case _ => false
  }

  ghost predicate NeverOnNull(cfg: Config, g: Guess, es: seq<Event>, cs: seq<Choice>, i: nat)
    requires i <= |es| == |cs|
  {
    forall j :: 0 <= j < i && Ref.Run(NoStoreChecks(cfg), g, es, cs, j).Alive? ==>
      !LandsOnNull(cfg, Ref.Run(NoStoreChecks(cfg), g, es, cs, j).s, es[j], cs[j])
  }

  ghost predicate AgreeThroughout(cfg: Config, g: Guess, es: seq<Event>, cs: seq<Choice>, i: nat)
    requires i <= |es| == |cs|
  {
    forall k :: 0 <= k <= i ==> SameOutcome(Run(cfg, g, es, cs, k), Ref.Run(NoStoreChecks(cfg), g, es, cs, k))
  }

  /** From related states the runs stay related by one more event exactly if it does not land on address 0. */
  lemma OneMoreAgrees(cfg: Config, g: Guess, es: seq<Event>, cs: seq<Choice>, j: nat)
    requires j < |es| == |cs| && Ref.Run(NoStoreChecks(cfg), g, es, cs, j).Alive?
    requires SameOutcome(Run(cfg, g, es, cs, j), Ref.Run(NoStoreChecks(cfg), g, es, cs, j))
    ensures SameOutcome(Run(cfg, g, es, cs, j + 1), Ref.Run(NoStoreChecks(cfg), g, es, cs, j + 1)) <==>
            !LandsOnNull(cfg, Ref.Run(NoStoreChecks(cfg), g, es, cs, j).s, es[j], cs[j])
  {
    StepsAgreeIffNotNull(cfg, Run(cfg, g, es, cs, j).s, Ref.Run(NoStoreChecks(cfg), g, es, cs, j).s, es[j], cs[j]);
  }

  /** Bisimulation over whole runs in which no accepted move lands on address 0. */
  lemma {:induction false} RunsAgree(cfg: Config, g: Guess, es: seq<Event>, cs: seq<Choice>, i: nat)
    requires i <= |es| == |cs| && NeverOnNull(cfg, g, es, cs, i)
    ensures SameOutcome(Run(cfg, g, es, cs, i), Ref.Run(NoStoreChecks(cfg), g, es, cs, i))
    decreases i
  {
    if i > 0 {
      var j := i - 1;
      RunsAgree(cfg, g, es, cs, j);
      if Ref.Run(NoStoreChecks(cfg), g, es, cs, j).Alive? {
        OneMoreAgrees(cfg, g, es, cs, j);
      }
    }
  }

  /** So over whole runs the two monitors agree all the way exactly if no accepted move lands on address 0. */
  lemma RunsAgreeIffNeverNull(cfg: Config, g: Guess, es: seq<Event>, cs: seq<Choice>, i: nat)
    requires i <= |es| == |cs|
    ensures AgreeThroughout(cfg, g, es, cs, i) <==> NeverOnNull(cfg, g, es, cs, i)
  {
    if AgreeThroughout(cfg, g, es, cs, i) {
      forall j | 0 <= j < i && Ref.Run(NoStoreChecks(cfg), g, es, cs, j).Alive?
        ensures !LandsOnNull(cfg, Ref.Run(NoStoreChecks(cfg), g, es, cs, j).s, es[j], cs[j])
      {
        OneMoreAgrees(cfg, g, es, cs, j);
      }
    }
    if NeverOnNull(cfg, g, es, cs, i) {
      forall k | 0 <= k <= i
        ensures SameOutcome(Run(cfg, g, es, cs, k), Ref.Run(NoStoreChecks(cfg), g, es, cs, k))
      {
        RunsAgree(cfg, g, es, cs, k);
      }
    }
  }

  /** The condition is needed: after a move to address 0 this monitor has forgotten its block and lets an access
      pass that the reference monitor reports. */
  lemma NullMoveHidesAnAlarm(cfg: Config, g: Guess)
    requires g.base > 0 && g.size >= 0 && !cfg.baseOnly
    ensures var es := [Alloc(g.base, g.size), LogPtr(g.base, -g.base), AssertValidPtr(g.base, g.size + 1)];
            var cs := [Choice(false, g.base), Choice(false, 0), Choice(false, 0)];
            Ref.Run(NoStoreChecks(cfg), g, es, cs, 3) == Failed(2) && Run(cfg, g, es, cs, 3).Alive?
  {
    var ref := NoStoreChecks(cfg);
    var es := [Alloc(g.base, g.size), LogPtr(g.base, -g.base), AssertValidPtr(g.base, g.size + 1)];
    var cs := [Choice(false, g.base), Choice(false, 0), Choice(false, 0)];
    assert Ref.Run(ref, g, es, cs, 0) == Alive(Ref.State(g.base, 0, 0, g.size, false));
    assert Ref.Run(ref, g, es, cs, 1) == Alive(Ref.State(g.base, g.base, 0, g.size, true));
    assert Ref.Run(ref, g, es, cs, 2) == Alive(Ref.State(g.base, 0, -g.base, g.size, true));
    assert Run(cfg, g, es, cs, 0) == Alive(State(g.base, 0, 0, g.size));
    assert Run(cfg, g, es, cs, 1) == Alive(State(g.base, g.base, 0, g.size));
    assert Run(cfg, g, es, cs, 2) == Alive(State(g.base, 0, -g.base, g.size));
  }
}

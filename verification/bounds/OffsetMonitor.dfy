/** The reference monitor of benchmarks/seahorn/abc/abc2.c: it tracks one block by its base and size, and one
    pointer into that block by its address and its offset from the base. */
module OffsetMonitor {
  import opened BoundsProgram

  datatype State = State(base: int, ptr: int, offset: int, size: int, active: bool)

  function Init(g: Guess): Verdict<State> {
    if g.base > 0 && g.size >= 0 then Go(State(g.base, 0, 0, g.size, false)) else Cut
  }

  /** True of an address inside the tracked block other than its base. */
  predicate Interior(s: State, address: int) {
    0 <= address - s.base < s.size && address != s.base
  }

  function Step(cfg: Config, s: State, e: Event, c: Choice): Verdict<State> {
    match e
    case Alloc(base, size) =>
      if !s.active && s.base == base then
        if s.size == size && c.guess == s.base then Go(s.(ptr := c.guess, active := true)) else Cut
      else if s.base + s.size < base then Go(s) else Cut
    case LogPtr(base, offset) =>
      if cfg.baseOnly || c.skip || !s.active || s.ptr != base then Go(s)
      else if c.guess == base + offset then Go(s.(ptr := c.guess, offset := s.offset + offset))
      else Cut
    case AssertValidPtr(base, offset) =>
      if !s.active then Go(s)
      else if base == s.base then
        if (cfg.disableUnderflow || offset >= 0) && offset <= s.size then Go(s) else Error
      else if cfg.baseOnly || base != s.ptr then Go(s)
      else if s.ptr <= s.base then Cut
      else if (cfg.disableUnderflow || s.offset + offset >= 0) && s.offset + offset <= s.size then Go(s) else Error
    case AssertValidOffset(offset, size) =>
      if offset <= size then Go(s) else Error
    case LogLoad(lhs, _) =>
      if cfg.disableStoreBaseOnly || !s.active || !Interior(s, lhs) then Go(s) else Cut
    case LogStore(value, _) =>
      if cfg.disableStoreBaseOnly || !s.active || !Interior(s, value) then Go(s) else Error
  }

  /** The run over the first `i` events. */
  function Run(cfg: Config, g: Guess, es: seq<Event>, cs: seq<Choice>, i: nat): Outcome<State>
    requires i <= |es| == |cs|
  {
    if i == 0 then Continue(Init(g), 0)
    else
      match Run(cfg, g, es, cs, i - 1)
      case Alive(s) => Continue(Step(cfg, s, es[i - 1], cs[i - 1]), i - 1)
      case Pruned(at) => Pruned(at)
      case Failed(at) => Failed(at)
  }

  lemma {:induction false} StoppedStays(cfg: Config, g: Guess, es: seq<Event>, cs: seq<Choice>, i: nat, j: nat)
    requires i <= j <= |es| == |cs|
    requires !Run(cfg, g, es, cs, i).Alive?
    ensures Run(cfg, g, es, cs, j) == Run(cfg, g, es, cs, i)
    decreases j
  {
    if i < j {
      StoppedStays(cfg, g, es, cs, i, j - 1);
    }
  }

  /** The monitor as the C file keeps it: five static variables updated by each call. */
  class Monitor {
    const cfg: Config
    var seaBase: int
    var seaPtr: int
    var seaOffset: int
    var seaSize: int
    var seaActive: bool

    function View(): State
      reads this
    {
      State(seaBase, seaPtr, seaOffset, seaSize, seaActive)
    }

    constructor (cfg: Config)
      ensures this.cfg == cfg
    {
      this.cfg := cfg;
    }

    method AbcInit(ndBase: int, ndSize: int) returns (mark: Mark)
      modifies this
      ensures Report(mark, View()) == Init(Guess(ndBase, ndSize))
    {
      seaBase := ndBase;
      if !(seaBase > 0) { return Prune; }
      seaSize := ndSize;
      if !(seaSize >= 0) { return Prune; }
      seaOffset := 0;
      seaPtr := 0;
      seaActive := false;
      return Proceed;
    }

    method AbcAlloc(base: int, size: int, nd: Choice) returns (mark: Mark)
      modifies this
      ensures Report(mark, View()) == Step(cfg, old(View()), Alloc(base, size), nd)
    {
      if !seaActive && seaBase == base {
        if seaSize != size { return Prune; }
        seaPtr := nd.guess;
        if seaPtr != seaBase { return Prune; }
        seaActive := true;
      } else if !(seaBase + seaSize < base) {
        return Prune;
      }
      return Proceed;
    }

    method AbcLogPtr(base: int, offset: int, nd: Choice) returns (mark: Mark)
      modifies this
      ensures Report(mark, View()) == Step(cfg, old(View()), LogPtr(base, offset), nd)
    {
      if !cfg.baseOnly {
        if nd.skip { return Proceed; }
        if seaActive && seaPtr == base {
          seaPtr := nd.guess;
          if seaPtr != base + offset { return Prune; }
          seaOffset := seaOffset + offset;
        }
      }
      return Proceed;
    }

    method AbcAssertValidPtr(base: int, offset: int, nd: Choice) returns (mark: Mark)
      ensures Report(mark, View()) == Step(cfg, View(), AssertValidPtr(base, offset), nd)
    {
      if !seaActive { return Proceed; }
      if base == seaBase {
        if !cfg.disableUnderflow && !(offset >= 0) { return Alarm; }
        if !(offset <= seaSize) { return Alarm; }
      } else if !cfg.baseOnly && base == seaPtr {
        if !(seaPtr > seaBase) { return Prune; }
        if !cfg.disableUnderflow && !(seaOffset + offset >= 0) { return Alarm; }
        if !(seaOffset + offset <= seaSize) { return Alarm; }
      }
      return Proceed;
    }

    method AbcAssertValidOffset(offset: int, size: int, nd: Choice) returns (mark: Mark)
      ensures Report(mark, View()) == Step(cfg, View(), AssertValidOffset(offset, size), nd)
    {
      if !(offset <= size) { return Alarm; }
      return Proceed;
    }

    method AbcLogLoadPtr(lhs: int, cell: int, nd: Choice) returns (mark: Mark)
      ensures Report(mark, View()) == Step(cfg, View(), LogLoad(lhs, cell), nd)
    {
      if !cfg.disableStoreBaseOnly {
        if !seaActive { return Proceed; }
        var offset := lhs - seaBase;
        var isValidPtr := 0 <= offset && offset < seaSize;
        if !(!isValidPtr || lhs == seaBase) { return Prune; }
      }
      return Proceed;
    }

    method AbcLogStorePtr(value: int, cell: int, nd: Choice) returns (mark: Mark)
      ensures Report(mark, View()) == Step(cfg, View(), LogStore(value, cell), nd)
    {
      if !cfg.disableStoreBaseOnly {
        if !seaActive { return Proceed; }
        var offset := value - seaBase;
        var isValidPtr := 0 <= offset && offset < seaSize;
        if !(!isValidPtr || value == seaBase) { return Alarm; }
      }
      return Proceed;
    }

    /** One call of the instrumented program. */
    method Call(e: Event, nd: Choice) returns (mark: Mark)
      modifies this
      ensures Report(mark, View()) == Step(cfg, old(View()), e, nd)
    {
      match e {
        case Alloc(base, size) => mark := AbcAlloc(base, size, nd);
        case LogPtr(base, offset) => mark := AbcLogPtr(base, offset, nd);
        case AssertValidPtr(base, offset) => mark := AbcAssertValidPtr(base, offset, nd);
        case AssertValidOffset(offset, size) => mark := AbcAssertValidOffset(offset, size, nd);
        case LogLoad(lhs, cell) => mark := AbcLogLoadPtr(lhs, cell, nd);
        case LogStore(value, cell) => mark := AbcLogStorePtr(value, cell, nd);
      }
    }

    /** The instrumented program runs until a call stops it. */
    method Drive(g: Guess, es: seq<Event>, nds: seq<Choice>) returns (outcome: Outcome<State>)
      requires |es| == |nds|
      modifies this
      ensures outcome == Run(cfg, g, es, nds, |es|)
    {
      var mark := AbcInit(g.base, g.size);
      if mark != Proceed {
        StoppedStays(cfg, g, es, nds, 0, |es|);
        return Pruned(0);
      }
      for i := 0 to |es|
        invariant Run(cfg, g, es, nds, i) == Alive(View())
      {
        mark := Call(es[i], nds[i]);
        if mark != Proceed {
          StoppedStays(cfg, g, es, nds, i + 1, |es|);
          return if mark == Prune then Pruned(i) else Failed(i);
        }
      }
      outcome := Alive(View());
    }
  }
}

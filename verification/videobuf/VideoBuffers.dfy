/** The objects of the videobuf-dma-contig driver in benchmarks/seahorn/predabs/03_sat.c, its 64-bit arithmetic,
    and the allocation and release of a buffer's memory. */
module VideoBuffers {
  const PAGE := 4096
  const WORD := 0x1_0000_0000_0000_0000
  const MAGIC := 120826977
  const EINVAL := -22
  const ENOMEM := -12
  const EFAULT := -14

  type Word = x: int | 0 <= x < WORD

  /** `unsigned long` arithmetic wraps. */
  function U64(x: int): Word { x % WORD }

  type UnsignedInt = x: int | 0 <= x < 0x1_0000_0000

  function U32(x: int): UnsignedInt { x % 0x1_0000_0000 }

  /** `(x + 4095UL) & 0xfffffffffffff000UL`. */
  function PageAlign(x: Word): Word { U64(x + (PAGE - 1)) / PAGE * PAGE }

  ghost predicate LeastPagesCovering(size: int, length: int) {
    size % PAGE == 0 && size >= length && forall s :: s % PAGE == 0 && s >= length ==> s >= size
  }

  /** The rounding gives the least whole number of pages covering the length exactly when no addition wraps. */
  lemma PageAlignCoversUnlessWrapped(length: nat)
    requires length < WORD + PAGE
    ensures LeastPagesCovering(PageAlign(U64(length)), length) <==> length + (PAGE - 1) < WORD
  {
    var size := PageAlign(U64(length));
    if length + (PAGE - 1) < WORD {
      assert length <= size < length + PAGE;
      forall s | s % PAGE == 0 && s >= length ensures s >= size {
        assert s == s / PAGE * PAGE && size == size / PAGE * PAGE;
      }
    } else {
      assert size < length;
    }
  }

  /** When it wraps nothing is left, or a single page. */
  lemma WrappedSize(length: nat)
    requires WORD < length + PAGE && length < WORD + PAGE
    ensures PageAlign(U64(length)) == if length > WORD then PAGE else 0
  {
    assert U64(length) == if length >= WORD then length - WORD else length;
  }

  lemma WholeWrapsVanish(a: int, n: int)
    ensures U64(a + n * WORD) == U64(a)
  {
    assert (a + n * WORD) / WORD == a / WORD + n;
  }

  lemma AddWraps(a: int, b: int)
    ensures U64(U64(a) + b) == U64(a + b)
  {
    WholeWrapsVanish(a + b, -(a / WORD));
  }

  /** What the driver acquires and must give back. */
  datatype Resource =
    | Pages(addr: int, size: int)
    | DmaMapping(handle: int, size: int)
    | Coherent(addr: int, handle: int, size: int)
    | MapObject(addr: int)

  datatype Entry = Acquired(r: Resource) | Released(r: Resource)

  /** How often a resource is live after a log of acquisitions and releases. */
  function Held(log: seq<Entry>, r: Resource): int {
    if log == [] then 0
    else
      var last := log[|log| - 1];
      Held(log[..|log| - 1], r) + if last == Acquired(r) then 1 else if last == Released(r) then -1 else 0
  }

  /** Only what is live is ever given back. */
  predicate Honest(log: seq<Entry>) {
    log != [] ==>
      var before, last := log[..|log| - 1], log[|log| - 1];
      Honest(before) && (last.Released? ==> Held(before, last.r) > 0)
  }

  function Count(rs: seq<Resource>, r: Resource): (n: nat) {
    if rs == [] then 0 else Count(rs[..|rs| - 1], r) + if rs[|rs| - 1] == r then 1 else 0
  }

  lemma CountTwo(a: Resource, b: Resource)
    ensures forall r :: Count([a, b], r) == Count([b, a], r)
    ensures forall r :: Count([a, b], r) == (if a == r then 1 else 0) + if b == r then 1 else 0
    ensures forall r :: Count([a], r) == if a == r then 1 else 0
  {
    assert [a, b][..1] == [a] && [b, a][..1] == [b];
    assert forall r :: Count([a], r) == Count([], r) + if a == r then 1 else 0;
    assert forall r :: Count([b], r) == Count([], r) + if b == r then 1 else 0;
  }

  function Releases(rs: seq<Resource>): seq<Entry> { seq(|rs|, i requires 0 <= i < |rs| => Released(rs[i])) }

  lemma ReleasesJoin(log: seq<Entry>, rs: seq<Resource>, more: seq<Resource>)
    ensures log + Releases(rs) + Releases(more) == log + Releases(rs + more)
  {
  }

  /** From one log to a later one: exactly the given resources have become live, and nothing was given back that was not. */
  ghost predicate Gained(before: seq<Entry>, after: seq<Entry>, rs: seq<Resource>) {
    (forall r :: Held(after, r) == Held(before, r) + Count(rs, r)) && (Honest(before) ==> Honest(after))
  }

  lemma OneMore(log: seq<Entry>, e: Entry)
    ensures forall r :: Held(log + [e], r) == Held(log, r) + if e == Acquired(r) then 1 else if e == Released(r) then -1 else 0
    ensures Honest(log + [e]) <==> Honest(log) && (e.Released? ==> Held(log, e.r) > 0)
  {
    assert (log + [e])[..|log|] == log;
  }

  lemma {:induction false} CountJoins(rs: seq<Resource>, more: seq<Resource>, r: Resource)
    ensures Count(rs + more, r) == Count(rs, r) + Count(more, r)
  {
    if more == [] {
      assert rs + more == rs;
    } else {
      CountJoins(rs, more[..|more| - 1], r);
      assert (rs + more)[..|rs| + |more| - 1] == rs + more[..|more| - 1];
    }
  }

  lemma GainsJoin(before: seq<Entry>, log: seq<Entry>, after: seq<Entry>, rs: seq<Resource>, more: seq<Resource>)
    requires Gained(before, log, rs) && Gained(log, after, more)
    ensures Gained(before, after, rs + more)
  {
    forall r ensures Held(after, r) == Held(before, r) + Count(rs + more, r) { CountJoins(rs, more, r); }
  }

  lemma AcquireGains(before: seq<Entry>, log: seq<Entry>, rs: seq<Resource>, r: Resource)
    requires Gained(before, log, rs)
    ensures Gained(before, log + [Acquired(r)], rs + [r])
  {
    OneMore(log, Acquired(r));
    assert (rs + [r])[..|rs|] == rs;
  }

  lemma {:induction false} HonestHolds(log: seq<Entry>, r: Resource)
    requires Honest(log)
    ensures Held(log, r) >= 0
  {
    if log != [] { HonestHolds(log[..|log| - 1], r); }
  }

  /** Nothing occurs more often than it is live. */
  ghost predicate Covered(log: seq<Entry>, rs: seq<Resource>) {
    forall r :: Count(rs, r) <= Held(log, r)
  }

  lemma {:induction false} ReleasesCount(log: seq<Entry>, rs: seq<Resource>, r: Resource)
    ensures Held(log + Releases(rs), r) == Held(log, r) - Count(rs, r)
  {
    if rs == [] {
      assert log + Releases(rs) == log;
    } else {
      var n := |rs| - 1;
      ReleasesCount(log, rs[..n], r);
      OneMore(log + Releases(rs[..n]), Released(rs[n]));
      assert log + Releases(rs) == log + Releases(rs[..n]) + [Released(rs[n])];
    }
  }

  lemma {:induction false} ReleasedHonestly(log: seq<Entry>, rs: seq<Resource>)
    requires Honest(log) && Covered(log, rs)
    ensures Honest(log + Releases(rs))
  {
    if rs == [] {
      assert log + Releases(rs) == log;
    } else {
      var n := |rs| - 1;
      assert forall r :: Count(rs, r) == Count(rs[..n], r) + if rs[n] == r then 1 else 0;
      ReleasedHonestly(log, rs[..n]);
      ReleasesCount(log, rs[..n], rs[n]);
      OneMore(log + Releases(rs[..n]), Released(rs[n]));
      assert log + Releases(rs) == log + Releases(rs[..n]) + [Released(rs[n])];
    }
  }

  /** Giving back is honest, in whatever order, exactly if nothing is given back more often than it is live. */
  lemma ReleasedInTurn(log: seq<Entry>, rs: seq<Resource>)
    requires Honest(log)
    ensures forall r :: Held(log + Releases(rs), r) == Held(log, r) - Count(rs, r)
    ensures Honest(log + Releases(rs)) <==> Covered(log, rs)
  {
    forall r ensures Held(log + Releases(rs), r) == Held(log, r) - Count(rs, r) { ReleasesCount(log, rs, r); }
    if Honest(log + Releases(rs)) {
      forall r ensures Count(rs, r) <= Held(log, r) { HonestHolds(log + Releases(rs), r); }
    } else if Covered(log, rs) {
      ReleasedHonestly(log, rs);
    }
  }

  /** What was gained and then given back, in whatever order, leaves no trace. */
  lemma GivenBack(before: seq<Entry>, log: seq<Entry>, gained: seq<Resource>, rs: seq<Resource>)
    requires Honest(before) && Gained(before, log, gained)
    requires forall r :: Count(gained, r) == Count(rs, r)
    ensures Gained(before, log + Releases(rs), [])
  {
    forall r ensures Count(rs, r) <= Held(log, r) { HonestHolds(before, r); }
    ReleasedInTurn(log, rs);
  }

  lemma GivenBackAtOnce(log: seq<Entry>, r: Resource)
    requires Honest(log)
    ensures Gained(log, log + [Acquired(r)] + [Released(r)], [])
  {
    OneMore(log, Acquired(r));
    OneMore(log + [Acquired(r)], Released(r));
    HonestHolds(log, r);
  }

  /** The kernel's account of what the driver acquires and gives back. */
  class Ledger {
    ghost var log: seq<Entry>

    ghost method Acquire(r: Resource)
      modifies this
      ensures log == old(log) + [Acquired(r)]
    {
      log := log + [Acquired(r)];
    }

    ghost method Release(r: Resource)
      modifies this
      ensures log == old(log) + [Released(r)]
    {
      log := log + [Released(r)];
    }
  }

  class Mapping {
    const addr: Word
    var count: UnsignedInt
    const q: Queue

    constructor (addr: Word, q: Queue)
      ensures count == 0 && this.q == q && this.addr == addr
    {
      this.count, this.q, this.addr := 0, q, addr;
    }
  }

  /** The outcome of the allocation calls: an address (0 on failure), a bus address, and `dma_mapping_error`'s answer. */
  datatype Allocation = Allocation(addr: Word, handle: Word, mapError: int)

  class DmaMemory {
    var magic: int
    var vaddr: Word
    var dmaHandle: Word
    var cached: bool
    var size: Word

    /** What this memory has to give back if it is at the given address: a cached one without an address nothing, an
        uncached one always something. */
    ghost function OwnedAt(at: Word): seq<Resource>
      reads this`cached, this`dmaHandle, this`size
    {
      if !cached then [Coherent(at, dmaHandle, size)]
      else if at == 0 then []
      else [DmaMapping(dmaHandle, size), Pages(at, size)]
    }

    ghost function Owned(): seq<Resource>
      reads this
    {
      OwnedAt(vaddr)
    }

    /** `__videobuf_dc_alloc`: afterwards what the memory owns is acquired, or nothing that was acquired is left. */
    method DcAlloc(ledger: Ledger, bytes: Word, a: Allocation) returns (err: int)
      requires Honest(ledger.log)
      modifies this`size, this`vaddr, this`dmaHandle, ledger
      ensures err == if a.addr == 0 then ENOMEM else if cached then a.mapError else 0
      ensures vaddr == if err == 0 then a.addr else 0
      ensures size == bytes && dmaHandle == if cached && a.addr == 0 then old(dmaHandle) else a.handle
      ensures Gained(old(ledger.log), ledger.log, if err == 0 then Owned() else [])
      ensures err == 0 ==>
                ledger.log == old(ledger.log) +
                              if cached then [Acquired(Pages(a.addr, bytes)), Acquired(DmaMapping(a.handle, bytes))]
                              else [Acquired(Coherent(a.addr, a.handle, bytes))]
    {
      size := bytes;
      if cached {
        vaddr := a.addr;
        if vaddr != 0 {
          ledger.Acquire(Pages(vaddr, size));
          dmaHandle := a.handle;
          err := a.mapError;
          if err != 0 {
            ledger.Release(Pages(vaddr, size));
            GivenBackAtOnce(old(ledger.log), Pages(vaddr, size));
            vaddr := 0;
            return;
          }
          ledger.Acquire(DmaMapping(dmaHandle, size));
        }
      } else {
        vaddr := a.addr;
        dmaHandle := a.handle;
        if vaddr != 0 { ledger.Acquire(Coherent(vaddr, dmaHandle, size)); }
      }
      if vaddr == 0 { return ENOMEM; }
      AcquireGains(old(ledger.log), old(ledger.log), [], Owned()[|Owned()| - 1]);
      if cached {
        AcquireGains(old(ledger.log), old(ledger.log) + [Acquired(Pages(vaddr, size))],
                     [Pages(vaddr, size)], DmaMapping(dmaHandle, size));
        CountTwo(Pages(vaddr, size), DmaMapping(dmaHandle, size));
      }
      err := 0;
    }

    /** `__videobuf_dc_free`: gives back what the memory owns; only the uncached case lacks a guard against address 0. */
    method DcFree(ledger: Ledger)
      modifies this`vaddr, ledger
      ensures vaddr == 0
      ensures ledger.log == old(ledger.log) + Releases(old(Owned()))
      ensures ledger.log == old(ledger.log) +
                            if !cached then [Released(Coherent(old(vaddr), dmaHandle, size))]
                            else if old(vaddr) == 0 then []
                            else [Released(DmaMapping(dmaHandle, size)), Released(Pages(old(vaddr), size))]
    {
      if cached {
        if vaddr == 0 { return; }
        ledger.Release(DmaMapping(dmaHandle, size));
        ledger.Release(Pages(vaddr, size));
      } else {
        ledger.Release(Coherent(vaddr, dmaHandle, size));
      }
      vaddr := 0;
    }
  }

  class Buffer {
    var size: Word
    var bsize: Word
    var baddr: Word
    var mapping: Mapping?
    const priv: DmaMemory?

    /** The buffer refers to the mapping at this address, live or not: mappings are compared by their addresses. */
    predicate Names(addr: Word)
      reads this
    {
      mapping != null && mapping.addr == addr
    }

    ghost function Memory(): set<DmaMemory> {
      if priv == null then {} else {priv}
    }

    constructor (priv: DmaMemory?)
      ensures this.priv == priv
    {
      this.priv := priv;
      mapping := null;
    }
  }

  /** The buffer queue, with the state of its own lock as the lock automaton sees it (1 unlocked, 2 locked). */
  class Queue {
    const bufs: seq<Buffer?>
    var extLock: bool
    var streaming: bool
    var vbLock: int
    var ldvError: bool

    constructor (bufs: seq<Buffer?>, extLock: bool, streaming: bool)
      ensures this.bufs == bufs && this.extLock == extLock && this.streaming == streaming
      ensures vbLock == 1 && !ldvError
    {
      this.bufs, this.extLock, this.streaming := bufs, extLock, streaming;
      vbLock, ldvError := 1, false;
    }

    ghost predicate LockIsFree()
      reads this
    {
      vbLock == 1 && !ldvError
    }

    /** The buffers that refer to a mapping, and their memories. */
    ghost function Of(addr: Word): set<Buffer>
      reads bufs
    {
      set b: Buffer? | b in bufs && b != null && b.Names(addr)
    }

    ghost function MemoriesOf(addr: Word): set<DmaMemory>
      reads bufs
    {
      set b | b in Of(addr) && b.priv != null :: b.priv
    }

    /** What the places of the table give back in turn when a mapping is freed that these buffers refer to. */
    ghost function SharesOf(named: set<Buffer>): seq<seq<Resource>>
      reads set b | b in bufs && b != null :: b.priv
    {
      seq(|bufs|, i requires 0 <= i < |bufs| reads set b | b in bufs && b != null :: b.priv => Share(bufs, named, i))
    }

    /** What the other buffers of the queue own that refer to a mapping at this address. */
    ghost function OthersShares(buf: Buffer, addr: Word): seq<seq<Resource>>
      reads bufs, set b | b in bufs && b != null :: b.priv
    {
      seq(|bufs|, i requires 0 <= i < |bufs| reads bufs, set b | b in bufs && b != null :: b.priv =>
        if bufs[i] != null && bufs[i] != buf && bufs[i].Names(addr) && bufs[i].priv != null then bufs[i].priv.Owned() else [])
    }

    /** No two places of the buffer table lead to the same memory. */
    ghost predicate MemoriesAreDistinct()
      reads bufs
    {
      forall i, j :: 0 <= i < j < |bufs| && bufs[i] != null && bufs[j] != null && bufs[i].priv != null ==>
        bufs[i].priv != bufs[j].priv
    }

    /** `videobuf_queue_lock`: an external lock makes it do nothing. */
    method Lock()
      modifies this`vbLock, this`ldvError
      ensures extLock ==> vbLock == old(vbLock) && ldvError == old(ldvError)
      ensures !extLock ==> vbLock == 2 && ldvError == (old(ldvError) || old(vbLock) != 1)
    {
      if !extLock {
        if vbLock != 1 { ldvError := true; }
        vbLock := 2;
      }
    }

    method Unlock()
      modifies this`vbLock, this`ldvError
      ensures extLock ==> vbLock == old(vbLock) && ldvError == old(ldvError)
      ensures !extLock ==> vbLock == 1 && ldvError == (old(ldvError) || old(vbLock) != 2)
    {
      if !extLock {
        if vbLock != 2 { ldvError := true; }
        vbLock := 1;
      }
    }
  }

  /** The named buffers in the first `i` places, and their memories. */
  ghost function SeenBefore(bufs: seq<Buffer?>, named: set<Buffer>, i: nat): set<Buffer>
    requires i <= |bufs|
  {
    if i == 0 then {}
    else SeenBefore(bufs, named, i - 1) + if bufs[i - 1] != null && bufs[i - 1] in named then {bufs[i - 1]} else {}
  }

  ghost function FreedBefore(bufs: seq<Buffer?>, named: set<Buffer>, i: nat): set<DmaMemory>
    requires i <= |bufs|
  {
    if i == 0 then {}
    else FreedBefore(bufs, named, i - 1) + if bufs[i - 1] != null && bufs[i - 1] in named then bufs[i - 1].Memory() else {}
  }

  lemma {:induction false} PlacesAreSeen(bufs: seq<Buffer?>, named: set<Buffer>, j: nat, i: nat)
    requires j < i <= |bufs| && bufs[j] != null && bufs[j] in named
    ensures bufs[j] in SeenBefore(bufs, named, i) && bufs[j].Memory() <= FreedBefore(bufs, named, i)
    decreases i
  {
    if j < i - 1 { PlacesAreSeen(bufs, named, j, i - 1); }
  }

  lemma {:induction false} SeenIsFreed(bufs: seq<Buffer?>, named: set<Buffer>, i: nat)
    requires i <= |bufs|
    ensures forall b :: b in SeenBefore(bufs, named, i) ==> b.Memory() <= FreedBefore(bufs, named, i)
  {
    if i > 0 { SeenIsFreed(bufs, named, i - 1); }
  }

  lemma {:induction false} SeenHasPlace(bufs: seq<Buffer?>, named: set<Buffer>, i: nat)
    requires i <= |bufs|
    ensures forall b :: b in SeenBefore(bufs, named, i) ==> exists j :: 0 <= j < i && bufs[j] == b
    ensures forall m :: m in FreedBefore(bufs, named, i) ==>
              exists j :: 0 <= j < i && bufs[j] != null && bufs[j].priv == m
  {
    if i > 0 { SeenHasPlace(bufs, named, i - 1); }
  }

  /** What place `i` gives back: what its memory owns, unless this buffer or this memory has had its turn before. */
  ghost function Share(bufs: seq<Buffer?>, named: set<Buffer>, i: nat): seq<Resource>
    requires i < |bufs|
    reads if bufs[i] == null then null else bufs[i].priv
  {
    var b := bufs[i];
    if b == null || b !in named || b.priv == null || b in SeenBefore(bufs, named, i) then []
    else b.priv.OwnedAt(if b.priv in FreedBefore(bufs, named, i) then 0 else b.priv.vaddr)
  }

  function Flatten(shares: seq<seq<Resource>>): seq<Resource> {
    if shares == [] then [] else Flatten(shares[..|shares| - 1]) + shares[|shares| - 1]
  }

  /** A user mapping: its range, its driver data, and the pages and ranges put into it. */
  class Vma {
    var start: Word
    var end: Word
    var mapping: Mapping?
    var inserted: seq<(int, int)>
    var remapped: seq<(int, int, int)>
  }
}

/** The reference count of a mapping in benchmarks/seahorn/predabs/03_sat.c: `videobuf_vm_open`, `videobuf_vm_close`,
    and what any sequence of them does. */
module MapLifetime {
  import opened VideoBuffers

  datatype Use = Open | Close

  datatype Life = InUse(count: UnsignedInt) | Freed

  /** One open or close of a mapping that has not been freed; nothing may follow the close that frees it. */
  function Next(life: Life, use: Use): Life {
    match life
    case Freed => Freed
    case InUse(count) =>
      if use == Open then InUse(U32(count + 1))
      else if U32(count - 1) == 0 then Freed
      else InUse(U32(count - 1))
  }

  /** The life of a mapping after a history, counted from the open of its creation. */
  function After(history: seq<Use>): Life {
    if history == [] then InUse(1) else Next(After(history[..|history| - 1]), history[|history| - 1])
  }

  lemma {:induction false} FreedStays(history: seq<Use>, i: nat)
    requires i <= |history| && (i == |history| || After(history[..i]).Freed?)
    ensures After(history) == After(history[..i])
    decreases |history| - i
  {
    if i == |history| {
      assert history[..i] == history;
    } else {
      assert history[..i + 1][..i] == history[..i];
      FreedStays(history, i + 1);
    }
  }

  /** The open of the creation and all later opens, less the closes. */
  function Balance(history: seq<Use>): int {
    if history == [] then 1
    else Balance(history[..|history| - 1]) + if history[|history| - 1] == Open then 1 else -1
  }

  lemma {:induction false} CountIsBalance(history: seq<Use>)
    ensures After(history).InUse? ==> After(history).count == U32(Balance(history))
  {
    if history != [] {
      var before := history[..|history| - 1];
      CountIsBalance(before);
      CountWraps(Balance(before), 1);
      CountWraps(Balance(before), -1);
    }
  }

  lemma CountWraps(a: int, b: int)
    ensures U32(U32(a) + b) == U32(a + b)
  {
    var n := a / 0x1_0000_0000;
    assert (U32(a) + b) / 0x1_0000_0000 == (a + b) / 0x1_0000_0000 - n;
  }

  ghost predicate ClosedToZero(history: seq<Use>, i: nat)
    requires i < |history|
  {
    history[i] == Close && U32(Balance(history[..i + 1])) == 0
  }

  /** The mapping is freed exactly when some close brings the count to 0. */
  lemma {:induction false} FreedExactly(history: seq<Use>)
    ensures After(history).Freed? <==> exists i: nat :: i < |history| && ClosedToZero(history, i)
  {
    if history != [] {
      var n := |history| - 1;
      var before := history[..n];
      FreedExactly(before);
      CountIsBalance(before);
      CountWraps(Balance(before), -1);
      forall i: nat | i < n ensures ClosedToZero(history, i) <==> ClosedToZero(before, i) {
        assert history[..i + 1] == before[..i + 1];
      }
      assert history[..n + 1] == history;
      assert ClosedToZero(history, n) <==> history[n] == Close && U32(Balance(history)) == 0;
    }
  }

  lemma {:induction false} BalanceIsBounded(history: seq<Use>)
    ensures 1 - |history| <= Balance(history) <= 1 + |history|
  {
    if history != [] { BalanceIsBounded(history[..|history| - 1]); }
  }

  ghost predicate ClosedInBalance(history: seq<Use>, i: nat)
    requires i < |history|
  {
    history[i] == Close && Balance(history[..i + 1]) == 0
  }

  /** Below 2^32 uses the count is exact: the mapping is freed when it has been closed as often as opened. */
  lemma FreedWhenBalanced(history: seq<Use>)
    requires |history| < 0xffff_ffff
    ensures After(history).Freed? <==> exists i: nat :: i < |history| && ClosedInBalance(history, i)
  {
    FreedExactly(history);
    forall i: nat | i < |history| ensures ClosedToZero(history, i) <==> ClosedInBalance(history, i) {
      BalanceIsBounded(history[..i + 1]);
    }
  }

  /** But 2^32 - 1 further opens wrap the count to 0 without freeing anything, and the next close does not either. */
  lemma WrappedCountIsNotFreed(opens: seq<Use>)
    requires |opens| == 0xffff_ffff && forall i :: 0 <= i < |opens| ==> opens[i] == Open
    ensures After(opens) == InUse(0) && After(opens + [Close]) == InUse(0xffff_ffff)
  {
    FreedExactly(opens);
    CountIsBalance(opens);
    OnlyOpens(opens);
    assert (opens + [Close])[..|opens|] == opens;
  }

  lemma {:induction false} OnlyOpens(opens: seq<Use>)
    requires forall i :: 0 <= i < |opens| ==> opens[i] == Open
    ensures Balance(opens) == 1 + |opens|
  {
    if opens != [] { OnlyOpens(opens[..|opens| - 1]); }
  }

  /** `videobuf_vm_open`. */
  method VmOpen(mapping: Mapping)
    modifies mapping`count
    ensures InUse(mapping.count) == Next(InUse(old(mapping.count)), Open)
  {
    mapping.count := U32(mapping.count + 1);
  }

  /** What a buffer gives back at its turn: what its memory owns, if it refers to the mapping. */
  ghost function Due(b: Buffer?, addr: Word): seq<Resource>
    reads b, if b == null then null else b.priv
  {
    if b != null && b.Names(addr) && b.priv != null then b.priv.Owned() else []
  }

  /** One place of the loop of `videobuf_vm_close`. */
  method FreePlace(b: Buffer?, addr: Word, ledger: Ledger)
    requires b != null && b.Names(addr) && b.priv != null ==> b.priv.magic == MAGIC
    modifies ledger, (if b != null && b.Names(addr) then {b} else {})`mapping
    modifies (if b != null && b.Names(addr) then {b} else {})`baddr
    modifies (if b != null && b.Names(addr) then b.Memory() else {})`vaddr
    ensures b != null && old(b.Names(addr)) ==>
              b.mapping == null && b.baddr == 0 && (b.priv != null ==> b.priv.vaddr == 0)
    ensures ledger.log == old(ledger.log) + Releases(old(Due(b, addr)))
  {
    if b != null && b.Names(addr) {
      if b.priv != null { b.priv.DcFree(ledger); }
      b.mapping := null;
      b.baddr := 0;
    }
  }

  /** After the first `i` places: the named buffers in them are cleared and their memories freed, the others are as they
      were, with their memories at the given addresses. */
  ghost predicate Progress(q: Queue, addr: Word, named: set<Buffer>, vaddrs: map<DmaMemory, Word>, i: nat)
    requires i <= |q.bufs|
    reads named, vaddrs.Keys
  {
    (forall b :: b in named ==>
       if b in SeenBefore(q.bufs, named, i) then b.mapping == null && b.baddr == 0 else b.Names(addr)) &&
    (forall m :: m in vaddrs ==> m.vaddr == if m in FreedBefore(q.bufs, named, i) then 0 else vaddrs[m])
  }

  /** What place `i` gives back, as `Share`, for memories at the given addresses. */
  ghost function ShareAt(q: Queue, named: set<Buffer>, vaddrs: map<DmaMemory, Word>, i: nat): seq<Resource>
    requires i < |q.bufs|
    reads vaddrs.Keys`cached, vaddrs.Keys`dmaHandle, vaddrs.Keys`size
  {
    var b := q.bufs[i];
    if b == null || b !in named || b.priv == null || b.priv !in vaddrs || b in SeenBefore(q.bufs, named, i) then []
    else b.priv.OwnedAt(if b.priv in FreedBefore(q.bufs, named, i) then 0 else vaddrs[b.priv])
  }

  /** One turn of the loop. */
  method FreeNext(q: Queue, addr: Word, ledger: Ledger, i: nat, ghost named: set<Buffer>, ghost vaddrs: map<DmaMemory, Word>)
    requires i < |q.bufs| && Progress(q, addr, named, vaddrs, i)
    requires q.bufs[i] != null && q.bufs[i] !in named ==> !q.bufs[i].Names(addr)
    requires forall b :: b in named && b.priv != null ==> b.priv in vaddrs && b.priv.magic == MAGIC
    modifies ledger, named`mapping, named`baddr, vaddrs.Keys`vaddr
    ensures Progress(q, addr, named, vaddrs, i + 1)
    ensures ledger.log == old(ledger.log) + Releases(ShareAt(q, named, vaddrs, i))
  {
    SeenIsFreed(q.bufs, named, i);
    FreePlace(q.bufs[i], addr, ledger);
  }

  lemma OneMoreReleased(log: seq<Entry>, shares: seq<seq<Resource>>, i: nat)
    requires i < |shares|
    ensures log + Releases(Flatten(shares[..i])) + Releases(shares[i]) == log + Releases(Flatten(shares[..i + 1]))
  {
    assert shares[..i + 1][..i] == shares[..i];
    ReleasesJoin(log, Flatten(shares[..i]), shares[i]);
  }

  /** The loop of `videobuf_vm_close` over the buffer table. */
  method FreeTable(q: Queue, addr: Word, ledger: Ledger, ghost named: set<Buffer>, ghost vaddrs: map<DmaMemory, Word>,
                   ghost shares: seq<seq<Resource>>)
    requires |q.bufs| == 32 == |shares| && Progress(q, addr, named, vaddrs, 0)
    requires forall b :: b in q.bufs && b != null && b !in named ==> !b.Names(addr)
    requires forall b :: b in named && b.priv != null ==> b.priv in vaddrs && b.priv.magic == MAGIC
    requires forall i :: 0 <= i < 32 ==> shares[i] == ShareAt(q, named, vaddrs, i)
    modifies ledger, named`mapping, named`baddr, vaddrs.Keys`vaddr
    ensures Progress(q, addr, named, vaddrs, 32)
    ensures ledger.log == old(ledger.log) + Releases(Flatten(shares))
  {
    for i := 0 to 32
      invariant Progress(q, addr, named, vaddrs, i)
      invariant ledger.log == old(ledger.log) + Releases(Flatten(shares[..i]))
    {
      OneMoreReleased(old(ledger.log), shares, i);
      FreeNext(q, addr, ledger, i, named, vaddrs);
    }
    assert shares[..32] == shares;
  }

  method FreeBuffers(q: Queue, addr: Word, ledger: Ledger)
    requires |q.bufs| == 32
    requires forall m :: m in q.MemoriesOf(addr) ==> m.magic == MAGIC
    modifies ledger, q.Of(addr)`mapping, q.Of(addr)`baddr, q.MemoriesOf(addr)`vaddr
    ensures forall b :: b in old(q.Of(addr)) ==> b.mapping == null && b.baddr == 0
    ensures forall m :: m in old(q.MemoriesOf(addr)) ==> m.vaddr == 0
    ensures ledger.log == old(ledger.log) + Releases(Flatten(old(q.SharesOf(q.Of(addr)))))
  {
    ghost var named := q.Of(addr);
    ghost var vaddrs := map m | m in q.MemoriesOf(addr) :: m.vaddr;
    FreeTable(q, addr, ledger, named, vaddrs, q.SharesOf(named));
    forall j | 0 <= j < 32 && q.bufs[j] != null && q.bufs[j] in named
      ensures q.bufs[j] in SeenBefore(q.bufs, named, 32) && q.bufs[j].Memory() <= FreedBefore(q.bufs, named, 32)
    {
      PlacesAreSeen(q.bufs, named, j, 32);
    }
  }

  /** The locked part of `videobuf_vm_close`; `extAfter` says whether the queue has an external lock once
      `videobuf_queue_cancel` returns. The lock is left as it was found exactly if that has not changed. */
  method Dismantle(q: Queue, addr: Word, ledger: Ledger, extAfter: bool)
    requires |q.bufs| == 32
    requires forall m :: m in q.MemoriesOf(addr) ==> m.magic == MAGIC
    modifies ledger, q`extLock, q`vbLock, q`ldvError
    modifies q.Of(addr)`mapping, q.Of(addr)`baddr, q.MemoriesOf(addr)`vaddr
    ensures forall b :: b in old(q.Of(addr)) ==> b.mapping == null && b.baddr == 0
    ensures forall m :: m in old(q.MemoriesOf(addr)) ==> m.vaddr == 0
    ensures ledger.log == old(ledger.log) + Releases(Flatten(old(q.SharesOf(q.Of(addr)))) + [MapObject(addr)])
    ensures q.extLock == if q.streaming then extAfter else old(q.extLock)
    ensures old(q.LockIsFree()) ==> (q.LockIsFree() <==> q.extLock == old(q.extLock))
  {
    q.Lock();
    if q.streaming { q.extLock := extAfter; }
    assert q.SharesOf(q.Of(addr)) == old(q.SharesOf(q.Of(addr)));
    FreeBuffers(q, addr, ledger);
    ledger.Release(MapObject(addr));
    ReleasesJoin(old(ledger.log), Flatten(old(q.SharesOf(q.Of(addr)))), [MapObject(addr)]);
    q.Unlock();
  }

  /** `videobuf_vm_close`. The buffers of the mapping are those that hold its address, also if they got it from an earlier
      mapping that was freed there. */
  method VmClose(mapping: Mapping, ledger: Ledger, extAfter: bool) returns (freed: bool)
    requires |mapping.q.bufs| == 32
    requires mapping.count == 1 ==> forall m :: m in mapping.q.MemoriesOf(mapping.addr) ==> m.magic == MAGIC
    modifies mapping`count, ledger, mapping.q`extLock, mapping.q`vbLock, mapping.q`ldvError
    modifies mapping.q.Of(mapping.addr)`mapping, mapping.q.Of(mapping.addr)`baddr, mapping.q.MemoriesOf(mapping.addr)`vaddr
    ensures Next(InUse(old(mapping.count)), Close) == if freed then Freed else InUse(mapping.count)
    ensures !freed ==> unchanged(ledger) && unchanged(mapping.q)
    ensures forall b :: b in mapping.q.bufs && b != null ==>
              if freed && old(b.mapping) != null && old(b.mapping).addr == mapping.addr
              then b.mapping == null && b.baddr == 0 && (b.priv != null ==> b.priv.vaddr == 0)
              else b.mapping == old(b.mapping) && b.baddr == old(b.baddr)
    ensures forall b :: b in old(mapping.q.Of(mapping.addr)) ==>
              if freed then b.mapping == null && b.baddr == 0 else b.mapping == old(b.mapping) && b.baddr == old(b.baddr)
    ensures forall m :: m in old(mapping.q.MemoriesOf(mapping.addr)) ==> m.vaddr == if freed then 0 else old(m.vaddr)
    ensures freed ==>
              ledger.log == old(ledger.log) +
                            Releases(Flatten(old(mapping.q.SharesOf(mapping.q.Of(mapping.addr)))) + [MapObject(mapping.addr)])
    ensures mapping.q.extLock == if freed && mapping.q.streaming then extAfter else old(mapping.q.extLock)
    ensures old(mapping.q.LockIsFree()) ==>
              (mapping.q.LockIsFree() <==> mapping.q.extLock == old(mapping.q.extLock))
  {
    freed := false;
    mapping.count := U32(mapping.count - 1);
    if mapping.count == 0 {
      assert mapping.q.SharesOf(mapping.q.Of(mapping.addr)) == old(mapping.q.SharesOf(mapping.q.Of(mapping.addr)));
      Dismantle(mapping.q, mapping.addr, ledger, extAfter);
      freed := true;
    }
  }
}

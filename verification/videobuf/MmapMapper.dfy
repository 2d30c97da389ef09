/** `__videobuf_mmap_mapper` of benchmarks/seahorn/predabs/03_sat.c, and the life of a mapping from there to its last close. */
module MmapMapper {
  import opened MapLifetime
  import opened VideoBuffers

  /** `virt_to_page`: the page structure behind a kernel address. */
  function PageOf(phys: Word -> Word, pos: Word): Word {
    U64(0xffffea0000000000 + phys(pos) / PAGE)
  }

  /** How many pages hold this many bytes. */
  function PageCount(size: Word): nat { (size + (PAGE - 1)) / PAGE }

  /** What goes into a user mapping: at each page of the range the next page of the buffer. */
  function Insertion(start: Word, pos: Word, phys: Word -> Word, k: nat): (Word, Word) {
    (U64(start + PAGE * k), PageOf(phys, U64(pos + PAGE * k)))
  }

  function Insertions(start: Word, pos: Word, phys: Word -> Word, n: nat): seq<(Word, Word)> {
    seq(n, k requires 0 <= k < n => Insertion(start, pos, phys, k))
  }

  predicate Inserts(insert: (Word, Word) -> int, at: (Word, Word)) {
    at.1 != 0 && insert(at.0, at.1) == 0
  }

  /** How many of the first `n` pages are inserted, one after the other, before one cannot be. */
  function Leading(insert: (Word, Word) -> int, start: Word, pos: Word, phys: Word -> Word, n: nat): (m: nat)
    ensures m <= n && forall k: nat :: k < m ==> Inserts(insert, Insertion(start, pos, phys, k))
    ensures m < n ==> !Inserts(insert, Insertion(start, pos, phys, m))
  {
    if n == 0 then 0
    else
      var m := Leading(insert, start, pos, phys, n - 1);
      if m == n - 1 && Inserts(insert, Insertion(start, pos, phys, m)) then n else m
  }

  lemma LeadingIs(insert: (Word, Word) -> int, start: Word, pos: Word, phys: Word -> Word, n: nat, k: nat)
    requires k <= n && forall j: nat :: j < k ==> Inserts(insert, Insertion(start, pos, phys, j))
    requires k < n ==> !Inserts(insert, Insertion(start, pos, phys, k))
    ensures Leading(insert, start, pos, phys, n) == k
    ensures k == n <==> forall j: nat :: j < n ==> Inserts(insert, Insertion(start, pos, phys, j))
  {
    var m := Leading(insert, start, pos, phys, n);
    assert m < n ==> !Inserts(insert, Insertion(start, pos, phys, m));
  }

  /** The pages go to consecutive places of the user's range, the first at its start and the last before its end. */
  lemma InsertionsCoverTheRange(start: Word, end: Word, size: Word, pos: Word, phys: Word -> Word, k: nat)
    requires start <= end && size <= U64(end - start) && k < PageCount(size)
    ensures Insertion(start, pos, phys, k).0 == start + PAGE * k < end
    ensures k == PageCount(size) - 1 <==> start + PAGE * k < start + size <= start + PAGE * k + PAGE
  {
    assert U64(end - start) == end - start;
    assert PAGE * k < size;
  }

  /** What is left of a size after `k` pages. */
  function Rest(size: Word, k: nat): Word {
    if PAGE * k < size then size - PAGE * k else 0
  }

  lemma RestOfPages(size: Word, k: nat)
    ensures Rest(size, k) == 0 <==> k >= PageCount(size)
    ensures Rest(size, k + 1) == if Rest(size, k) > PAGE then Rest(size, k) - PAGE else 0
  {
  }

  lemma NextAddress(base: Word, k: nat)
    ensures U64(U64(base + PAGE * k) + PAGE) == U64(base + PAGE * (k + 1))
  {
    AddWraps(base + PAGE * k, PAGE);
  }

  lemma OneMoreInserted(start: Word, pos: Word, phys: Word -> Word, k: nat)
    ensures Insertions(start, pos, phys, k + 1) == Insertions(start, pos, phys, k) + [Insertion(start, pos, phys, k)]
  {
  }

  /** The loop of the cached case: it stops at the first page that cannot be inserted. */
  method InsertPages(vma: Vma, pos0: Word, size0: Word, phys: Word -> Word, insert: (Word, Word) -> int) returns (ok: bool)
    modifies vma`inserted
    ensures ok <==> forall k: nat :: k < PageCount(size0) ==> Inserts(insert, Insertion(vma.start, pos0, phys, k))
    ensures vma.inserted == old(vma.inserted) +
                            Insertions(vma.start, pos0, phys, Leading(insert, vma.start, pos0, phys, PageCount(size0)))
  {
    var start, pos, size := vma.start, pos0, size0;
    ghost var k: nat := 0;
    assert U64(vma.start) == vma.start && U64(pos0) == pos0;
    RestOfPages(size0, 0);
    while size != 0
      invariant start == U64(vma.start + PAGE * k) && pos == U64(pos0 + PAGE * k)
      invariant size == Rest(size0, k) && k <= PageCount(size0) && (size == 0 <==> k == PageCount(size0))
      invariant vma.inserted == old(vma.inserted) + Insertions(vma.start, pos0, phys, k)
      invariant forall j: nat :: j < k ==> Inserts(insert, Insertion(vma.start, pos0, phys, j))
      decreases size
    {
      var page := PageOf(phys, pos);
      assert (start, page) == Insertion(vma.start, pos0, phys, k);
      if page == 0 || insert(start, page) != 0 {
        LeadingIs(insert, vma.start, pos0, phys, PageCount(size0), k);
        return false;
      }
      vma.inserted := vma.inserted + [(start, page)];
      OneMoreInserted(vma.start, pos0, phys, k);
      NextAddress(vma.start, k);
      NextAddress(pos0, k);
      RestOfPages(size0, k);
      RestOfPages(size0, k + 1);
      start := U64(start + PAGE);
      pos := U64(pos + PAGE);
      size := if size > PAGE then size - PAGE else 0;
      k := k + 1;
    }
    LeadingIs(insert, vma.start, pos0, phys, PageCount(size0), k);
    ok := true;
  }

  /** Puts the memory into the user's range; on failure the memory is given back and only the cached case forgets its address. */
  method MapMemory(vma: Vma, mem: DmaMemory, size: Word, ledger: Ledger, remapRet: int,
                   phys: Word -> Word, insert: (Word, Word) -> int)
    returns (ok: bool)
    requires mem.vaddr != 0
    modifies vma`inserted, vma`remapped, mem`vaddr, ledger
    ensures ok <==> if mem.cached
                    then forall k: nat :: k < PageCount(size) ==> Inserts(insert, Insertion(vma.start, old(mem.vaddr), phys, k))
                    else remapRet == 0
    ensures var n := if mem.cached then Leading(insert, vma.start, old(mem.vaddr), phys, PageCount(size)) else 0;
            vma.inserted == old(vma.inserted) + Insertions(vma.start, old(mem.vaddr), phys, n)
    ensures vma.remapped == old(vma.remapped) +
                            if ok && !mem.cached then [(vma.start, mem.dmaHandle / PAGE, size)] else []
    ensures mem.vaddr == if ok || !mem.cached then old(mem.vaddr) else 0
    ensures ledger.log == old(ledger.log) + Releases(if ok then [] else old(mem.Owned()))
  {
    if !mem.cached {
      if remapRet != 0 {
        ledger.Release(Coherent(mem.vaddr, mem.dmaHandle, mem.size));
        return false;
      }
      vma.remapped := vma.remapped + [(vma.start, mem.dmaHandle / PAGE, size)];
      ok := true;
    } else {
      ok := InsertPages(vma, mem.vaddr, size, phys, insert);
      if !ok { mem.DcFree(ledger); }
    }
  }

  /** The bytes to map: no more than the user's range and no more than the buffer. */
  function MappedSize(start: Word, end: Word, bytes: Word): Word {
    var size := U64(end - start);
    if size < bytes then size else bytes
  }

  /** Whether the memory can be allocated and all of it put into the user's range. */
  ghost predicate Populates(cached: bool, a: Allocation, remapRet: int, start: Word, size: Word,
                            phys: Word -> Word, insert: (Word, Word) -> int)
  {
    a.addr != 0 &&
    if cached
    then a.mapError == 0 && forall k: nat :: k < PageCount(size) ==> Inserts(insert, Insertion(start, a.addr, phys, k))
    else remapRet == 0
  }

  /** How many pages of the memory come into the user's range; they stay there also when the mapping fails. */
  function Placed(cached: bool, a: Allocation, start: Word, size: Word, phys: Word -> Word, insert: (Word, Word) -> int): nat {
    if cached && a.addr != 0 && a.mapError == 0 then Leading(insert, start, a.addr, phys, PageCount(size)) else 0
  }

  /** The middle of the mapper, from the allocation of the memory to the end of the page loop. */
  method Populate(mem: DmaMemory, bytes: Word, vma: Vma, ledger: Ledger, a: Allocation, remapRet: int,
                  phys: Word -> Word, insert: (Word, Word) -> int)
    returns (ok: bool)
    requires Honest(ledger.log)
    modifies mem`size, mem`vaddr, mem`dmaHandle, vma`inserted, vma`remapped, ledger
    ensures mem.size == bytes && (!mem.cached ==> mem.dmaHandle == a.handle)
    ensures ok <==> Populates(mem.cached, a, remapRet, vma.start, MappedSize(vma.start, vma.end, bytes), phys, insert)
    ensures Gained(old(ledger.log), ledger.log, if ok then mem.Owned() else [])
    ensures var n := Placed(mem.cached, a, vma.start, MappedSize(vma.start, vma.end, bytes), phys, insert);
            vma.inserted == old(vma.inserted) + Insertions(vma.start, a.addr, phys, n)
    ensures vma.remapped == old(vma.remapped) + if ok && !mem.cached
                            then [(vma.start, a.handle / PAGE, MappedSize(vma.start, vma.end, bytes))] else []
    ensures mem.vaddr == if ok || !mem.cached then a.addr else 0
  {
    var err := mem.DcAlloc(ledger, bytes, a);
    if err != 0 { return false; }
    ghost var owned, log := mem.Owned(), ledger.log;
    ok := MapMemory(vma, mem, MappedSize(vma.start, vma.end, mem.size), ledger, remapRet, phys, insert);
    if ok {
      assert ledger.log == log;
    } else {
      GivenBack(old(ledger.log), log, owned, owned);
    }
  }

  lemma MapGains(before: seq<Entry>, after: seq<Entry>, newMap: Word, rs: seq<Resource>)
    requires Gained(before + [Acquired(MapObject(newMap))], after, rs)
    ensures Gained(before, after, [MapObject(newMap)] + rs)
  {
    AcquireGains(before, before, [], MapObject(newMap));
    assert [] + [MapObject(newMap)] == [MapObject(newMap)];
    GainsJoin(before, before + [Acquired(MapObject(newMap))], after, [MapObject(newMap)], rs);
  }

  lemma MapUndone(before: seq<Entry>, after: seq<Entry>, newMap: Word)
    requires Honest(before) && Gained(before + [Acquired(MapObject(newMap))], after, [])
    ensures Gained(before, after + [Released(MapObject(newMap))], [])
  {
    MapGains(before, after, newMap, []);
    assert [MapObject(newMap)] + [] == [MapObject(newMap)];
    assert Releases([MapObject(newMap)]) == [Released(MapObject(newMap))];
    GivenBack(before, after, [MapObject(newMap)], [MapObject(newMap)]);
  }

  /** The same with the mapping object, which `kzalloc` has put at the given address: if anything fails it is freed. */
  method PopulateOrFree(newMap: Word, mem: DmaMemory, bytes: Word, vma: Vma, ledger: Ledger, a: Allocation, remapRet: int,
                        phys: Word -> Word, insert: (Word, Word) -> int)
    returns (ok: bool)
    requires Honest(ledger.log)
    modifies mem`size, mem`vaddr, mem`dmaHandle, vma`inserted, vma`remapped, ledger
    ensures mem.size == bytes && (!mem.cached ==> mem.dmaHandle == a.handle)
    ensures ok <==> Populates(mem.cached, a, remapRet, vma.start, MappedSize(vma.start, vma.end, bytes), phys, insert)
    ensures Gained(old(ledger.log), ledger.log, if ok then [MapObject(newMap)] + mem.Owned() else [])
    ensures var n := Placed(mem.cached, a, vma.start, MappedSize(vma.start, vma.end, bytes), phys, insert);
            vma.inserted == old(vma.inserted) + Insertions(vma.start, a.addr, phys, n)
    ensures vma.remapped == old(vma.remapped) + if ok && !mem.cached
                            then [(vma.start, a.handle / PAGE, MappedSize(vma.start, vma.end, bytes))] else []
    ensures mem.vaddr == if ok || !mem.cached then a.addr else 0
  {
    ledger.Acquire(MapObject(newMap));
    ok := Populate(mem, bytes, vma, ledger, a, remapRet, phys, insert);
    if ok {
      MapGains(old(ledger.log), ledger.log, newMap, mem.Owned());
    } else {
      MapUndone(old(ledger.log), ledger.log, newMap);
      ledger.Release(MapObject(newMap));
    }
  }

  /** Page `k` lies both in the user's range and in the buffer. */
  ghost predicate InBoth(start: Word, end: Word, bytes: Word, k: nat) {
    4096 * k < end - start && 4096 * k < bytes
  }

  /** These are the pages of the buffer, in order, that lie in the user's range, each by its place in the kernel's array of
      page structures. */
  ghost predicate PagesOfBoth(start: Word, end: Word, bytes: Word, pos: Word, phys: Word -> Word, pages: seq<(Word, Word)>) {
    (forall k: nat :: k < |pages| <==> InBoth(start, end, bytes, k)) &&
    forall k: nat :: k < |pages| ==>
      pages[k] == (start + 4096 * k, U64(0xffffea0000000000 + phys(U64(pos + 4096 * k)) / 4096))
  }

  /** This is one remapping of the user's range or the memory, whichever is shorter. */
  ghost predicate RangeOfBoth(start: Word, end: Word, bytes: Word, handle: Word, range: (Word, int, Word)) {
    range.0 == start && range.1 == handle / 4096 &&
    range.2 <= end - start && range.2 <= bytes && (range.2 == end - start || range.2 == bytes)
  }

  lemma LesserIsMapped(start: Word, end: Word, bytes: Word, pos: Word, phys: Word -> Word, handle: Word)
    requires start <= end
    ensures PagesOfBoth(start, end, bytes, pos, phys, Insertions(start, pos, phys, PageCount(MappedSize(start, end, bytes))))
    ensures RangeOfBoth(start, end, bytes, handle, (start, handle / PAGE, MappedSize(start, end, bytes)))
  {
    assert U64(end - start) == end - start;
    forall k: nat | k < PageCount(MappedSize(start, end, bytes))
      ensures Insertion(start, pos, phys, k) ==
              (start + 4096 * k, U64(0xffffea0000000000 + phys(U64(pos + 4096 * k)) / 4096))
    {
      assert U64(start + 4096 * k) == start + 4096 * k;
    }
  }

  /** Whether a buffer of this size can be mapped into the user's range. */
  ghost predicate Maps(cached: bool, a: Allocation, remapRet: int, start: Word, end: Word, bsize: Word,
                       phys: Word -> Word, insert: (Word, Word) -> int)
  {
    Populates(cached, a, remapRet, start, MappedSize(start, end, PageAlign(bsize)), phys, insert)
  }

  /** `__videobuf_mmap_mapper`, with the kernel's answers as parameters: `kzalloc`'s address, the allocation of the
      memory, `remap_pfn_range`'s result, the physical addresses, and `vm_insert_page`'s results. */
  method Mapper(q: Queue, buf: Buffer, vma: Vma, ledger: Ledger, newMap: Word, a: Allocation, remapRet: int,
                phys: Word -> Word, insert: (Word, Word) -> int)
    returns (ret: int)
    requires Honest(ledger.log)
    requires newMap != 0 ==> buf.priv != null && buf.priv.magic == MAGIC
    modifies buf`mapping, buf`baddr, vma`mapping, vma`inserted, vma`remapped, ledger
    modifies buf.Memory()`size, buf.Memory()`vaddr, buf.Memory()`dmaHandle
    ensures ret == if newMap != 0 && Maps(buf.priv.cached, a, remapRet, vma.start, vma.end, buf.bsize, phys, insert)
                   then 0 else ENOMEM
    ensures ret == 0 ==>
              fresh(buf.mapping) && buf.mapping.addr == newMap && buf.mapping.q == q && buf.mapping.count == 1 &&
              vma.mapping == buf.mapping && buf.baddr == vma.start && buf.priv.vaddr == a.addr
    ensures ret == 0 ==> Gained(old(ledger.log), ledger.log, [MapObject(newMap)] + buf.priv.Owned())
    ensures var size := MappedSize(vma.start, vma.end, PageAlign(buf.bsize));
            var n := if newMap == 0 then 0 else Placed(buf.priv.cached, a, vma.start, size, phys, insert);
            vma.inserted == old(vma.inserted) + Insertions(vma.start, a.addr, phys, n) &&
            (ret == 0 && buf.priv.cached ==> n == PageCount(size))
    ensures vma.remapped == old(vma.remapped) + if ret == 0 && !buf.priv.cached
                            then [(vma.start, a.handle / PAGE, MappedSize(vma.start, vma.end, PageAlign(buf.bsize)))] else []
    ensures ret == 0 && vma.start <= vma.end && buf.priv.cached ==>
              exists pages: seq<(Word, Word)> :: vma.inserted == old(vma.inserted) + pages &&
                PagesOfBoth(vma.start, vma.end, PageAlign(buf.bsize), a.addr, phys, pages)
    ensures ret == 0 && vma.start <= vma.end && !buf.priv.cached ==>
              exists range: (Word, int, Word) :: vma.remapped == old(vma.remapped) + [range] &&
                RangeOfBoth(vma.start, vma.end, PageAlign(buf.bsize), a.handle, range)
    ensures ret != 0 ==> Gained(old(ledger.log), ledger.log, []) && vma.mapping == old(vma.mapping)
    ensures ret != 0 && newMap == 0 ==> buf.mapping == old(buf.mapping) && buf.baddr == old(buf.baddr)
    ensures ret != 0 && newMap != 0 ==>
              fresh(buf.mapping) && buf.Names(newMap) && buf.baddr == vma.start &&
              buf.priv.vaddr == (if buf.priv.cached then 0 else a.addr) &&
              buf.priv.size == PageAlign(buf.bsize) && (!buf.priv.cached ==> buf.priv.dmaHandle == a.handle)
  {
    if newMap == 0 { return ENOMEM; }
    var mapping := new Mapping(newMap, q);
    buf.mapping := mapping;
    buf.baddr := vma.start;
    var ok := PopulateOrFree(newMap, buf.priv, PageAlign(buf.bsize), vma, ledger, a, remapRet, phys, insert);
    if !ok { return ENOMEM; }
    vma.mapping := mapping;
    VmOpen(mapping);
    ret := 0;
    if vma.start <= vma.end {
      LesserIsMapped(vma.start, vma.end, PageAlign(buf.bsize), a.addr, phys, a.handle);
    }
  }

  /** One share replaces nothing: what is given back in all grows by it. */
  lemma {:induction false} OneMoreShare(shares: seq<seq<Resource>>, i: nat, owned: seq<Resource>, r: Resource)
    requires i < |shares| && shares[i] == []
    ensures Count(Flatten(shares[i := owned]), r) == Count(Flatten(shares), r) + Count(owned, r)
  {
    var n := |shares| - 1;
    var shares' := shares[i := owned];
    CountJoins(Flatten(shares'[..n]), shares'[n], r);
    CountJoins(Flatten(shares[..n]), shares[n], r);
    if i == n {
      assert shares'[..n] == shares[..n];
    } else {
      assert shares'[..n] == shares[..n][i := owned];
      OneMoreShare(shares[..n], i, owned, r);
    }
  }

  /** What the other buffers own that refer to a mapping at this address, in the order of the table. */
  ghost function OthersDue(q: Queue, buf: Buffer, addr: Word): seq<Resource>
    reads q.bufs, set b | b in q.bufs && b != null :: b.priv
  {
    Flatten(q.OthersShares(buf, addr))
  }

  /** With distinct memories every place has its own turn. */
  lemma DistinctShares(q: Queue, buf: Buffer, addr: Word, at: nat)
    requires q.MemoriesAreDistinct() && at < |q.bufs| && q.bufs[at] == buf && buf.priv != null && buf.Names(addr)
    ensures q.OthersShares(buf, addr)[at] == []
    ensures q.SharesOf(q.Of(addr)) == q.OthersShares(buf, addr)[at := buf.priv.Owned()]
  {
    var named := q.Of(addr);
    forall i | 0 <= i < |q.bufs|
      ensures Share(q.bufs, named, i) == q.OthersShares(buf, addr)[at := buf.priv.Owned()][i]
    {
      SeenHasPlace(q.bufs, named, i);
    }
  }

  /** Closing for the last time is honest exactly if the other buffers that refer to the address own nothing but what was
      live before the mapping was made; if they own nothing, it undoes the mapping without a trace. */
  lemma ClosingIsHonestIff(before: seq<Entry>, log: seq<Entry>, newMap: Word, owned: seq<Resource>, due: seq<Resource>,
                           rs: seq<Resource>)
    requires Honest(before) && Gained(before, log, [MapObject(newMap)] + owned)
    requires forall r :: Count(rs, r) == Count(due, r) + Count(owned, r)
    ensures var after := log + Releases(rs + [MapObject(newMap)]);
            (Honest(after) <==> Covered(before, due)) && (due == [] ==> Gained(before, after, []))
  {
    var all := rs + [MapObject(newMap)];
    forall r
      ensures Count(all, r) == Count(due, r) + Count([MapObject(newMap)] + owned, r)
    {
      CountJoins([MapObject(newMap)], owned, r);
      CountJoins(rs, [MapObject(newMap)], r);
    }
    ReleasedInTurn(log, all);
    assert Covered(log, all) <==> Covered(before, due);
    if due == [] {
      forall r ensures 0 <= Held(before, r) { HonestHolds(before, r); }
    }
  }

  /** The same for the releases of the last close. */
  lemma LastCloseSettles(q: Queue, buf: Buffer, addr: Word, before: seq<Entry>, log: seq<Entry>)
    requires q.MemoriesAreDistinct() && buf in q.bufs && buf.priv != null && buf.Names(addr)
    requires Honest(before) && Gained(before, log, [MapObject(addr)] + buf.priv.Owned())
    ensures var after := log + Releases(Flatten(q.SharesOf(q.Of(addr))) + [MapObject(addr)]);
            (Honest(after) <==> Covered(before, OthersDue(q, buf, addr))) &&
            (OthersDue(q, buf, addr) == [] ==> Gained(before, after, []))
  {
    var at: nat :| at < |q.bufs| && q.bufs[at] == buf;
    var others, owned := q.OthersShares(buf, addr), buf.priv.Owned();
    DistinctShares(q, buf, addr, at);
    forall r
      ensures Count(Flatten(others[at := owned]), r) == Count(Flatten(others), r) + Count(owned, r)
    {
      OneMoreShare(others, at, owned, r);
    }
    ClosingIsHonestIff(before, log, addr, owned, Flatten(others), Flatten(others[at := owned]));
  }

  /** Another buffer that refers to a freed mapping, as a failed mmap leaves it: what it still names is not live. */
  ghost predicate Stale(b: Buffer, log: seq<Entry>)
    reads b, b.priv
  {
    b.priv != null ==> if b.priv.cached then b.priv.vaddr == 0
                       else Held(log, Coherent(b.priv.vaddr, b.priv.dmaHandle, b.priv.size)) <= 0
  }

  /** If the other buffers that hold the address are stale, the last close is honest exactly if none of them is uncached:
      what an uncached one names would be given back although it is not live. */
  lemma StaleBuffersCoveredIff(q: Queue, buf: Buffer, addr: Word, log: seq<Entry>)
    requires Honest(log)
    requires forall b :: b in q.bufs && b != null && b != buf && b.Names(addr) ==> Stale(b, log)
    ensures Covered(log, OthersDue(q, buf, addr)) <==>
              forall b :: b in q.bufs && b != null && b != buf && b.Names(addr) && b.priv != null ==> b.priv.cached
    ensures Covered(log, OthersDue(q, buf, addr)) ==> OthersDue(q, buf, addr) == []
  {
    var shares := q.OthersShares(buf, addr);
    if forall b :: b in q.bufs && b != null && b != buf && b.Names(addr) && b.priv != null ==> b.priv.cached {
      assert forall i :: 0 <= i < |shares| ==> shares[i] == [];
      NoShares(shares);
      forall r ensures Count(OthersDue(q, buf, addr), r) <= Held(log, r) { HonestHolds(log, r); }
    } else {
      var b :| b in q.bufs && b != null && b != buf && b.Names(addr) && b.priv != null && !b.priv.cached;
      var i :| 0 <= i < |q.bufs| && q.bufs[i] == b;
      var r := Coherent(b.priv.vaddr, b.priv.dmaHandle, b.priv.size);
      assert shares[i] == [r];
      ShareIsCounted(shares, i, r);
    }
  }

  lemma {:induction false} ShareIsCounted(shares: seq<seq<Resource>>, i: nat, r: Resource)
    requires i < |shares| && shares[i] == [r]
    ensures Count(Flatten(shares), r) >= 1
  {
    var n := |shares| - 1;
    CountJoins(Flatten(shares[..n]), shares[n], r);
    if i == n { CountTwo(r, r); } else { ShareIsCounted(shares[..n], i, r); }
  }

  lemma {:induction false} NoShares(shares: seq<seq<Resource>>)
    requires forall j :: 0 <= j < |shares| ==> shares[j] == []
    ensures Flatten(shares) == []
  {
    if shares != [] { NoShares(shares[..|shares| - 1]); }
  }

  /** One open or close of the mapping of a buffer of the queue. */
  method UseOnce(q: Queue, buf: Buffer, mapping: Mapping, ledger: Ledger, use: Use, extAfter: bool) returns (life: Life)
    requires mapping.q == q && |q.bufs| == 32 && buf in q.bufs && buf.mapping == mapping && buf.priv != null
    requires forall m :: m in q.MemoriesOf(mapping.addr) ==> m.magic == MAGIC
    modifies mapping`count, ledger, q`extLock, q`vbLock, q`ldvError
    modifies q.Of(mapping.addr)`mapping, q.Of(mapping.addr)`baddr, q.MemoriesOf(mapping.addr)`vaddr
    ensures life == Next(InUse(old(mapping.count)), use)
    ensures life.InUse? ==> life.count == mapping.count && unchanged(ledger) && unchanged(q)
    ensures life.InUse? ==> buf.mapping == mapping && buf.priv.Owned() == old(buf.priv.Owned()) &&
                            q.Of(mapping.addr) == old(q.Of(mapping.addr)) &&
                            q.OthersShares(buf, mapping.addr) == old(q.OthersShares(buf, mapping.addr))
    ensures old(q.LockIsFree()) ==> (q.LockIsFree() <==> q.extLock == old(q.extLock))
    ensures life.Freed? ==>
              ledger.log == old(ledger.log) +
                            Releases(Flatten(old(q.SharesOf(q.Of(mapping.addr)))) + [MapObject(mapping.addr)]) &&
              buf.mapping == null && buf.baddr == 0 && buf.priv.vaddr == 0
  {
    if use == Open {
      VmOpen(mapping);
      life := InUse(mapping.count);
    } else {
      assert buf in q.Of(mapping.addr) && buf.priv in q.MemoriesOf(mapping.addr);
      var freed := VmClose(mapping, ledger, extAfter);
      life := if freed then Freed else InUse(mapping.count);
    }
  }

  /** A mapping that has just been made is opened and closed until it is freed. */
  method UseAll(q: Queue, buf: Buffer, mapping: Mapping, ledger: Ledger, history: seq<Use>, extAfter: bool,
                ghost before: seq<Entry>)
    returns (life: Life)
    requires mapping.q == q && |q.bufs| == 32 && q.MemoriesAreDistinct() && mapping.count == 1
    requires buf in q.bufs && buf.mapping == mapping && buf.priv != null
    requires forall m :: m in q.MemoriesOf(mapping.addr) ==> m.magic == MAGIC
    requires Honest(before) && Gained(before, ledger.log, [MapObject(mapping.addr)] + buf.priv.Owned())
    modifies mapping`count, ledger, q`extLock, q`vbLock, q`ldvError
    modifies q.Of(mapping.addr)`mapping, q.Of(mapping.addr)`baddr, q.MemoriesOf(mapping.addr)`vaddr
    ensures life == After(history)
    ensures life.InUse? ==> Gained(before, ledger.log, [MapObject(mapping.addr)] + buf.priv.Owned())
    ensures life.Freed? ==> buf.mapping == null && buf.baddr == 0 && buf.priv.vaddr == 0
    ensures life.Freed? ==>
              (Honest(ledger.log) <==> Covered(before, old(OthersDue(q, buf, mapping.addr)))) &&
              (old(OthersDue(q, buf, mapping.addr)) == [] ==> Gained(before, ledger.log, []))
    ensures old(q.LockIsFree()) ==> (q.LockIsFree() <==> q.extLock == old(q.extLock))
  {
    ghost var due, named, log := OthersDue(q, buf, mapping.addr), q.Of(mapping.addr), ledger.log;
    life := InUse(1);
    var i := 0;
    assert history[..0] == [];
    while i < |history| && life.InUse?
      invariant i <= |history| && life == After(history[..i])
      invariant life.InUse? ==> ledger.log == log && mapping.count == life.count && unchanged(q)
      invariant life.InUse? ==> buf.mapping == mapping && buf.priv.Owned() == old(buf.priv.Owned())
      invariant life.InUse? ==> q.Of(mapping.addr) == named && OthersDue(q, buf, mapping.addr) == due
      invariant life.Freed? ==>
                  buf.mapping == null && buf.baddr == 0 && buf.priv.vaddr == 0 &&
                  (Honest(ledger.log) <==> Covered(before, due)) && (due == [] ==> Gained(before, ledger.log, []))
      invariant old(q.LockIsFree()) ==> (q.LockIsFree() <==> q.extLock == old(q.extLock))
    {
      assert history[..i + 1][..i] == history[..i];
      LastCloseSettles(q, buf, mapping.addr, before, ledger.log);
      life := UseOnce(q, buf, mapping, ledger, history[i], extAfter);
      i := i + 1;
    }
    FreedStays(history, i);
  }

  /** Mapping a buffer of a queue leaves alone what the others own. If it fails, what the buffer then refers to is stale. */
  method MapBuffer(q: Queue, buf: Buffer, vma: Vma, ledger: Ledger, newMap: Word, a: Allocation, remapRet: int,
                   phys: Word -> Word, insert: (Word, Word) -> int)
    returns (ret: int)
    requires Honest(ledger.log) && q.MemoriesAreDistinct()
    requires buf in q.bufs && buf.priv != null && buf.priv.magic == MAGIC
    modifies buf`mapping, buf`baddr, vma`mapping, vma`inserted, vma`remapped, ledger
    modifies buf.Memory()`size, buf.Memory()`vaddr, buf.Memory()`dmaHandle
    ensures ret == if newMap != 0 && Maps(buf.priv.cached, a, remapRet, vma.start, vma.end, buf.bsize, phys, insert)
                   then 0 else ENOMEM
    ensures ret == 0 ==>
              fresh(buf.mapping) && buf.mapping.addr == newMap && buf.mapping.q == q && buf.mapping.count == 1 &&
              Gained(old(ledger.log), ledger.log, [MapObject(newMap)] + buf.priv.Owned())
    ensures ret != 0 ==> Gained(old(ledger.log), ledger.log, [])
    ensures ret != 0 && newMap != 0 ==>
              buf.Names(newMap) &&
              (Stale(buf, ledger.log) <==>
               buf.priv.cached || Held(old(ledger.log), Coherent(a.addr, a.handle, PageAlign(buf.bsize))) <= 0)
    ensures q.OthersShares(buf, newMap) == old(q.OthersShares(buf, newMap))
  {
    ret := Mapper(q, buf, vma, ledger, newMap, a, remapRet, phys, insert);
    assert Count([], Coherent(a.addr, a.handle, PageAlign(buf.bsize))) == 0;
    ghost var at :| 0 <= at < |q.bufs| && q.bufs[at] == buf;
    forall i | 0 <= i < |q.bufs|
      ensures q.OthersShares(buf, newMap)[i] == old(q.OthersShares(buf, newMap))[i]
    {
      assert i == at || q.bufs[i] == null || q.bufs[i] == buf || q.bufs[i].priv != buf.priv;
    }
  }

  /** The whole life of a mapping: a buffer of the queue is mapped, and the kernel opens and closes the mapping until it
      is freed. Everything the mapping acquired is then given back and the buffer no longer refers to it. Whatever else
      holds the address of the mapping loses its memory as well: all is given back only once exactly if what the others
      own was live before, and nothing at all remains if they own nothing. */
  method MapAndUse(q: Queue, buf: Buffer, vma: Vma, ledger: Ledger, newMap: Word, a: Allocation, remapRet: int,
                   phys: Word -> Word, insert: (Word, Word) -> int, history: seq<Use>, extAfter: bool)
    returns (ret: int, life: Life)
    requires Honest(ledger.log) && |q.bufs| == 32 && q.MemoriesAreDistinct()
    requires buf in q.bufs && buf.priv != null && buf.priv.magic == MAGIC
    requires forall b :: b in q.bufs && b != null && b.Names(newMap) && b.priv != null ==> b.priv.magic == MAGIC
    modifies buf`mapping, buf`baddr, buf.Memory()`size, buf.Memory()`vaddr, buf.Memory()`dmaHandle
    modifies q.Of(newMap)`mapping, q.Of(newMap)`baddr, q.MemoriesOf(newMap)`vaddr
    modifies vma`mapping, vma`inserted, vma`remapped, ledger, q`extLock, q`vbLock, q`ldvError
    ensures ret == if newMap != 0 && Maps(buf.priv.cached, a, remapRet, vma.start, vma.end, buf.bsize, phys, insert)
                   then 0 else ENOMEM
    ensures ret != 0 ==> Gained(old(ledger.log), ledger.log, [])
    ensures ret == 0 ==> life == After(history)
    ensures ret == 0 && life.InUse? ==> Gained(old(ledger.log), ledger.log, [MapObject(newMap)] + buf.priv.Owned())
    ensures ret == 0 && life.Freed? ==> buf.mapping == null && buf.baddr == 0 && buf.priv.vaddr == 0
    ensures ret == 0 && life.Freed? ==>
              (Honest(ledger.log) <==> Covered(old(ledger.log), old(OthersDue(q, buf, newMap)))) &&
              (old(OthersDue(q, buf, newMap)) == [] ==> Gained(old(ledger.log), ledger.log, []))
    ensures old(q.LockIsFree()) ==> (q.LockIsFree() <==> q.extLock == old(q.extLock))
  {
    life := Freed;
    ret := MapBuffer(q, buf, vma, ledger, newMap, a, remapRet, phys, insert);
    if ret != 0 { return; }
    life := UseAll(q, buf, buf.mapping, ledger, history, extAfter, old(ledger.log));
  }

  /** Two mappings one after the other, with the same address for their mapping objects, the first of which fails. */
  method MapAgain(q: Queue, failed: Buffer, mapped: Buffer, vma: Vma, vma': Vma, ledger: Ledger, newMap: Word,
                  a: Allocation, a': Allocation, remapRet: int, remapRet': int, phys: Word -> Word,
                  insert: (Word, Word) -> int, insert': (Word, Word) -> int)
    returns (ret: int, ret': int, ghost log: seq<Entry>)
    requires Honest(ledger.log) && |q.bufs| == 32 && q.MemoriesAreDistinct()
    requires failed in q.bufs && mapped in q.bufs && failed != mapped && failed.priv != null && mapped.priv != null
    requires failed.priv.magic == MAGIC && mapped.priv.magic == MAGIC
    requires forall b :: b in q.bufs && b != null && b.Names(newMap) ==> b == failed || b == mapped
    requires Held(ledger.log, Coherent(a.addr, a.handle, PageAlign(failed.bsize))) <= 0
    modifies failed`mapping, failed`baddr, failed.Memory()`size, failed.Memory()`vaddr, failed.Memory()`dmaHandle
    modifies mapped`mapping, mapped`baddr, mapped.Memory()`size, mapped.Memory()`vaddr, mapped.Memory()`dmaHandle
    modifies vma`mapping, vma`inserted, vma`remapped, vma'`mapping, vma'`inserted, vma'`remapped
    modifies ledger
    ensures ret == if newMap != 0 && Maps(failed.priv.cached, a, remapRet, vma.start, vma.end, failed.bsize, phys, insert)
                   then 0 else ENOMEM
    ensures ret != 0 ==>
              ret' == if newMap != 0 && Maps(mapped.priv.cached, a', remapRet', vma'.start, vma'.end, mapped.bsize, phys, insert')
                      then 0 else ENOMEM
    ensures ret != 0 && ret' == 0 ==>
              fresh(mapped.mapping) && mapped.mapping.addr == newMap && mapped.mapping.q == q && mapped.mapping.count == 1 &&
              Gained(log, ledger.log, [MapObject(newMap)] + mapped.priv.Owned()) && Honest(log) &&
              (Covered(log, OthersDue(q, mapped, newMap)) <==> failed.priv.cached)
  {
    ret' := ENOMEM;
    ret := MapBuffer(q, failed, vma, ledger, newMap, a, remapRet, phys, insert);
    log := ledger.log;
    if ret == 0 { return; }
    ret' := MapBuffer(q, mapped, vma', ledger, newMap, a', remapRet', phys, insert');
    if ret' != 0 { return; }
    StaleBuffersCoveredIff(q, mapped, newMap, log);
  }

  /** A failed mmap and then the life of a mapping that gets the freed address again. If the memory that the first buffer
      was offered was not live before, only what is live is given back exactly if that buffer is cached. What an uncached one
      gives back is the memory that was released when its remapping failed, or address 0 if there was no memory. */
  method MapAfterFailure(q: Queue, failed: Buffer, mapped: Buffer, vma: Vma, vma': Vma, ledger: Ledger, newMap: Word,
                         a: Allocation, a': Allocation, remapRet: int, remapRet': int, phys: Word -> Word,
                         insert: (Word, Word) -> int, insert': (Word, Word) -> int, history: seq<Use>, extAfter: bool)
    returns (ret: int, ret': int, life: Life)
    requires Honest(ledger.log) && |q.bufs| == 32 && q.MemoriesAreDistinct()
    requires failed in q.bufs && mapped in q.bufs && failed != mapped && failed.priv != null && mapped.priv != null
    requires failed.priv.magic == MAGIC && mapped.priv.magic == MAGIC
    requires forall b :: b in q.bufs && b != null && b.Names(newMap) ==> b == failed || b == mapped
    requires Held(ledger.log, Coherent(a.addr, a.handle, PageAlign(failed.bsize))) <= 0
    modifies failed`mapping, failed`baddr, failed.Memory()`size, failed.Memory()`vaddr, failed.Memory()`dmaHandle
    modifies mapped`mapping, mapped`baddr, mapped.Memory()`size, mapped.Memory()`vaddr, mapped.Memory()`dmaHandle
    modifies vma`mapping, vma`inserted, vma`remapped, vma'`mapping, vma'`inserted, vma'`remapped
    modifies ledger, q`extLock, q`vbLock, q`ldvError
    ensures ret == if newMap != 0 && Maps(failed.priv.cached, a, remapRet, vma.start, vma.end, failed.bsize, phys, insert)
                   then 0 else ENOMEM
    ensures ret != 0 ==>
              ret' == if newMap != 0 && Maps(mapped.priv.cached, a', remapRet', vma'.start, vma'.end, mapped.bsize, phys, insert')
                      then 0 else ENOMEM
    ensures ret != 0 && ret' == 0 ==> life == After(history) && (life.Freed? ==> (Honest(ledger.log) <==> failed.priv.cached))
  {
    life := Freed;
    ghost var log;
    ret, ret', log := MapAgain(q, failed, mapped, vma, vma', ledger, newMap, a, a', remapRet, remapRet', phys, insert, insert');
    if ret != 0 && ret' == 0 {
      life := UseAll(q, mapped, mapped.mapping, ledger, history, extAfter, log);
    }
  }

  /** The double release: an uncached buffer cannot be remapped, another one can, and closing its mapping gives back the
      memory of the first once more (address 0 once if it had none). */
  method MemoryIsGivenBackTwice(failed: Buffer, mapped: Buffer, vma: Vma, vma': Vma, ledger: Ledger, newMap: Word,
                                a: Allocation, a': Allocation, phys: Word -> Word, insert: (Word, Word) -> int)
    returns (ret: int, ret': int, life: Life)
    requires ledger.log == [] && newMap != 0 && a'.addr != 0
    requires failed.priv != null && mapped.priv != null && failed != mapped && failed.priv != mapped.priv
    requires failed.priv.magic == MAGIC && mapped.priv.magic == MAGIC && !failed.priv.cached && !mapped.priv.cached
    modifies failed, mapped, failed.Memory(), mapped.Memory(), vma, vma', ledger
    ensures ret == ENOMEM && ret' == 0 && life == Freed && !Honest(ledger.log)
  {
    var q := new Queue([failed, mapped] + seq(30, _ => null), false, false);
    assert q.bufs[0] == failed && q.bufs[1] == mapped;
    assert [Close][..0] == [];
    ret, ret', life := MapAfterFailure(q, failed, mapped, vma, vma', ledger, newMap, a, a', 1, 0, phys, insert, insert,
                                       [Close], false);
  }
}

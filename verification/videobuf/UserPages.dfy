/** `videobuf_dma_contig_user_get` of benchmarks/seahorn/predabs/03_sat.c: a user buffer is usable for DMA only if
    its pages are physically contiguous. */
module UserPages {
  import opened VideoBuffers

  /** What `follow_pfn` finds for a user address: 0 and a frame number, or an error code. */
  datatype Lookup = Lookup(ret: int, pfn: Word)

  /** The lookups of the successive pages of a buffer at user address `base`. */
  function Walk(follow: Word -> Lookup, base: Word): nat -> Lookup {
    (k: nat) => follow(U64(base + PAGE * k))
  }

  lemma NextPage(base: Word, k: nat)
    ensures U64(U64(base + PAGE * k) + PAGE) == U64(base + PAGE * (k + 1))
  {
    AddWraps(base + PAGE * k, PAGE);
  }

  /** The code with which the walk stops at page k, or 0. */
  function FaultAt(walk: nat -> Lookup, k: nat): int {
    if walk(k).ret != 0 then walk(k).ret
    else if k > 0 && U64(walk(k - 1).pfn + 1) != walk(k).pfn then EFAULT
    else 0
  }

  ghost predicate Faultless(walk: nat -> Lookup, pages: nat) {
    forall k: nat :: k < pages ==> FaultAt(walk, k) == 0
  }

  /** Every page is mapped, and page k lies in the k-th frame after the first page's. */
  ghost predicate Contiguous(walk: nat -> Lookup, pages: nat) {
    forall k: nat :: k < pages ==> walk(k).ret == 0 && walk(k).pfn == U64(walk(0).pfn + k)
  }

  /** Comparing each page with the one before it is the same as comparing each page with the first. */
  lemma {:induction false} FaultlessIffContiguous(walk: nat -> Lookup, pages: nat)
    ensures Faultless(walk, pages) <==> Contiguous(walk, pages)
  {
    if pages > 1 {
      var k := pages - 1;
      FaultlessIffContiguous(walk, k);
      AddWraps(walk(0).pfn + (k - 1), 1);
      assert Faultless(walk, pages) <==> Faultless(walk, k) && FaultAt(walk, k) == 0;
      assert Contiguous(walk, k) ==> walk(k - 1).pfn == U64(walk(0).pfn + (k - 1));
    } else if pages == 1 {
      assert FaultAt(walk, 0) == walk(0).ret;
    }
  }

  datatype FoundVma = NoVma | FoundVma(end: Word)

  /** Whether the rounded range lies in the VMA that was found. */
  predicate InVma(vma: FoundVma, base: Word, size: Word) {
    vma.FoundVma? && U64(base + size) <= vma.end
  }

  ghost predicate BelowEnd(vma: FoundVma, a: int) {
    vma.FoundVma? && a < vma.end
  }

  /** The range check asks that every byte lies below the end of the VMA, the last one included, or that the end of the
      range does after wrapping around. */
  lemma InVmaMeans(vma: FoundVma, base: Word, size: Word)
    requires size > 0
    ensures base + size < WORD ==> (InVma(vma, base, size) <==> forall a :: base <= a < base + size ==> BelowEnd(vma, a))
    ensures base + size >= WORD ==> (InVma(vma, base, size) <==> vma.FoundVma? && base + size - WORD <= vma.end)
  {
    if base + size < WORD && forall a :: base <= a < base + size ==> BelowEnd(vma, a) {
      assert BelowEnd(vma, base + size - 1);
    }
  }

  /** The page loop: it stops at the first page that faults. */
  method FollowPages(mem: DmaMemory, base: Word, follow: Word -> Lookup) returns (ret: int)
    modifies mem`dmaHandle
    ensures mem.size < PAGE ==> ret == EINVAL && mem.dmaHandle == old(mem.dmaHandle)
    ensures mem.size >= PAGE ==> (ret == 0 <==> Faultless(Walk(follow, base), mem.size / PAGE))
    ensures mem.size >= PAGE && ret != 0 ==> exists k: nat ::
                k < mem.size / PAGE && ret == FaultAt(Walk(follow, base), k) && Faultless(Walk(follow, base), k)
    ensures ret == 0 ==> mem.dmaHandle == U64(U64(follow(base).pfn * PAGE) + base % PAGE)
  {
    ret := EINVAL;
    ghost var walk := Walk(follow, base);
    assert walk(0) == follow(base);
    var pagesDone: nat, prevPfn: int, userAddress := 0, 0, base;
    while mem.size / PAGE > pagesDone
      invariant pagesDone <= mem.size / PAGE
      invariant userAddress == U64(base + PAGE * pagesDone)
      invariant Faultless(walk, pagesDone)
      invariant pagesDone == 0 ==> ret == EINVAL && mem.dmaHandle == old(mem.dmaHandle)
      invariant pagesDone > 0 ==> ret == 0 && prevPfn == walk(pagesDone - 1).pfn
      invariant pagesDone > 0 ==> mem.dmaHandle == U64(U64(follow(base).pfn * PAGE) + base % PAGE)
    {
      var page := follow(userAddress);
      ret := page.ret;
      if ret == 0 {
        if pagesDone == 0 {
          mem.dmaHandle := U64(U64(page.pfn * PAGE) + base % PAGE);
        } else if U64(prevPfn + 1) != page.pfn {
          ret := EFAULT;
        }
      }
      assert ret == FaultAt(walk, pagesDone);
      if ret != 0 { return; }
      NextPage(base, pagesDone);
      prevPfn := page.pfn;
      userAddress := U64(userAddress + PAGE);
      pagesDone := pagesDone + 1;
    }
  }

  /** A single page is left of a length beyond 2^64, and it is enough that this page is mapped. */
  lemma OnePageIsLeft(follow: Word -> Lookup, base: Word, length: nat)
    requires WORD < length < WORD + PAGE && follow(base).ret == 0
    ensures PageAlign(U64(length)) == PAGE && Contiguous(Walk(follow, base), PAGE / PAGE)
  {
    WrappedSize(length);
    assert Walk(follow, base)(0) == follow(base);
  }

  /** The requests whose length wraps to one page are not excluded by the range check. */
  lemma WrappedRequest()
    ensures var size, base, vma := WORD - 1, PAGE + 2, FoundVma(4 * PAGE);
            size + base % PAGE > WORD && InVma(vma, base, PAGE) && PAGE < size
  {
  }

  /** `videobuf_dma_contig_user_get`, with the VMA that `find_vma` returns and the answers of `follow_pfn`. When it
      returns 0 the size covers the buffer exactly if rounding up did not wrap; and it does return 0 also when it wraps,
      with a single page, for every length beyond 2^64 whose first page is mapped. */
  method UserGet(mem: DmaMemory, vb: Buffer, vma: FoundVma, follow: Word -> Lookup) returns (ret: int)
    modifies mem`size, mem`dmaHandle
    ensures mem.size == PageAlign(U64(vb.size + vb.baddr % PAGE))
    ensures ret == 0 <==>
              InVma(vma, vb.baddr, mem.size) && mem.size >= PAGE && Contiguous(Walk(follow, vb.baddr), mem.size / PAGE)
    ensures ret == 0 <==>
              mem.size >= PAGE && Contiguous(Walk(follow, vb.baddr), mem.size / PAGE) &&
              if vb.baddr + mem.size < WORD then forall a :: vb.baddr <= a < vb.baddr + mem.size ==> BelowEnd(vma, a)
              else vma.FoundVma? && vb.baddr + mem.size - WORD <= vma.end
    ensures ret == 0 ==> mem.dmaHandle == U64(U64(follow(vb.baddr).pfn * PAGE) + vb.baddr % PAGE)
    ensures !InVma(vma, vb.baddr, mem.size) || mem.size < PAGE ==> ret == EINVAL && mem.dmaHandle == old(mem.dmaHandle)
    ensures InVma(vma, vb.baddr, mem.size) && ret != 0 && mem.size >= PAGE ==>
              exists k: nat :: k < mem.size / PAGE && ret == FaultAt(Walk(follow, vb.baddr), k) &&
                               Faultless(Walk(follow, vb.baddr), k)
    ensures var length := vb.size + vb.baddr % PAGE;
            ret == 0 ==> (LeastPagesCovering(mem.size, length) <==> length + (PAGE - 1) < WORD)
    ensures vb.size + vb.baddr % PAGE > WORD && InVma(vma, vb.baddr, PAGE) && follow(vb.baddr).ret == 0 ==>
              ret == 0 && mem.size == PAGE
  {
    var length := vb.size + vb.baddr % PAGE;
    PageAlignCoversUnlessWrapped(length);
    if length > WORD && follow(vb.baddr).ret == 0 { OnePageIsLeft(follow, vb.baddr, length); }
    mem.size := PageAlign(U64(vb.size + vb.baddr % PAGE));
    ret := EINVAL;
    if mem.size > 0 { InVmaMeans(vma, vb.baddr, mem.size); }
    if InVma(vma, vb.baddr, mem.size) {
      FaultlessIffContiguous(Walk(follow, vb.baddr), mem.size / PAGE);
      ret := FollowPages(mem, vb.baddr, follow);
    }
  }

  /** The physical address behind a user address, for a table of frames indexed by virtual page number. */
  function Physical(frames: int -> Lookup, address: Word): Word {
    U64(U64(frames(address / PAGE).pfn * PAGE) + address % PAGE)
  }

  /** What contiguity is for: counting from one bus address the device sees every byte of the user's buffer,
      provided that rounding its length up does not wrap. */
  lemma DeviceSeesEveryByte(frames: int -> Lookup, base: Word, size: nat, b: nat, dmaHandle: Word)
    requires base % PAGE + size + (PAGE - 1) < WORD && b < size
    requires var walk := Walk(address => frames(address / PAGE), base);
             Contiguous(walk, PageAlign(U64(size + base % PAGE)) / PAGE) &&
             dmaHandle == U64(U64(walk(0).pfn * PAGE) + base % PAGE)
    ensures Physical(frames, U64(base + b)) == U64(dmaHandle + b)
  {
    var offset, k, r := base % PAGE, (base % PAGE + b) / PAGE, U64(base + b) % PAGE;
    var walk := Walk(address => frames(address / PAGE), base);
    assert walk(k) == frames(U64(base + b) / PAGE) && offset + b == PAGE * k + r by { PageOfByte(base, b); }
    assert walk(k).pfn == U64(walk(0).pfn + k) by { PageIsCovered(size + offset, offset + b); }
    SameByte(walk(0).pfn, offset, b, k, r);
  }

  lemma PageIsCovered(length: nat, b: nat)
    requires b < length && length + (PAGE - 1) < WORD
    ensures b / PAGE < PageAlign(U64(length)) / PAGE
  {
    assert U64(length) == length;
  }

  lemma SamePage(x: int, y: int)
    requires x / PAGE == y / PAGE
    ensures U64(x) / PAGE == U64(y) / PAGE && U64(x) % PAGE == x % PAGE
  {
    assert WORD == WORD / PAGE * PAGE;
    assert x / WORD == x / PAGE / (WORD / PAGE);
    assert y / WORD == y / PAGE / (WORD / PAGE);
  }

  lemma PageOfByte(base: Word, b: nat)
    ensures var k := (base % PAGE + b) / PAGE;
            U64(base + PAGE * k) / PAGE == U64(base + b) / PAGE && base % PAGE + b == PAGE * k + U64(base + b) % PAGE
  {
    var k := (base % PAGE + b) / PAGE;
    var r := base % PAGE + b - PAGE * k;
    assert base + b == PAGE * (base / PAGE + k) + r;
    assert base + PAGE * k == PAGE * (base / PAGE + k) + base % PAGE;
    SamePage(base + b, base + PAGE * k);
  }

  lemma BusOffset(a: int, offset: int, b: int)
    ensures U64(U64(U64(a) + offset) + b) == U64(a + offset + b)
  {
    AddWraps(a, offset);
    AddWraps(a + offset, b);
  }

  lemma FrameOffset(frame: Word, k: nat, r: nat)
    ensures U64(U64(U64(frame + k) * PAGE) + r) == U64(frame * PAGE + PAGE * k + r)
  {
    AddWraps(U64(frame + k) * PAGE, r);
    WholeWrapsVanish(frame * PAGE + PAGE * k + r, -((frame + k) / WORD * PAGE));
  }

  lemma SameByte(frame: Word, offset: nat, b: nat, k: nat, r: nat)
    requires offset + b == PAGE * k + r
    ensures U64(U64(U64(frame + k) * PAGE) + r) == U64(U64(U64(frame * PAGE) + offset) + b)
  {
    FrameOffset(frame, k, r);
    BusOffset(frame * PAGE, offset, b);
  }
}

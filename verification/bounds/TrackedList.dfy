/** The tracked object of benchmarks/seahorn/smc/list1_check.c: a list of Foo and Bar nodes reached through untyped
    pointers, in which one nondeterministically chosen Foo is placed at `g_bgn` and every other allocation above `g_end`. */
module TrackedList {
  const FOO_TAG := 100
  const BAR_TAG := 200
  const SIZEOF_FOO := 8

  datatype Kind = IsFoo | IsBar

  /** A Foo or a Bar: a Bar begins with a Foo, so both have a tag and an x. The ghost kind is its constructor's name. */
  class Node {
    const addr: int
    ghost const kind: Kind
    var tag: int
    var x: int
    var y: int

    constructor (addr: int, ghost kind: Kind, tag: int, x: int, y: int)
      ensures this.addr == addr && this.kind == kind && this.tag == tag && this.x == x && this.y == y
    {
      this.addr, this.kind, this.tag, this.x, this.y := addr, kind, tag, x, y;
    }
  }

  class Entry {
    const addr: int
    var data: Node
    var next: Entry?

    constructor (addr: int, data: Node, next: Entry?)
      ensures this.addr == addr && this.data == data && this.next == next
    {
      this.addr, this.data, this.next := addr, data, next;
    }
  }

  /** The assumes at an allocation that is not tracked. */
  predicate IsPlaced(end: int, addr: int) {
    addr > 0 && addr > end
  }

  predicate FooIsPlaced(bgn: int, end: int, active: bool, addr: int, nd: bool) {
    if !active && nd then addr > 0 && addr == bgn && bgn + SIZEOF_FOO == end else IsPlaced(end, addr)
  }

  /** One insertion into the list: of a fresh Foo or a fresh Bar, with what the calls read. */
  datatype Insertion =
    | OfFoo(x: int, addr: int, nd: bool, entry: int)
    | OfBar(x: int, y: int, addr: int, entry: int)
  {
    function Kind(): Kind { if OfFoo? then IsFoo else IsBar }
  }

  /** The constructors of the inserted nodes, the last one first. */
  function InReverse(insertions: seq<Insertion>): seq<Kind> {
    if insertions == [] then []
    else [insertions[|insertions| - 1].Kind()] + InReverse(insertions[..|insertions| - 1])
  }

  lemma InReverseGrows(insertions: seq<Insertion>, n: nat, rest: seq<Kind>)
    requires n < |insertions|
    ensures InReverse(insertions[..n + 1]) + rest == [insertions[n].Kind()] + (InReverse(insertions[..n]) + rest)
  {
    assert insertions[..n + 1][..n] == insertions[..n];
  }

  /** The program state: the guessed range, the active flag, and the list with its entries in order. */
  class World {
    var gBgn: int
    var gEnd: int
    var gActive: bool
    var head: Entry?
    ghost var made: set<Node>
    ghost var entries: seq<Entry>

    /** The entries are linked in order, hold nodes made here, and lie above `g_end` themselves. */
    ghost predicate Linked()
      reads this, entries
    {
      (head == if entries == [] then null else entries[0]) &&
      (entries != [] ==> entries[|entries| - 1].next == null) &&
      (forall i, j :: 0 <= i < j < |entries| && j == i + 1 ==> entries[i].next == entries[j]) &&
      (forall i :: 0 <= i < |entries| ==> entries[i].data in made && entries[i].addr > gEnd)
    }

    /** Every node's tag names its constructor, and a node at `g_bgn` exists only once the flag is set: it is
        one single Foo, and every other node lies above `g_end`. */
    ghost predicate Tracked()
      reads this, made
    {
      0 < gBgn < gEnd &&
      (forall n :: n in made ==> n.tag == if n.kind == IsFoo then FOO_TAG else BAR_TAG) &&
      (forall n :: n in made ==> n.addr > gEnd || (gActive && n.addr == gBgn && n.kind == IsFoo && gEnd == gBgn + SIZEOF_FOO)) &&
      (forall m, n :: m in made && n in made && m.addr == gBgn && n.addr == gBgn ==> m == n)
    }

    /** The constructors used for the nodes of the list, from its head. */
    ghost function Kinds(): seq<Kind>
      reads this, entries
    {
      seq(|entries|, i requires 0 <= i < |entries| reads this, entries => entries[i].data.kind)
    }

    /** `mk_foo`: the allocator returns `ndAddr`; the choice decides whether this Foo becomes the tracked object. */
    method MkFoo(x: int, ndAddr: int, nd: bool) returns (res: Node?)
      requires Tracked()
      modifies this`gActive, this`made
      ensures res == null ==> made == old(made)
      ensures res != null <==> FooIsPlaced(gBgn, gEnd, old(gActive), ndAddr, nd)
      ensures res != null ==>
                fresh(res) && made == old(made) + {res} && res.kind == IsFoo && res.addr == ndAddr &&
                res.tag == FOO_TAG && res.x == x && Tracked() && gActive == (old(gActive) || nd)
      ensures old(Linked()) ==> Linked()
    {
      res := null;
      if !(ndAddr > 0) { return; }
      var foo := new Node(ndAddr, IsFoo, FOO_TAG, x, 0);
      if !gActive && nd {
        gActive := !gActive;
        if foo.addr != gBgn { return; }
        if gBgn + SIZEOF_FOO != gEnd { return; }
      } else if !(foo.addr > gEnd) {
        return;
      }
      made := made + {foo};
      res := foo;
    }

    method MkBar(x: int, y: int, ndAddr: int) returns (res: Node?)
      requires Tracked()
      modifies this`made
      ensures res != null <==> IsPlaced(gEnd, ndAddr)
      ensures res == null ==> made == old(made)
      ensures res != null ==>
                fresh(res) && made == old(made) + {res} && res.kind == IsBar && res.addr == ndAddr &&
                res.tag == BAR_TAG && res.x == x && res.y == y && Tracked()
      ensures old(Linked()) ==> Linked()
    {
      res := null;
      if !(ndAddr > 0) { return; }
      var bar := new Node(ndAddr, IsBar, BAR_TAG, x, y);
      if !(bar.addr > gEnd) { return; }
      made := made + {bar};
      res := bar;
    }

    /** `insert`: a new entry in front of the list; nothing else changes. */
    method Insert(data: Node, ndAddr: int) returns (ok: bool)
      requires Linked() && data in made
      modifies this`head, this`entries
      ensures Linked()
      ensures ok <==> IsPlaced(gEnd, ndAddr)
      ensures if ok then |entries| == |old(entries)| + 1 && fresh(entries[0]) && entries[0].data == data &&
                         entries[1..] == old(entries)
              else entries == old(entries)
    {
      if !(ndAddr > 0) { return false; }
      if !(ndAddr > gEnd) { return false; }
      var en := new Entry(ndAddr, data, head);
      head := en;
      entries := [en] + entries;
      assert entries[1..] == old(entries);
      return true;
    }

    /** `insert(lst, mk_foo(x))`. */
    method InsertFoo(x: int, ndAddr: int, nd: bool, ndEntry: int) returns (ok: bool)
      requires Linked() && Tracked()
      modifies this`head, this`entries, this`gActive, this`made
      ensures ok <==> FooIsPlaced(gBgn, gEnd, old(gActive), ndAddr, nd) && IsPlaced(gEnd, ndEntry)
      ensures ok ==> Linked() && Tracked() && Kinds() == [IsFoo] + old(Kinds()) && gActive == (old(gActive) || nd)
    {
      var foo := MkFoo(x, ndAddr, nd);
      if foo == null { return false; }
      ok := Insert(foo, ndEntry);
    }

    method InsertBar(x: int, y: int, ndAddr: int, ndEntry: int) returns (ok: bool)
      requires Linked() && Tracked()
      modifies this`head, this`entries, this`made
      ensures ok <==> IsPlaced(gEnd, ndAddr) && IsPlaced(gEnd, ndEntry)
      ensures ok ==> Linked() && Tracked() && Kinds() == [IsBar] + old(Kinds())
    {
      var bar := MkBar(x, y, ndAddr);
      if bar == null { return false; }
      ok := Insert(bar, ndEntry);
    }

    /** Any sequence of insertions: in a run that survives the assumes the list holds the inserted nodes in reverse, every
        tag still names its node's constructor, and at most one node, a Foo, sits at `g_bgn`. */
    method InsertAll(insertions: seq<Insertion>) returns (ok: bool)
      requires Linked() && Tracked()
      modifies this`head, this`entries, this`gActive, this`made
      ensures ok ==> Linked() && Tracked() && Kinds() == InReverse(insertions) + old(Kinds())
    {
      ghost var kinds := Kinds();
      assert [] + kinds == kinds;
      for n := 0 to |insertions|
        invariant Linked() && Tracked() && Kinds() == InReverse(insertions[..n]) + kinds
      {
        InReverseGrows(insertions, n, kinds);
        match insertions[n] {
          case OfFoo(x, addr, nd, entry) => ok := InsertFoo(x, addr, nd, entry);
          case OfBar(x, y, addr, entry) => ok := InsertBar(x, y, addr, entry);
        }
        if !ok { return; }
      }
      assert insertions[..|insertions|] == insertions;
      ok := true;
    }

    /** The walk in `main`, over a list of any length built by any insertions: it visits at most four entries in order,
        and its assertion fails exactly if one of them is taken for a Bar at `g_bgn`. That never happens once the nodes
        are tracked, where a node is taken for a Bar exactly if it was made as one. */
    method Walk() returns (failed: bool, bars: seq<bool>)
      requires Linked()
      ensures |bars| == (if |entries| < 4 then |entries| else 4)
      ensures failed <==> exists i :: 0 <= i < |bars| && bars[i] && gActive && entries[i].data.addr == gBgn
      ensures forall i :: 0 <= i < |bars| ==> (bars[i] <==> entries[i].data.tag == BAR_TAG)
      ensures Tracked() ==> !failed
      ensures Tracked() ==> forall i :: 0 <= i < |bars| ==> (bars[i] <==> Kinds()[i] == IsBar)
    {
      failed, bars := false, [];
      var cnt := 0;
      var it := head;
      while it != null
        invariant cnt <= |entries| && cnt <= 3 && cnt == |bars|
        invariant failed <==> exists i :: 0 <= i < cnt && bars[i] && gActive && entries[i].data.addr == gBgn
        invariant it == if cnt < |entries| then entries[cnt] else null
        invariant forall i :: 0 <= i < cnt ==> (bars[i] <==> entries[i].data.tag == BAR_TAG)
        decreases |entries| - cnt
      {
        var v := it.data;
        var isBar := v.tag == BAR_TAG;
        if isBar && gActive && v.addr == gBgn {
          failed := true;
        }
        bars := bars + [isBar];
        cnt := cnt + 1;
        if cnt > 3 { break; }
        it := it.next;
      }
    }

    /** The three insertions of `main`. */
    method Fill(addrs: seq<int>, nds: seq<bool>) returns (ok: bool)
      requires |addrs| == 6 && |nds| == 2
      requires Linked() && Tracked() && entries == [] && !gActive
      modifies this`head, this`entries, this`gActive, this`made
      ensures ok <==> FooIsPlaced(gBgn, gEnd, false, addrs[0], nds[0]) && IsPlaced(gEnd, addrs[1]) &&
                      IsPlaced(gEnd, addrs[2]) && IsPlaced(gEnd, addrs[3]) &&
                      FooIsPlaced(gBgn, gEnd, nds[0], addrs[4], nds[1]) && IsPlaced(gEnd, addrs[5])
      ensures ok ==> Linked() && Tracked() && Kinds() == [IsFoo, IsBar, IsFoo]
    {
      ok := InsertFoo(2, addrs[0], nds[0], addrs[1]);
      if !ok { return; }
      ok := InsertBar(3, 4, addrs[2], addrs[3]);
      if !ok { return; }
      ok := InsertFoo(5, addrs[4], nds[1], addrs[5]);
    }

    /** `main`: three insertions into an empty list, then the walk. Which runs are pruned; and no other run fails. */
    method Harness(ndBgn: int, ndEnd: int, ndList: int, addrs: seq<int>, nds: seq<bool>)
      returns (pruned: bool, failed: bool, bars: seq<bool>)
      requires |addrs| == 6 && |nds| == 2
      modifies this
      ensures !failed
      ensures !pruned ==> bars == [false, true, false]
      ensures !pruned <==>
                ndBgn > 0 && ndEnd > ndBgn && IsPlaced(ndEnd, ndList) &&
                FooIsPlaced(ndBgn, ndEnd, false, addrs[0], nds[0]) && IsPlaced(ndEnd, addrs[1]) &&
                IsPlaced(ndEnd, addrs[2]) && IsPlaced(ndEnd, addrs[3]) &&
                FooIsPlaced(ndBgn, ndEnd, nds[0], addrs[4], nds[1]) && IsPlaced(ndEnd, addrs[5])
    {
      pruned, failed, bars := true, false, [];
      gBgn, gEnd := ndBgn, ndEnd;
      if !(gBgn > 0) { return; }
      if !(gEnd > gBgn) { return; }
      gActive := false;
      head, entries, made := null, [], {};
      if !(ndList > 0) { return; }
      if !(ndList > gEnd) { return; }
      var ok := Fill(addrs, nds);
      if !ok { return; }
      assert |entries| == |Kinds()|;
      failed, bars := Walk();
      pruned := false;
    }
  }
}

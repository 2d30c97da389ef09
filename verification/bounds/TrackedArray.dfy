/** The parametric client of benchmarks/seahorn/abc/encoding-ex-1.c: a loop over an array of N four-byte elements
    with the tracking encoding inlined. */
module TrackedArray {
  /** What one run reads from `nd`: the guessed block, the array's address, and a choice per iteration. */
  datatype Input = Input(n: int, base: int, size: int, addr: int, follow: seq<bool>)

  /** The assumes made before the loop. */
  predicate Admitted(inp: Input) {
    inp.n > 0 && inp.base > 0 && inp.size > 0 && inp.addr > 0 &&
    (if inp.base == inp.addr then inp.size == 4 * inp.n else inp.base + inp.size < inp.addr)
  }

  /** The first iteration after iteration 0 in which the pointer is chosen to be followed, or 0 if there is none before `i`. */
  function FirstMove(follow: seq<bool>, i: nat): (m: nat)
    requires i <= |follow|
    ensures m == 0 || (0 < m < i && follow[m])
    ensures forall j :: 0 < j < (if m == 0 then i else m) ==> !follow[j]
  {
    if i == 0 then 0
    else
      var m := FirstMove(follow, i - 1);
      if m != 0 || i == 1 || !follow[i - 1] then m else i - 1
  }

  /** The offset and the size that the assertions of one iteration compare, when the array is the tracked block. */
  function Compared(inp: Input, useBaseOff: bool, useBaseSz: bool, i: nat): (int, int)
    requires i < |inp.follow|
  {
    (if useBaseOff then 4 * i else 4 * FirstMove(inp.follow, i + 1), if useBaseSz then 4 * inp.n else inp.size)
  }

  predicate InBounds(compared: (int, int)) {
    0 <= compared.0 && compared.0 + 4 <= compared.1
  }

  predicate AllInBounds(compared: seq<(int, int)>) {
    forall j :: 0 <= j < |compared| ==> InBounds(compared[j])
  }

  lemma OneMoreInBounds(compared: seq<(int, int)>, more: (int, int))
    ensures AllInBounds(compared + [more]) <==> AllInBounds(compared) && InBounds(more)
  {
    assert forall j :: 0 <= j < |compared| ==> (compared + [more])[j] == compared[j];
    assert (compared + [more])[|compared|] == more;
  }

  /** The loop, whatever the assumes were: it fails exactly if one of the comparisons it makes is out of bounds. They are
      made in every iteration for a tracked array and in none for another, whose pointer is 0 and never moves. */
  method Loop(inp: Input, useBaseOff: bool, useBaseSz: bool)
    returns (failed: bool, ptr: int, offset: int, compared: seq<(int, int)>)
    requires |inp.follow| == inp.n && inp.addr > 0
    ensures failed <==> !AllInBounds(compared)
    ensures inp.addr == inp.base ==>
              ptr == inp.base + offset && offset == 4 * FirstMove(inp.follow, inp.n) &&
              |compared| == inp.n && forall i :: 0 <= i < inp.n ==> compared[i] == Compared(inp, useBaseOff, useBaseSz, i)
    ensures inp.addr != inp.base ==> ptr == 0 && offset == 0 && compared == []
  {
    var Input(n, base, size, addr, follow) := inp;
    failed, ptr, offset, compared := false, if base == addr then base else 0, 0, [];
    var i := 0;
    while i < n
      invariant 0 <= i <= n
      invariant failed <==> !AllInBounds(compared)
      invariant addr == base ==> ptr == base + offset && offset == 4 * FirstMove(follow, i)
      invariant addr == base ==>
                  |compared| == i && forall j :: 0 <= j < i ==> compared[j] == Compared(inp, useBaseOff, useBaseSz, j)
      invariant addr != base ==> ptr == 0 && offset == 0 && compared == []
    {
      var p := addr + 4 * i;
      if follow[i] {
        if ptr == addr {
          ptr := p;
          offset := offset + 4 * i;
        }
      }
      var o := if useBaseOff && addr == base then 4 * i else offset;
      var sz := if useBaseSz && addr == base then 4 * n else size;
      if addr == base || ptr == p {
        OneMoreInBounds(compared, (o, sz));
        compared := compared + [(o, sz)];
        if !(o >= 0) { failed := true; }
        if !(o + 4 <= sz) { failed := true; }
      }
      i := i + 1;
    }
  }

  /** No assertion fails, for any input the assumes admit and both ways of compiling the offset and the size.
      A tracked pointer moves at most once, at the first choice to follow it; an untracked one never moves. The
      assertions are reached in every iteration for a tracked array and in none for another, and what they compare is
      collected in `compared`. */
  method Harness(inp: Input, useBaseOff: bool, useBaseSz: bool)
    returns (pruned: bool, failed: bool, ptr: int, offset: int, compared: seq<(int, int)>)
    requires inp.n > 0 ==> |inp.follow| == inp.n
    ensures pruned <==> !Admitted(inp)
    ensures !failed
    ensures !pruned && inp.addr == inp.base ==>
              ptr == inp.base + offset && offset == 4 * FirstMove(inp.follow, inp.n) && offset + 4 <= inp.size
    ensures !pruned && inp.addr == inp.base ==>
              |compared| == inp.n && forall i :: 0 <= i < inp.n ==>
                compared[i] == Compared(inp, useBaseOff, useBaseSz, i) &&
                0 <= compared[i].0 && compared[i].0 + 4 <= compared[i].1
    ensures !pruned && inp.addr != inp.base ==> ptr == 0 && offset == 0 && compared == []
  {
    pruned, failed, ptr, offset, compared := true, false, 0, 0, [];
    var Input(n, base, size, addr, follow) := inp;
    if !(n > 0) { return; }
    if !(base > 0) { return; }
    if !(size > 0) { return; }
    if !(addr > 0) { return; }
    if base == addr {
      if size != 4 * n { return; }
    } else if !(base + size < addr) {
      return;
    }
    pruned := false;
    failed, ptr, offset, compared := Loop(inp, useBaseOff, useBaseSz);
  }
}

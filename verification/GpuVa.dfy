/** The free list of GPU virtual addresses (src/drivers/nvidia/core/vmm.c): free ranges in address
    order, merged whenever they touch, with aligned first-fit allocation. The linked list is the
    sequence of its ranges; whether kmalloc has a node to give is a parameter. */
module GpuVa {
  import opened Machine

  datatype Range = Range(start: nat, size: nat)

  function End(r: Range): nat { r.start + r.size }

  predicate In(r: Range, x: nat) { r.start <= x < End(r) }

  ghost predicate Free(fs: seq<Range>, x: nat) { exists i :: 0 <= i < |fs| && In(fs[i], x) }

  /** In ascending order without overlap, none empty, inside [lo, hi). */
  ghost predicate Sorted(fs: seq<Range>, lo: nat, hi: nat) {
    && (forall i :: 0 <= i < |fs| ==> fs[i].size > 0 && lo <= fs[i].start && End(fs[i]) <= hi)
    && (forall i, j :: 0 <= i < j < |fs| ==> End(fs[i]) <= fs[j].start)
  }

  /** No two neighbours among the first n ranges touch. */
  ghost predicate ApartUpTo(fs: seq<Range>, n: nat) {
    forall i {:trigger fs[i].start} :: 0 < i < |fs| && i < n ==> End(fs[i - 1]) < fs[i].start
  }

  ghost predicate Coalesced(fs: seq<Range>, lo: nat, hi: nat) { Sorted(fs, lo, hi) && ApartUpTo(fs, |fs|) }

  ghost predicate Block(fs: seq<Range>, x: nat, n: nat) { forall y :: x <= y < x + n ==> Free(fs, y) }

  // ---- contiguous free space lies in one range

  lemma {:induction false} BlockInRange(fs: seq<Range>, lo: nat, hi: nat, x: nat, n: nat) returns (i: nat)
    requires Coalesced(fs, lo, hi) && n > 0 && Block(fs, x, n)
    ensures i < |fs| && fs[i].start <= x && x + n <= End(fs[i])
    decreases n
  {
    if n == 1 {
      assert Free(fs, x);
      i :| 0 <= i < |fs| && In(fs[i], x);
    } else {
      i := BlockInRange(fs, lo, hi, x, n - 1);
      assert Free(fs, x + n - 1);
      var j :| 0 <= j < |fs| && In(fs[j], x + n - 1);
      SameRange(fs, lo, hi, i, j, x + n - 1);
    }
  }

  lemma SameRange(fs: seq<Range>, lo: nat, hi: nat, i: nat, j: nat, y: nat)
    requires Coalesced(fs, lo, hi) && i < |fs| && j < |fs| && In(fs[j], y) && y <= End(fs[i]) && y > fs[i].start
    ensures i == j
  {
    if i < j { Gap(fs, lo, hi, i, j); }
    if j < i { Gap(fs, lo, hi, j, i); }
  }

  lemma Gap(fs: seq<Range>, lo: nat, hi: nat, i: nat, j: nat)
    requires Coalesced(fs, lo, hi) && i < j < |fs|
    ensures End(fs[i]) < fs[j].start
  {
    assert End(fs[i + 1 - 1]) < fs[i + 1].start;
    if i + 1 < j { assert End(fs[i + 1]) <= fs[j].start; }
  }

  /** The range has room for n addresses from an aligned one on. */
  predicate Fit(r: Range, align: nat, n: nat)
    requires align > 0
  {
    AlignUp(r.start, align) + n <= End(r)
  }

  /** If no range has room, there is no aligned free block anywhere. */
  lemma NoRoom(fs: seq<Range>, lo: nat, hi: nat, align: nat, n: nat, k: nat, x: nat) returns (i: nat)
    requires Coalesced(fs, lo, hi) && align > 0 && n > 0 && k <= |fs|
    requires forall i :: 0 <= i < k ==> !Fit(fs[i], align, n)
    requires x % align == 0 && Block(fs, x, n)
    ensures k <= i < |fs| && Fit(fs[i], align, n) && AlignUp(fs[i].start, align) <= x
  {
    i := BlockInRange(fs, lo, hi, x, n);
    AlignUpLeast(fs[i].start, align, x);
  }

  // ---- insertion and merging

  ghost predicate SameFree(fs: seq<Range>, gs: seq<Range>) { forall x: nat :: Free(fs, x) <==> Free(gs, x) }

  ghost predicate Clear(fs: seq<Range>, r: Range) {
    forall i :: 0 <= i < |fs| ==> End(fs[i]) <= r.start || End(r) <= fs[i].start
  }

  ghost function Put(fs: seq<Range>, i: nat, r: Range): seq<Range>
    requires i <= |fs|
  {
    fs[..i] + [r] + fs[i..]
  }

  lemma PutSorted(fs: seq<Range>, lo: nat, hi: nat, i: nat, r: Range)
    requires Sorted(fs, lo, hi) && i <= |fs| && Clear(fs, r) && r.size > 0 && lo <= r.start && End(r) <= hi
    requires (forall j :: 0 <= j < i ==> fs[j].start < r.start) && (i < |fs| ==> r.start <= fs[i].start)
    ensures Sorted(Put(fs, i, r), lo, hi)
  {
    var gs := Put(fs, i, r);
    forall j, k | 0 <= j < k < |gs| ensures End(gs[j]) <= gs[k].start {
      if j == i && k > i + 1 { assert End(fs[i]) <= fs[k - 1].start; }
    }
  }

  lemma PutFree(fs: seq<Range>, i: nat, r: Range, x: nat)
    requires i <= |fs|
    ensures Free(Put(fs, i, r), x) <==> Free(fs, x) || In(r, x)
  {
    var gs := Put(fs, i, r);
    if Free(fs, x) {
      var j :| 0 <= j < |fs| && In(fs[j], x);
      assert In(gs[if j < i then j else j + 1], x);
    }
    if In(r, x) { assert In(gs[i], x); }
    if Free(gs, x) {
      var j :| 0 <= j < |gs| && In(gs[j], x);
      if j < i { assert In(fs[j], x); } else if j > i { assert In(fs[j - 1], x); }
    }
  }

  ghost function Join(fs: seq<Range>, i: nat): seq<Range>
    requires i + 1 < |fs|
  {
    fs[..i] + [Range(fs[i].start, fs[i].size + fs[i + 1].size)] + fs[i + 2..]
  }

  lemma JoinOk(fs: seq<Range>, lo: nat, hi: nat, i: nat)
    requires Sorted(fs, lo, hi) && i + 1 < |fs| && End(fs[i]) == fs[i + 1].start && ApartUpTo(fs, i + 1)
    ensures Sorted(Join(fs, i), lo, hi) && ApartUpTo(Join(fs, i), i + 1) && SameFree(Join(fs, i), fs)
  {
    var gs := Join(fs, i);
    JoinSorted(fs, lo, hi, i);
    forall j | 0 < j < |gs| && j < i + 1 ensures End(gs[j - 1]) < gs[j].start { assert End(fs[j - 1]) < fs[j].start; }
    hide Sorted;
    forall x: nat ensures Free(gs, x) <==> Free(fs, x) { JoinFree(fs, i, x); }
  }

  lemma JoinSorted(fs: seq<Range>, lo: nat, hi: nat, i: nat)
    requires Sorted(fs, lo, hi) && i + 1 < |fs| && End(fs[i]) == fs[i + 1].start
    ensures Sorted(Join(fs, i), lo, hi)
  {
    var gs := Join(fs, i);
    assert forall j :: 0 <= j < |gs| && j != i ==> gs[j] == fs[if j < i then j else j + 1];
    assert gs[i].start == fs[i].start && End(gs[i]) == End(fs[i + 1]);
    hide Join;
    forall j, k | 0 <= j < k < |gs| ensures End(gs[j]) <= gs[k].start {
      assert End(fs[if j < i then j else j + 1]) <= fs[if k <= i then k else k + 1].start;
    }
    forall j | 0 <= j < |gs| ensures gs[j].size > 0 && lo <= gs[j].start && End(gs[j]) <= hi {
      assert fs[if j <= i then j else j + 1].size > 0;
    }
  }

  lemma JoinFree(fs: seq<Range>, i: nat, x: nat)
    requires i + 1 < |fs| && End(fs[i]) == fs[i + 1].start
    ensures Free(Join(fs, i), x) <==> Free(fs, x)
  {
    var gs := Join(fs, i);
    if Free(fs, x) {
      var j :| 0 <= j < |fs| && In(fs[j], x);
      assert In(gs[if j <= i then j else j - 1], x);
    }
    if Free(gs, x) {
      var j :| 0 <= j < |gs| && In(gs[j], x);
      if j != i { assert In(fs[if j < i then j else j + 1], x); } else { assert In(fs[i], x) || In(fs[i + 1], x); }
    }
  }

  /** insert_free_range: put the range in its place, then merge ranges that touch. Without a node
      nothing happens. */
  method InsertFree(fs: seq<Range>, start: nat, size: nat, node: bool, ghost lo: nat, ghost hi: nat)
    returns (gs: seq<Range>)
    requires Coalesced(fs, lo, hi) && (size > 0 ==> Clear(fs, Range(start, size)) && lo <= start && start + size <= hi)
    ensures Coalesced(gs, lo, hi) && (!node ==> gs == fs)
    ensures node ==> forall x: nat :: Free(gs, x) <==> Free(fs, x) || start <= x < start + size
  {
    gs := fs;
    if size == 0 || !node { return; }
    var i := 0;
    while i < |fs| && fs[i].start < start
      invariant i <= |fs| && forall j :: 0 <= j < i ==> fs[j].start < start
    {
      i := i + 1;
    }
    var r := Range(start, size);
    PutSorted(fs, lo, hi, i, r);
    forall x: nat ensures Free(Put(fs, i, r), x) <==> Free(fs, x) || In(r, x) { PutFree(fs, i, r, x); }
    gs := MergeAll(fs[..i] + [r] + fs[i..], lo, hi);
  }

  method MergeAll(fs: seq<Range>, ghost lo: nat, ghost hi: nat) returns (gs: seq<Range>)
    requires Sorted(fs, lo, hi)
    ensures Coalesced(gs, lo, hi) && SameFree(gs, fs)
  {
    gs := fs;
    var i := 0;
    while i + 1 < |gs|
      invariant Sorted(gs, lo, hi) && SameFree(gs, fs) && ApartUpTo(gs, i + 1)
      decreases |gs| - i
    {
      if End(gs[i]) == gs[i + 1].start {
        JoinOk(gs, lo, hi, i);
        gs := gs[..i] + [Range(gs[i].start, gs[i].size + gs[i + 1].size)] + gs[i + 2..];
      } else {
        i := i + 1;
      }
    }
  }

  // ---- allocation

  /** The parts of range r before va and from next on. */
  function Pieces(r: Range, va: nat, next: nat): seq<Range> {
    (if va > r.start then [Range(r.start, va - r.start)] else [])
    + if next < End(r) then [Range(next, End(r) - next)] else []
  }

  ghost function Cut(fs: seq<Range>, i: nat, va: nat, n: nat): seq<Range>
    requires i < |fs|
  {
    Splice(fs, i, Pieces(fs[i], va, va + n))
  }

  ghost function Splice(fs: seq<Range>, i: nat, ps: seq<Range>): seq<Range>
    requires i < |fs|
  {
    fs[..i] + ps + fs[i + 1..]
  }

  lemma SpliceAt(fs: seq<Range>, i: nat, ps: seq<Range>)
    requires i < |fs|
    ensures |Splice(fs, i, ps)| == |fs| - 1 + |ps|
    ensures forall k :: 0 <= k < i ==> Splice(fs, i, ps)[k] == fs[k]
    ensures forall k :: 0 <= k < |ps| ==> Splice(fs, i, ps)[i + k] == ps[k]
    ensures forall k :: i < k < |fs| ==> Splice(fs, i, ps)[k + |ps| - 1] == fs[k]
  {
  }

  lemma PiecesOk(r: Range, va: nat, n: nat)
    requires n > 0 && r.start <= va && va + n <= End(r)
    ensures var ps := Pieces(r, va, va + n);
      && (forall k :: 0 <= k < |ps| ==> ps[k].size > 0 && r.start <= ps[k].start && End(ps[k]) <= End(r))
      && (forall j, k :: 0 <= j < k < |ps| ==> End(ps[j]) < ps[k].start)
    ensures forall x: nat :: Free(Pieces(r, va, va + n), x) <==> In(r, x) && !(va <= x < va + n)
  {
    var ps := Pieces(r, va, va + n);
    forall x: nat ensures Free(ps, x) <==> In(r, x) && !(va <= x < va + n) {
      if In(r, x) && x < va { assert In(ps[0], x); }
      if In(r, x) && x >= va + n { assert In(ps[|ps| - 1], x); }
    }
  }

  lemma CutOk(fs: seq<Range>, lo: nat, hi: nat, i: nat, va: nat, n: nat)
    requires Coalesced(fs, lo, hi) && i < |fs| && n > 0 && fs[i].start <= va && va + n <= End(fs[i])
    ensures Coalesced(Cut(fs, i, va, n), lo, hi)
    ensures forall x: nat :: Free(Cut(fs, i, va, n), x) <==> Free(fs, x) && !(va <= x < va + n)
  {
    var ps, gs := Pieces(fs[i], va, va + n), Cut(fs, i, va, n);
    PiecesOk(fs[i], va, n);
    hide Pieces;
    CutApart(fs, lo, hi, i, ps);
    forall x: nat ensures Free(gs, x) <==> Free(fs, x) && !(va <= x < va + n) { CutFree(fs, lo, hi, i, ps, va, n, x); }
  }

  lemma CutApart(fs: seq<Range>, lo: nat, hi: nat, i: nat, ps: seq<Range>)
    requires Coalesced(fs, lo, hi) && i < |fs|
    requires forall k :: 0 <= k < |ps| ==> ps[k].size > 0 && fs[i].start <= ps[k].start && End(ps[k]) <= End(fs[i])
    requires forall j, k :: 0 <= j < k < |ps| ==> End(ps[j]) < ps[k].start
    ensures Coalesced(Splice(fs, i, ps), lo, hi)
  {
    var gs, p := Splice(fs, i, ps), |ps|;
    forall k | 0 <= k < |gs|
      ensures Piece(fs, gs, i, p, k) && (i <= k < i + p ==> gs[k] == ps[k - i])
    {
      SpliceIs(fs, i, ps, k);
    }
    hide Splice;
    forall j, k | 0 <= j < k < |gs| ensures End(gs[j]) < gs[k].start {
      assert Piece(fs, gs, i, p, j) && Piece(fs, gs, i, p, k);
      var j0, k0 := Source(i, p, j), Source(i, p, k);
      if j0 < k0 { Gap(fs, lo, hi, j0, k0); }
    }
    forall k | 0 <= k < |gs|
      ensures gs[k].size > 0 && lo <= gs[k].start && End(gs[k]) <= hi
    {
      assert Piece(fs, gs, i, p, k);
    }
  }

  lemma SpliceIs(fs: seq<Range>, i: nat, ps: seq<Range>, k: nat)
    requires i < |fs| && k < |Splice(fs, i, ps)|
    ensures Splice(fs, i, ps)[k] == if i <= k < i + |ps| then ps[k - i] else fs[Source(i, |ps|, k)]
  {
  }

  /** The range of the old list that range k of the new one comes from. */
  ghost function Source(i: nat, p: nat, k: nat): nat { if k < i then k else if k < i + p then i else k - p + 1 }

  ghost predicate Piece(fs: seq<Range>, gs: seq<Range>, i: nat, p: nat, k: nat) {
    && k < |gs| && Source(i, p, k) < |fs| && gs[k].size > 0
    && fs[Source(i, p, k)].start <= gs[k].start && End(gs[k]) <= End(fs[Source(i, p, k)])
  }

  lemma CutFree(fs: seq<Range>, lo: nat, hi: nat, i: nat, ps: seq<Range>, va: nat, n: nat, x: nat)
    requires Coalesced(fs, lo, hi) && i < |fs| && fs[i].start <= va && va + n <= End(fs[i])
    requires Free(ps, x) <==> In(fs[i], x) && !(va <= x < va + n)
    ensures Free(Splice(fs, i, ps), x) <==> Free(fs, x) && !(va <= x < va + n)
  {
    if Free(Splice(fs, i, ps), x) { SpliceFrom(fs, lo, hi, i, ps, x); }
    if Free(fs, x) && !(va <= x < va + n) { SpliceInto(fs, i, ps, x); }
    hide Splice, Coalesced, Free;
  }

  lemma SpliceFrom(fs: seq<Range>, lo: nat, hi: nat, i: nat, ps: seq<Range>, x: nat)
    requires Coalesced(fs, lo, hi) && i < |fs| && Free(Splice(fs, i, ps), x)
    ensures Free(ps, x) || (Free(fs, x) && !In(fs[i], x))
  {
    var gs := Splice(fs, i, ps);
    var k: nat :| k < |gs| && In(gs[k], x);
    SpliceIs(fs, i, ps, k);
    hide Splice;
    if !(i <= k < i + |ps|) { OtherRange(fs, lo, hi, i, Source(i, |ps|, k), x); }
  }

  lemma SpliceInto(fs: seq<Range>, i: nat, ps: seq<Range>, x: nat)
    requires i < |fs| && Free(fs, x) && (Free(ps, x) || !In(fs[i], x))
    ensures Free(Splice(fs, i, ps), x)
  {
    var gs := Splice(fs, i, ps);
    SpliceAt(fs, i, ps);
    hide Splice;
    if Free(ps, x) {
      var k: nat :| k < |ps| && In(ps[k], x);
      assert gs[i + k] == ps[k];
    } else {
      var m: nat :| m < |fs| && In(fs[m], x);
      assert gs[if m < i then m else m + |ps| - 1] == fs[m];
    }
  }

  lemma OtherRange(fs: seq<Range>, lo: nat, hi: nat, i: nat, m: nat, x: nat)
    requires Coalesced(fs, lo, hi) && i < |fs| && m < |fs| && m != i && In(fs[m], x)
    ensures !In(fs[i], x) && Free(fs, x)
  {
    if m < i { Gap(fs, lo, hi, m, i); } else { Gap(fs, lo, hi, i, m); }
  }

  /** x is the least aligned address at which n addresses are free. */
  ghost predicate Lowest(fs: seq<Range>, align: nat, n: nat, x: nat)
    requires align > 0
  {
    x % align == 0 && Block(fs, x, n) && forall y: nat :: y % align == 0 && Block(fs, y, n) ==> x <= y
  }

  /** Somewhere n addresses are free from an aligned address on. */
  ghost predicate HasRoom(fs: seq<Range>, align: nat, n: nat)
    requires align > 0
  {
    exists x: nat :: x % align == 0 && Block(fs, x, n)
  }

  // ---- the test for room, in 64-bit arithmetic

  lemma Inside(fs: seq<Range>, lo: nat, hi: nat, i: nat)
    requires Coalesced(fs, lo, hi) && i < |fs|
    ensures lo <= fs[i].start && End(fs[i]) <= hi
  {
  }

  function Start64(r: Range, align: nat): nat
    requires align > 0
  {
    AlignDown(Wrap64(r.start + align - 1), align)
  }

  predicate Passes(r: Range, align: nat, n: nat)
    requires align > 0
  {
    Start64(r, align) >= r.start && Wrap64(Start64(r, align) + n) <= Wrap64(r.start + r.size)
  }

  /** The end of the block wraps to an address not behind the range. */
  predicate Fooled(r: Range, align: nat, n: nat)
    requires align > 0
  {
    AlignUp(r.start, align) < U64 <= AlignUp(r.start, align) + n <= U64 + End(r)
  }

  /** The test is right exactly if it is not fooled; an aligned start that wraps never passes. */
  lemma FitTest(r: Range, align: nat, n: nat)
    requires End(r) < U64 && 0 < align < U64 && U64 % align == 0 && n < U64
    ensures (Passes(r, align, n) <==> Fit(r, align, n)) <==> !Fooled(r, align, n)
    ensures Passes(r, align, n) <==> Fit(r, align, n) || Fooled(r, align, n)
    ensures Passes(r, align, n) ==> Start64(r, align) == AlignUp(r.start, align)
  {
    var x := r.start + align - 1;
    if x >= U64 {
      Greatest(x, align, U64);
      WrapOnce(x);
    } else {
      WrapOnce(AlignUp(r.start, align) + n);
    }
    hide AlignDown, Wrap64;
  }

  lemma Greatest(x: nat, a: nat, y: nat)
    requires a > 0 && y % a == 0 && y <= x
    ensures y <= AlignDown(x, a)
  {
    assert y / a * a == y;
    DivMod(x, a);
    MultiplesApart(y / a, x / a, a);
  }

  lemma WrapOnce(x: nat)
    requires x < 2 * U64
    ensures Wrap64(x) == if x < U64 then x else x - U64
  {
  }

  /** Before any range with room comes one that fools the test. */
  ghost predicate Misled(fs: seq<Range>, align: nat, n: nat)
    requires align > 0
  {
    exists k :: 0 <= k < |fs| && Fooled(fs[k], align, n) && forall j :: 0 <= j < k ==> !Fit(fs[j], align, n)
  }

  /** The search takes range k, the first that passes. */
  ghost predicate Taken(fs: seq<Range>, align: nat, n: nat, k: nat)
    requires align > 0
  {
    k < |fs| && Passes(fs[k], align, n) && forall j :: 0 <= j < k ==> !Passes(fs[j], align, n)
  }

  /** Something is left of the range in front of the block and, as the code computes it, behind. */
  predicate Gaps(r: Range, align: nat, n: nat)
    requires align > 0
  {
    r.start < AlignUp(r.start, align) && Wrap64(AlignUp(r.start, align) + n) < End(r)
  }

  /** The range that is taken has to be split in two. */
  ghost predicate NeedsNode(fs: seq<Range>, align: nat, n: nat)
    requires align > 0
  {
    exists k: nat :: Taken(fs, align, n, k) && Gaps(fs[k], align, n)
  }

  /** The block starts where the range that is taken ends. */
  ghost predicate StartsAtEnd(fs: seq<Range>, align: nat, n: nat)
    requires align > 0
  {
    exists k: nat :: Taken(fs, align, n, k) && AlignUp(fs[k].start, align) == End(fs[k])
  }

  lemma TakenOnce(fs: seq<Range>, align: nat, n: nat, i: nat)
    requires align > 0 && Taken(fs, align, n, i)
    ensures NeedsNode(fs, align, n) <==> Gaps(fs[i], align, n)
    ensures StartsAtEnd(fs, align, n) <==> AlignUp(fs[i].start, align) == End(fs[i])
  {
    hide Passes, Gaps, AlignUp;
    forall k: nat | Taken(fs, align, n, k) ensures k == i { }
  }

  lemma NoneTaken(fs: seq<Range>, align: nat, n: nat)
    requires align > 0 && forall k :: 0 <= k < |fs| ==> !Passes(fs[k], align, n)
    ensures !NeedsNode(fs, align, n)
  {
  }

  lemma GapsAre(r: Range, align: nat, n: nat, va: nat, next: nat)
    requires align > 0 && va == AlignUp(r.start, align) && next == Wrap64(va + n)
    ensures Gaps(r, align, n) <==> va > r.start && next < End(r)
  {
  }

  /** The result of the search: if it is misled, a block that is not free; otherwise the lowest free
      block, or none (i past the end) exactly if there is none. */
  ghost predicate Found(fs: seq<Range>, align: nat, n: nat, i: nat, va: nat)
    requires align > 0
  {
    if Misled(fs, align, n) then i < |fs| && va + n >= U64 && !Block(fs, va, n)
    else (i < |fs| <==> HasRoom(fs, align, n)) && (i < |fs| ==> va + n <= End(fs[i]) && Lowest(fs, align, n, va))
  }

  /** The search of nv_vmm_alloc_va. */
  method FirstFit(fs: seq<Range>, align: nat, n: nat, ghost lo: nat, ghost hi: nat) returns (i: nat, va: nat)
    requires Coalesced(fs, lo, hi) && hi < U64 && 0 < align < U64 && U64 % align == 0 && n < U64
    ensures i <= |fs| && (i < |fs| ==> va == AlignUp(fs[i].start, align) < U64 && Wrap64(va + n) <= End(fs[i]))
    ensures i < |fs| <==> exists k :: 0 <= k < |fs| && Passes(fs[k], align, n)
    ensures i < |fs| ==> Taken(fs, align, n, i)
    ensures n > 0 ==> Found(fs, align, n, i, va)
  {
    hide Passes, Found, AlignUp, AlignDown, Start64, Wrap64, Coalesced;
    i, va := 0, 0;
    while i < |fs|
      invariant i <= |fs| && forall j :: 0 <= j < i ==> !Passes(fs[j], align, n)
    {
      Inside(fs, lo, hi, i);
      if Passes(fs[i], align, n) {
        va := Start64(fs[i], align);
        PassedAt(fs, lo, hi, align, n, i);
        return;
      }
      i := i + 1;
    }
    if n > 0 { FoundNone(fs, lo, hi, align, n); }
  }

  lemma PassedAt(fs: seq<Range>, lo: nat, hi: nat, align: nat, n: nat, i: nat)
    requires Coalesced(fs, lo, hi) && hi < U64 && 0 < align < U64 && U64 % align == 0 && n < U64
    requires i < |fs| && Passes(fs[i], align, n) && forall j :: 0 <= j < i ==> !Passes(fs[j], align, n)
    ensures var va := Start64(fs[i], align);
      va == AlignUp(fs[i].start, align) < U64 && Wrap64(va + n) <= End(fs[i]) && (n > 0 ==> Found(fs, align, n, i, va))
  {
    forall j: nat | j <= i ensures Passes(fs[j], align, n) <==> Fit(fs[j], align, n) || Fooled(fs[j], align, n) {
      FitTest(fs[j], align, n);
    }
    FitTest(fs[i], align, n);
    hide AlignUp;
    FoundAt(fs, lo, hi, align, n, i);
  }

  lemma FoundAt(fs: seq<Range>, lo: nat, hi: nat, align: nat, n: nat, i: nat)
    requires Coalesced(fs, lo, hi) && hi < U64 && 0 < align < U64 && i < |fs|
    requires forall j :: 0 <= j < i ==> !Fit(fs[j], align, n) && !Fooled(fs[j], align, n)
    requires Fit(fs[i], align, n) || Fooled(fs[i], align, n)
    ensures AlignUp(fs[i].start, align) < U64 && (n > 0 ==> Found(fs, align, n, i, AlignUp(fs[i].start, align)))
  {
    var va := AlignUp(fs[i].start, align);
    assert !(Fit(fs[i], align, n) && Fooled(fs[i], align, n));
    if n > 0 {
      if Fit(fs[i], align, n) { IsLowest(fs, lo, hi, align, n, i); } else { Outside(fs, lo, hi, va, n); }
    }
    hide Block, Lowest, AlignUp;
  }

  lemma Outside(fs: seq<Range>, lo: nat, hi: nat, va: nat, n: nat)
    requires Coalesced(fs, lo, hi) && n > 0 && va + n > hi
    ensures !Block(fs, va, n)
  {
    assert !Free(fs, va + n - 1);
  }

  lemma FoundNone(fs: seq<Range>, lo: nat, hi: nat, align: nat, n: nat)
    requires Coalesced(fs, lo, hi) && hi < U64 && 0 < align < U64 && U64 % align == 0 && 0 < n < U64
    requires forall j :: 0 <= j < |fs| ==> !Passes(fs[j], align, n)
    ensures Found(fs, align, n, |fs|, 0)
  {
    forall j: nat | j < |fs| ensures !Fit(fs[j], align, n) && !Fooled(fs[j], align, n) { FitTest(fs[j], align, n); }
    forall x: nat | x % align == 0 ensures !Block(fs, x, n) {
      if Block(fs, x, n) { var j := NoRoom(fs, lo, hi, align, n, |fs|, x); }
    }
  }

  /** A range of a megabyte passes the test for all but a page of 2^64 bytes, and nothing fits. */
  lemma FooledOnce()
    ensures var r, n := Range(0x1000, 0x10_0000), U64 - 0x1000;
      Passes(r, PAGE, n) && !Fit(r, PAGE, n) && !HasRoom([r], PAGE, n)
  {
    var r, n := Range(0x1000, 0x10_0000), U64 - 0x1000;
    FitTest(r, PAGE, n);
    forall x: nat ensures !Block([r], x, n) { if x + n > End(r) { Outside([r], 0x1000, End(r), x, n); } }
  }

  /** No request is misled that leaves the sum of all three in 64 bits. */
  lemma NeverMisled(fs: seq<Range>, lo: nat, hi: nat, align: nat, n: nat)
    requires Coalesced(fs, lo, hi) && align > 0 && hi + align + n <= U64
    ensures !Misled(fs, align, n)
  {
  }

  lemma IsLowest(fs: seq<Range>, lo: nat, hi: nat, align: nat, n: nat, i: nat)
    requires Coalesced(fs, lo, hi) && align > 0 && n > 0 && i < |fs| && Fit(fs[i], align, n)
    requires forall j :: 0 <= j < i ==> !Fit(fs[j], align, n)
    ensures Lowest(fs, align, n, AlignUp(fs[i].start, align))
  {
    var x := AlignUp(fs[i].start, align);
    forall y | x <= y < x + n ensures Free(fs, y) { assert In(fs[i], y); }
    forall y: nat | y % align == 0 && Block(fs, y, n) ensures x <= y {
      var j := NoRoom(fs, lo, hi, align, n, i, y);
      if i < j { Gap(fs, lo, hi, i, j); }
    }
  }

  /** The alignment asked for, but at least a page. */
  function AlignOf(align: nat): (a: nat)
    ensures a >= align && a >= 4096 && (a == align || a == 4096)
  {
    if align < PAGE then PAGE else align
  }

  /** A size rounded up to pages. */
  function Rounded(size: nat): nat { AlignUp(size, PAGE) }

  /** The length that the code computes for a size. */
  function Length(size: nat): nat { AlignDown(Wrap64(size + 4095), PAGE) }

  /** The length that the code computes for a size: right exactly if the sum does not wrap, else 0. */
  ghost predicate AsksFor(size: nat, n: nat) {
    n < U64 && Rounded(size) > 0 && if size + 4095 < U64 then n == Rounded(size) else n == 0 && Rounded(size) == U64
  }

  lemma RoundedIs(size: nat)
    requires 0 < size < U64
    ensures AsksFor(size, AlignDown(Wrap64(size + 4095), PAGE))
  {
    WrapOnce(size + 4095);
    if size + 4095 >= U64 { Greatest(size + 4095, PAGE, U64); }
  }

  /** The request gets addresses that are not free: rounded up it wraps to nothing and some range has
      an aligned address in it or behind it, or the search is misled. */
  ghost predicate Misfit(fs: seq<Range>, align: nat, size: nat)
    requires align > 0
  {
    if size + 4095 < U64 then Misled(fs, align, Rounded(size)) else exists k :: 0 <= k < |fs| && Fit(fs[k], align, 0)
  }

  /** A request whose rounding wraps asks the search for a block of no addresses. */
  lemma AskNothing(fs: seq<Range>, lo: nat, hi: nat, align: nat)
    requires Sorted(fs, lo, hi) && hi < U64 && 0 < align < U64 && U64 % align == 0
    ensures forall k :: 0 <= k < |fs| ==> (Passes(fs[k], align, 0) <==> Fit(fs[k], align, 0))
  {
    forall k | 0 <= k < |fs| ensures Passes(fs[k], align, 0) <==> Fit(fs[k], align, 0) { FitTest(fs[k], align, 0); }
  }

  ghost predicate Held(live: map<nat, nat>, va: nat, x: nat) { va in live && va <= x < va + live[va] }

  /** Every address of the space is free or in exactly one allocated block, and never both. */
  ghost predicate Parts(fs: seq<Range>, live: map<nat, nat>, lo: nat, hi: nat) {
    && (forall va :: va in live ==> live[va] > 0 && lo <= va && va + live[va] <= hi)
    && (forall x: nat :: lo <= x < hi ==> (Free(fs, x) <==> forall va: nat :: !Held(live, va, x)))
    && (forall va: nat, vb: nat, x: nat :: Held(live, va, x) && Held(live, vb, x) ==> va == vb)
  }

  lemma TakeParts(fs: seq<Range>, gs: seq<Range>, live: map<nat, nat>, lo: nat, hi: nat, va: nat, n: nat)
    requires Parts(fs, live, lo, hi) && Block(fs, va, n) && n > 0 && lo <= va && va + n <= hi
    requires forall x: nat :: Free(gs, x) <==> Free(fs, x) && !(va <= x < va + n)
    ensures va !in live && Parts(gs, live[va := n], lo, hi)
  {
    assert Free(fs, va);
    assert va in live ==> Held(live, va, va);
    var l := live[va := n];
    forall x: nat | lo <= x < hi ensures Free(gs, x) <==> forall vb: nat :: !Held(l, vb, x) {
      assert forall vb: nat :: Held(l, vb, x) <==> Held(live, vb, x) || (vb == va && va <= x < va + n);
      if Free(fs, x) && va <= x < va + n { assert Held(l, va, x); }
    }
    forall a: nat, b: nat, x: nat | Held(l, a, x) && Held(l, b, x) ensures a == b {
      if va <= x < va + n { assert Free(fs, x); }
      assert a != va ==> Held(live, a, x);
      assert b != va ==> Held(live, b, x);
    }
  }

  lemma GiveClear(fs: seq<Range>, live: map<nat, nat>, lo: nat, hi: nat, va: nat)
    requires Parts(fs, live, lo, hi) && va in live && Coalesced(fs, lo, hi)
    ensures Clear(fs, Range(va, live[va])) && lo <= va && va + live[va] <= hi
  {
    forall i | 0 <= i < |fs| ensures End(fs[i]) <= va || va + live[va] <= fs[i].start {
      var x := if fs[i].start < va then va else fs[i].start;
      if In(fs[i], x) && x < va + live[va] {
        assert Free(fs, x) && Held(live, va, x);
      }
    }
  }

  lemma GiveParts(fs: seq<Range>, gs: seq<Range>, live: map<nat, nat>, lo: nat, hi: nat, va: nat)
    requires Parts(fs, live, lo, hi) && va in live
    requires forall x: nat :: Free(gs, x) <==> Free(fs, x) || va <= x < va + live[va]
    ensures Parts(gs, live - {va}, lo, hi)
  {
    var l := live - {va};
    forall x: nat | lo <= x < hi ensures Free(gs, x) <==> forall vb: nat :: !Held(l, vb, x) {
      assert forall vb: nat :: Held(live, vb, x) <==> Held(l, vb, x) || (vb == va && va <= x < va + live[va]);
      if Held(live, va, x) { assert forall vb: nat :: Held(live, vb, x) ==> vb == va; }
    }
    forall a: nat, b: nat, x: nat | Held(l, a, x) && Held(l, b, x)
      ensures a == b
    {
      assert Held(live, a, x) && Held(live, b, x);
    }
  }

  /** Nothing was found: the request was not a misfit, and there is no room for it. */
  lemma NotFound(fs: seq<Range>, lo: nat, hi: nat, align: nat, size: nat, n: nat, va: nat)
    requires Coalesced(fs, lo, hi) && hi < U64 && 0 < align < U64 && U64 % align == 0 && 0 < size < U64
    requires AsksFor(size, n)
    requires (forall k :: 0 <= k < |fs| ==> !Passes(fs[k], align, n)) && (n > 0 ==> Found(fs, align, n, |fs|, va))
    ensures !Misfit(fs, align, size) && !HasRoom(fs, align, Rounded(size))
  {
    hide Rounded, Passes;
    if n == 0 {
      AskNothing(fs, lo, hi, align);
      forall x: nat ensures !Block(fs, x, Rounded(size)) { Outside(fs, lo, hi, x, Rounded(size)); }
    }
  }

  /** A misfit found something: the block is not free, and no division of the space has it. */
  lemma WrongBlock(fs: seq<Range>, live: map<nat, nat>, lo: nat, hi: nat, align: nat, size: nat, n: nat, i: nat,
                   va: nat, gs: seq<Range>)
    requires Coalesced(fs, lo, hi) && hi < U64 && align > 0 && 0 < size < U64 && AsksFor(size, n)
    requires Misfit(fs, align, size) && (n > 0 ==> Found(fs, align, n, i, va))
    ensures !Block(fs, va, Rounded(size)) && !Parts(gs, live[va := n], lo, hi)
  {
    hide Rounded, Misled, HasRoom, Lowest;
    assert va in live[va := n];
    if n == 0 { Outside(fs, lo, hi, va, Rounded(size)); }
  }

  /** Any other request that found something: the block leaves the free ranges. */
  lemma RightBlock(fs: seq<Range>, live: map<nat, nat>, lo: nat, hi: nat, align: nat, size: nat, n: nat, i: nat,
                   va: nat)
    requires Coalesced(fs, lo, hi) && Parts(fs, live, lo, hi) && hi < U64 && 0 < align < U64 && U64 % align == 0
    requires 0 < size < U64 && AsksFor(size, n) && !Misfit(fs, align, size) && i < |fs|
    requires va == AlignUp(fs[i].start, align)
    requires (exists k :: 0 <= k < |fs| && Passes(fs[k], align, n)) && (n > 0 ==> Found(fs, align, n, i, va))
    ensures n == Rounded(size) && HasRoom(fs, align, n) && Lowest(fs, align, n, va) && va !in live
    ensures var gs := Splice(fs, i, Pieces(fs[i], va, Wrap64(va + n)));
      Coalesced(gs, lo, hi) && Parts(gs, live[va := n], lo, hi)
  {
    hide Rounded, Misled, Pieces, Splice, AlignUp;
    if n == 0 { AskNothing(fs, lo, hi, align); }
    hide Passes;
    Inside(fs, lo, hi, i);
    hide Coalesced, Parts;
    CutOk(fs, lo, hi, i, va, n);
    TakeParts(fs, Cut(fs, i, va, n), live, lo, hi, va, n);
  }

  /** Without a node the range has been cut off at the block: the space is still divided up exactly if
      the block starts where the range ends, so that nothing was cut off. */
  lemma CutOff(fs: seq<Range>, live: map<nat, nat>, lo: nat, hi: nat, i: nat, va: nat)
    requires Coalesced(fs, lo, hi) && Parts(fs, live, lo, hi) && i < |fs| && fs[i].start < va
    ensures var gs := Splice(fs, i, [Range(fs[i].start, va - fs[i].start)]);
      (Coalesced(gs, lo, hi) && Parts(gs, live, lo, hi) <==> va == End(fs[i])) && (va == End(fs[i]) ==> gs == fs)
  {
    var r := Range(fs[i].start, va - fs[i].start);
    var gs := Splice(fs, i, [r]);
    SpliceAt(fs, i, [r]);
    assert gs[i + 0] == r;
    if va < End(fs[i]) {
      CutShort(fs, gs, live, lo, hi, i, va);
    } else if va > End(fs[i]) {
      CutLong(fs, gs, live, lo, hi, i);
    } else {
      assert gs == fs;
    }
  }

  lemma CutShort(fs: seq<Range>, gs: seq<Range>, live: map<nat, nat>, lo: nat, hi: nat, i: nat, x: nat)
    requires Coalesced(fs, lo, hi) && Parts(fs, live, lo, hi) && i < |fs| && In(fs[i], x)
    requires |gs| == |fs| && End(gs[i]) <= x && forall k :: 0 <= k < |fs| && k != i ==> gs[k] == fs[k]
    ensures !Parts(gs, live, lo, hi)
  {
    Inside(fs, lo, hi, i);
    OnlyIn(fs, gs, lo, hi, i, x);
    assert Free(fs, x);
  }

  lemma CutLong(fs: seq<Range>, gs: seq<Range>, live: map<nat, nat>, lo: nat, hi: nat, i: nat)
    requires Coalesced(fs, lo, hi) && Parts(fs, live, lo, hi) && i < |fs| && |gs| == |fs|
    requires gs[i].start == fs[i].start && End(gs[i]) > End(fs[i])
    ensures !(Coalesced(gs, lo, hi) && Parts(gs, live, lo, hi))
  {
    var x := End(fs[i]);
    Inside(fs, lo, hi, i);
    NotBehind(fs, lo, hi, i);
    assert In(gs[i], x) && Free(gs, x);
  }

  /** An address of range i is in no other range, so cutting range i off in front of it loses it. */
  lemma OnlyIn(fs: seq<Range>, gs: seq<Range>, lo: nat, hi: nat, i: nat, x: nat)
    requires Coalesced(fs, lo, hi) && i < |fs| && In(fs[i], x) && |gs| == |fs| && End(gs[i]) <= x
    requires forall k :: 0 <= k < |fs| && k != i ==> gs[k] == fs[k]
    ensures !Free(gs, x)
  {
    forall k | 0 <= k < |gs| ensures !In(gs[k], x) {
      if k != i && In(fs[k], x) { OtherRange(fs, lo, hi, i, k, x); }
    }
  }

  lemma NotBehind(fs: seq<Range>, lo: nat, hi: nat, i: nat)
    requires Coalesced(fs, lo, hi) && i < |fs|
    ensures !Free(fs, End(fs[i]))
  {
    forall k | 0 <= k < |fs| ensures !In(fs[k], End(fs[i])) {
      if k < i { Gap(fs, lo, hi, k, i); }
      if i < k { Gap(fs, lo, hi, i, k); }
    }
  }

  /** A block that is given up without being freed is lost. */
  lemma LostBlock(fs: seq<Range>, live: map<nat, nat>, lo: nat, hi: nat, va: nat)
    requires Parts(fs, live, lo, hi) && va in live
    ensures !Parts(fs, live - {va}, lo, hi)
  {
    assert Held(live, va, va);
    assert !Free(fs, va);
    forall vb: nat ensures !Held(live - {va}, vb, va) { assert Held(live - {va}, vb, va) ==> Held(live, vb, va); }
  }

  /** The free ranges of a space in which nothing is allocated. */
  lemma WholeSpace(fs: seq<Range>, lo: nat, hi: nat)
    requires Coalesced(fs, lo, hi) && Parts(fs, map[], lo, hi) && lo < hi
    ensures fs == [Range(lo, hi - lo)]
  {
    assert forall x: nat :: lo <= x < hi ==> Free(fs, x);
    var i := BlockInRange(fs, lo, hi, lo, hi - lo);
    assert fs[i] == Range(lo, hi - lo);
    Alone(fs, lo, hi, i, 0);
    Alone(fs, lo, hi, i, |fs| - 1);
  }

  lemma Alone(fs: seq<Range>, lo: nat, hi: nat, i: nat, j: nat)
    requires Coalesced(fs, lo, hi) && i < |fs| && j < |fs| && lo < hi && fs[i] == Range(lo, hi - lo)
    ensures i == j
  {
    if i < j { Gap(fs, lo, hi, i, j); }
    if j < i { Gap(fs, lo, hi, j, i); }
  }

  lemma EmptyList(r: Range, lo: nat, hi: nat)
    ensures Coalesced([], lo, hi) && Clear([], r)
  {
  }

  /** A new space is divided up exactly if its range could be put into the list. */
  lemma NewSpace(fs: seq<Range>, lo: nat, hi: nat, node: bool)
    requires lo < hi && Coalesced(fs, lo, hi) && (!node ==> fs == [])
    requires node ==> forall x: nat :: Free(fs, x) <==> Free([], x) || lo <= x < hi
    ensures Parts(fs, map[], lo, hi) <==> node
    ensures node ==> fs == [Range(lo, hi - lo)]
  {
    assert forall x: nat :: !Free([], x);
    assert forall va: nat, x: nat :: !Held(map[], va, x);
    if node { WholeSpace(fs, lo, hi); } else { assert !Free(fs, lo); }
  }

  /** The allocator; live is what has been allocated and not freed, by address, with its length. */
  class VaSpace {
    const lo: nat
    const hi: nat
    var free: seq<Range>
    ghost var live: map<nat, nat>

    /** The free and the allocated ranges divide up the address space. */
    ghost predicate Valid()
      reads this
    {
      Coalesced(free, lo, hi) && hi < U64 && Parts(free, live, lo, hi)
    }

    constructor (vaStart: nat, vaLimit: nat, node: bool)
      requires vaStart < vaLimit < U64
      ensures lo == vaStart && hi == vaLimit && live == map[] && (Valid() <==> node)
      ensures node ==> free == [Range(lo, hi - lo)]
    {
      lo, hi, free, live := vaStart, vaLimit, [], map[];
      new;
      hide Parts, Coalesced, Clear, Free;
      EmptyList(Range(lo, hi - lo), lo, hi);
      free := InsertFree([], lo, hi - lo, node, lo, hi);
      NewSpace(free, lo, hi, node);
    }

    /** nv_vmm_alloc_va, for an alignment that is a power of two; node says whether kmalloc has a node.
        A range that has to be split without one is cut off at the block, and the call fails. */
    method Alloc(size: nat, align0: nat, node: bool) returns (ok: bool, va: nat)
      requires Valid() && size < U64 && align0 < U64 && U64 % AlignOf(align0) == 0
      modifies this
      ensures size > 0 ==>
        (Valid() <==>
         if !node && NeedsNode(old(free), AlignOf(align0), Length(size))
         then StartsAtEnd(old(free), AlignOf(align0), Length(size))
         else !Misfit(old(free), AlignOf(align0), size))
      ensures ok ==> node || !NeedsNode(old(free), AlignOf(align0), Length(size))
      ensures size > 0 && !Valid() && (node || !NeedsNode(old(free), AlignOf(align0), Length(size))) ==> ok
      ensures ok && !Valid() ==> !Block(old(free), va, Rounded(size))
      ensures Valid() && (node || !NeedsNode(old(free), AlignOf(align0), Length(size))) ==>
        (ok <==> size > 0 && HasRoom(old(free), AlignOf(align0), Rounded(size)))
      ensures Valid() && ok ==> Lowest(old(free), AlignOf(align0), Rounded(size), va)
      ensures Valid() && ok ==> va !in old(live) && live == old(live)[va := Rounded(size)]
      ensures !ok ==> live == old(live) && (Valid() ==> free == old(free))
    {
      hide AlignDown, AlignUp, Wrap64, Rounded, Pieces, Coalesced, Parts, Lowest, Block, HasRoom, Misfit, Found,
        AsksFor, Passes, NeedsNode, StartsAtEnd, Gaps, Taken;
      ok, va := false, 0;
      if size == 0 { return; }
      var align := if align0 < PAGE then PAGE else align0;
      var n := AlignDown(Wrap64(size + 4095), PAGE);
      RoundedIs(size);
      var i: nat;
      i, va := FirstFit(free, align, n, lo, hi);
      if i == |free| {
        NoneTaken(free, align, n);
        NotFound(free, lo, hi, align, size, n, va);
        return false, 0;
      }
      TakenOnce(free, align, n, i);
      var next := Wrap64(va + n);
      GapsAre(free[i], align, n, va, next);
      if va > free[i].start && next < End(free[i]) && !node {
        CutOff(free, live, lo, hi, i, va);
        free := free[..i] + [Range(free[i].start, va - free[i].start)] + free[i + 1..];
        return;
      }
      ok := true;
      if Misfit(free, align, size) {
        WrongBlock(free, live, lo, hi, align, size, n, i, va, Splice(free, i, Pieces(free[i], va, next)));
      } else {
        RightBlock(free, live, lo, hi, align, size, n, i, va);
      }
      free := free[..i] + Pieces(free[i], va, next) + free[i + 1..];
      live := live[va := n];
    }

    /** nv_vmm_free_va: a block given back with its length; without a node it is lost. */
    method FreeVa(va: nat, size: nat, node: bool)
      requires Valid() && (va != 0 && size > 0 ==> va in live && live[va] == Length(size))
      modifies this
      ensures Valid() <==> node || va == 0 || size == 0
      ensures live == if va == 0 || size == 0 then old(live) else old(live) - {va}
      ensures !node ==> free == old(free)
    {
      hide AlignDown, Wrap64, Coalesced, Parts;
      if va == 0 || size == 0 { return; }
      var n := AlignDown(Wrap64(size + 4095), PAGE);
      GiveClear(free, live, lo, hi, va);
      var gs := InsertFree(free, va, n, node, lo, hi);
      if node { GiveParts(free, gs, live, lo, hi, va); } else { LostBlock(free, live, lo, hi, va); }
      free := gs;
      live := live - {va};
    }
  }

  /** One call that is misled: the block ends far behind a new space of a megabyte. */
  method MisledAlloc() returns (s: VaSpace, ok: bool, va: nat)
    ensures s.lo == 0x1000 && s.hi == 0x10_1000 && ok && !s.Valid()
  {
    s := new VaSpace(0x1000, 0x10_1000, true);
    MisledFrom(s.free);
    hide Misfit, Coalesced, Parts, Rounded, Lowest, Block, HasRoom, NeedsNode, StartsAtEnd;
    ok, va := s.Alloc(U64 - 0x1000, 0, true);
  }

  lemma MisledFrom(fs: seq<Range>)
    requires fs == [Range(0x1000, 0x10_0000)]
    ensures Misfit(fs, PAGE, U64 - 0x1000)
  {
    assert Rounded(U64 - 0x1000) == U64 - 0x1000;
    hide Rounded;
    assert Fooled(fs[0], PAGE, U64 - 0x1000);
  }

  /** One call without a node: a page at a multiple of 0x4000 fails and loses the addresses behind. */
  method TornAlloc() returns (s: VaSpace, ok: bool, va: nat)
    ensures s.lo == 0x1000 && s.hi == 0x10_1000 && !ok && !s.Valid()
  {
    s := new VaSpace(0x1000, 0x10_1000, true);
    TornFrom(s.free);
    hide Misfit, Coalesced, Parts, Rounded, Lowest, Block, HasRoom, NeedsNode, StartsAtEnd, Length;
    ok, va := s.Alloc(0x1000, 0x4000, false);
  }

  lemma TornFrom(fs: seq<Range>)
    requires fs == [Range(0x1000, 0x10_0000)]
    ensures NeedsNode(fs, 0x4000, Length(0x1000)) && !StartsAtEnd(fs, 0x4000, Length(0x1000))
  {
    hide Length, AlignUp, Start64, Passes, Gaps;
    TornSizes();
    assert Taken(fs, 0x4000, 0x1000, 0);
    TakenOnce(fs, 0x4000, 0x1000, 0);
  }

  lemma TornSizes()
    ensures var r := Range(0x1000, 0x10_0000);
      Passes(r, 0x4000, 0x1000) && Gaps(r, 0x4000, 0x1000) && AlignUp(r.start, 0x4000) != End(r)
    ensures Length(0x1000) == 0x1000
  {
    hide AlignDown, AlignUp, Wrap64;
  }
}

/** The list of memory areas of a process (src/kernel/mem/vmm.c): a doubly linked list sorted by
    address, which acts as a partial map from addresses to permissions. */
module Vma {
  import opened Machine
  import L = DList

  const USER_MAX: nat := 0x0000_8000_0000_0000

  datatype Flags = Flags(read: bool, write: bool, exec: bool, user: bool, anon: bool, stack: bool)
  datatype Area = Area(start: nat, end: nat, flags: Flags)

  type Areas = map<nat, Area>

  // ---- the page range of a request, in 64-bit arithmetic

  function PageStart(start: nat): nat { AlignDown(start, PAGE) }

  function PageEnd(start: nat, size: nat): nat { AlignDown(Wrap64(start + size + 4095), PAGE) }

  /** The range is that of the pages which the request touches exactly if the sum does not wrap; if it
      does, the end is 2^64 too low. */
  lemma RangeCovers(start: nat, size: nat)
    requires start < U64 && 0 < size < U64
    ensures PageStart(start) % PAGE == 0 && PageStart(start) <= start < PageStart(start) + PAGE
    ensures PageEnd(start, size) % PAGE == 0
    ensures start + size + 4095 < U64 <==> start + size <= PageEnd(start, size) < start + size + PAGE
    ensures U64 <= start + size + 4095 < 2 * U64 ==>
      start + size <= PageEnd(start, size) + U64 < start + size + PAGE
  {
    WrapTwice(start + size + 4095);
  }

  /** The length of a munmap in whole pages, and the requests that sysMunmap passes on. */
  function WholeLength(length: nat): nat { AlignDown(Wrap64(length + 4095), PAGE) }

  /** The least number of whole pages that holds the length, unless that wraps to nothing. */
  lemma WholeIs(length: nat)
    requires length < U64
    ensures WholeLength(length) % PAGE == 0
    ensures if length + 4095 < U64 then length <= WholeLength(length) < length + PAGE else WholeLength(length) == 0
  {
    WrapTwice(length + 4095);
  }

  predicate MunmapOk(addr: nat, length: nat) {
    addr % PAGE == 0 && length != 0 && WholeLength(length) != 0 && Wrap64(addr + WholeLength(length)) <= USER_MAX
  }

  /** Its check does not see a sum that wraps: the range of such a request ends before it starts. */
  lemma MunmapRange(addr: nat, length: nat)
    requires addr < U64 && length < U64 && MunmapOk(addr, length)
    ensures var n := WholeLength(length); var lo, hi := PageStart(addr), PageEnd(addr, n);
      lo == addr && (if addr + n <= USER_MAX then hi == addr + n else addr + n >= U64 && hi == addr + n - U64 < lo)
  {
    WrapTwice(addr + WholeLength(length));
    WrapTwice(addr + WholeLength(length) + 4095);
  }

  lemma WrapTwice(x: nat)
    requires x < 2 * U64 + 4096
    ensures Wrap64(x) == if x < U64 then x else if x < 2 * U64 then x - U64 else x - 2 * U64
  {
  }

  // ---- what the list means

  ghost predicate AreaOk(a: Area) { a.start < a.end <= USER_MAX && a.start % PAGE == 0 && a.end % PAGE == 0 }

  ghost predicate Known(areas: Areas, xs: seq<nat>) { forall t :: t in xs ==> t in areas && AreaOk(areas[t]) }

  ghost predicate Before(areas: Areas, t: nat, u: nat) { t in areas && u in areas && areas[t].end <= areas[u].start }

  /** Sorted and disjoint. */
  ghost predicate Sorted(areas: Areas, xs: seq<nat>) {
    forall i, j :: 0 <= i < j < |xs| ==> Before(areas, xs[i], xs[j])
  }

  predicate In(a: Area, x: nat) { a.start <= x < a.end }

  ghost predicate Covers(areas: Areas, t: nat, x: nat) { t in areas && In(areas[t], x) }

  /** Area b is area a without the range. */
  ghost predicate Remains(a: Area, b: Area, lo: nat, hi: nat) {
    forall x: nat :: In(b, x) <==> In(a, x) && !(lo <= x < hi)
  }

  /** Address x is in one of the areas of xs, with permissions f. */
  ghost predicate Holds(areas: Areas, xs: seq<nat>, x: nat, f: Flags) {
    exists t :: t in xs && Covers(areas, t, x) && areas[t].flags == f
  }

  /** The new areas hold what the old ones hold and the range with permissions g. */
  ghost predicate Added(areas0: Areas, xs0: seq<nat>, areas: Areas, xs: seq<nat>, lo: nat, hi: nat, g: Flags) {
    forall x: nat, f :: Holds(areas, xs, x, f) <==> Holds(areas0, xs0, x, f) || (lo <= x < hi && f == g)
  }

  /** The new areas hold what the old ones hold outside the range. */
  ghost predicate Removed(areas0: Areas, xs0: seq<nat>, areas: Areas, xs: seq<nat>, lo: nat, hi: nat) {
    forall x: nat, f :: Holds(areas, xs, x, f) <==> Holds(areas0, xs0, x, f) && !(lo <= x < hi)
  }

  /** The areas form a partial map: an address has at most one set of permissions. */
  lemma HoldsOne(areas: Areas, xs: seq<nat>, x: nat, f: Flags, g: Flags)
    requires Sorted(areas, xs) && Holds(areas, xs, x, f) && Holds(areas, xs, x, g)
    ensures f == g
  {
    var t :| t in xs && Covers(areas, t, x) && areas[t].flags == f;
    var u :| u in xs && Covers(areas, u, x) && areas[u].flags == g;
    var i := L.FindIndex(xs, t);
    var j := L.FindIndex(xs, u);
    if i < j { assert Before(areas, xs[i], xs[j]); }
    if j < i { assert Before(areas, xs[j], xs[i]); }
  }

  ghost predicate Inv(areas: Areas, list: L.List, xs: seq<nat>) {
    L.Listed(list, xs) && Known(areas, xs) && Sorted(areas, xs)
  }

  /** The requested range meets an area. */
  ghost predicate Meets(a: Area, lo: nat, hi: nat) { lo < a.end && hi > a.start }

  ghost predicate Clear(areas: Areas, xs: seq<nat>, lo: nat, hi: nat) {
    forall t :: t in xs && t in areas ==> !Meets(areas[t], lo, hi)
  }

  /** Where a new area that meets none of the others belongs. */
  ghost predicate Fits(areas: Areas, xs: seq<nat>, i: nat, lo: nat) {
    && i <= |xs| && (forall j :: 0 <= j < i ==> xs[j] in areas && areas[xs[j]].start < lo)
    && (forall j :: i <= j < |xs| ==> xs[j] in areas && lo <= areas[xs[j]].start)
  }

  lemma InsertInv(areas: Areas, xs: seq<nat>, i: nat, t: nat, a: Area)
    requires Known(areas, xs) && Sorted(areas, xs) && Fits(areas, xs, i, a.start) && t !in xs && AreaOk(a)
    requires Clear(areas, xs, a.start, a.end)
    ensures var xs' := L.With(xs, i, t); Known(areas[t := a], xs') && Sorted(areas[t := a], xs')
  {
    var m, xs' := areas[t := a], L.With(xs, i, t);
    L.AtWith(xs, i, t);
    L.WithElems(xs, i, t);
    hide L.With;
    forall j, k | 0 <= j < k < |xs'| ensures Before(m, xs'[j], xs'[k]) {
      assert L.At(xs', j) == xs'[j] && L.At(xs', k) == xs'[k];
      var j0, k0 := if j < i then j else j - 1, if k < i then k else k - 1;
      if j != i && k != i {
        assert Before(areas, xs[j0], xs[k0]) && xs[j0] in xs && xs[k0] in xs;
      } else if j == i {
        assert xs[k0] in xs && !Meets(areas[xs[k0]], a.start, a.end);
      } else {
        assert xs[j0] in xs && !Meets(areas[xs[j0]], a.start, a.end);
      }
    }
  }

  lemma InsertHolds(areas: Areas, xs: seq<nat>, i: nat, t: nat, a: Area, x: nat, f: Flags)
    requires i <= |xs| && t !in xs
    ensures Holds(areas[t := a], L.With(xs, i, t), x, f) <==>
      Holds(areas, xs, x, f) || (a.start <= x < a.end && f == a.flags)
  {
    var m, xs' := areas[t := a], L.With(xs, i, t);
    L.WithElems(xs, i, t);
    hide L.With;
    if Holds(areas, xs, x, f) {
      var u :| u in xs && Covers(areas, u, x) && areas[u].flags == f;
      assert u in xs' && Covers(m, u, x) && m[u].flags == f;
    }
    if a.start <= x < a.end && f == a.flags { assert t in xs' && Covers(m, t, x); }
    if Holds(m, xs', x, f) {
      var u :| u in xs' && Covers(m, u, x) && m[u].flags == f;
      if u != t { assert u in xs && Covers(areas, u, x); }
    }
  }

  /** The areas of pieces hold what area a held outside the range. */
  ghost predicate Pieces(areas: Areas, pieces: seq<nat>, a: Area, lo: nat, hi: nat) {
    forall x: nat, f :: Holds(areas, pieces, x, f) <==> In(a, x) && a.flags == f && !(lo <= x < hi)
  }

  ghost function Spliced(xs: seq<nat>, d: nat, pieces: seq<nat>): seq<nat>
    requires d < |xs|
  {
    xs[..d] + pieces + xs[d + 1..]
  }

  lemma ShrinkInv(areas: Areas, xs: seq<nat>, d: nat, a: Area)
    requires Known(areas, xs) && Sorted(areas, xs) && d < |xs| && L.Distinct(xs) && AreaOk(a)
    requires areas[xs[d]].start <= a.start && a.end <= areas[xs[d]].end
    ensures Known(areas[xs[d] := a], xs) && Sorted(areas[xs[d] := a], xs)
  {
    var m := areas[xs[d] := a];
    forall i, j | 0 <= i < j < |xs|
      ensures Before(m, xs[i], xs[j])
    {
      assert Before(areas, xs[i], xs[j]) && xs[i] in xs && xs[j] in xs;
    }
  }

  lemma DropInv(areas: Areas, xs: seq<nat>, d: nat)
    requires Known(areas, xs) && Sorted(areas, xs) && d < |xs| && L.Distinct(xs)
    ensures Known(areas, L.Without(xs, d)) && Sorted(areas, L.Without(xs, d))
  {
    var ys := L.Without(xs, d);
    L.WithoutElems(xs, d);
    forall i, j | 0 <= i < j < |ys| ensures Before(areas, ys[i], ys[j]) {
      assert Before(areas, xs[if i < d then i else i + 1], xs[if j < d then j else j + 1]);
    }
  }

  /** Area number d is cut in two around the range. */
  lemma CutInTwo(areas: Areas, xs: seq<nat>, d: nat, lo: nat, hi: nat, right: nat)
    requires Known(areas, xs) && Sorted(areas, xs) && d < |xs| && L.Distinct(xs) && right !in xs && right != 0
    requires 0 !in xs
    requires var a := areas[xs[d]]; a.start < lo <= hi < a.end && lo % PAGE == 0 && hi % PAGE == 0
    ensures var a := areas[xs[d]];
      var m := areas[xs[d] := a.(end := lo)][right := a.(start := hi)];
      Known(m, L.With(xs, d + 1, right)) && Sorted(m, L.With(xs, d + 1, right))
  {
    var t, a := xs[d], areas[xs[d]];
    var m1 := areas[t := a.(end := lo)];
    ShrinkInv(areas, xs, d, a.(end := lo));
    forall j | 0 <= j < |xs|
      ensures xs[j] in areas && (j < d ==> areas[xs[j]].end <= a.start) && (j > d ==> a.end <= areas[xs[j]].start)
    {
      assert xs[j] in xs;
      if j < d { assert Before(areas, xs[j], xs[d]); }
      if j > d { assert Before(areas, xs[d], xs[j]); }
    }
    assert Fits(m1, xs, d + 1, hi) by { assert forall j :: 0 <= j < |xs| ==> xs[j] in xs; }
    forall u | u in xs ensures !Meets(m1[u], hi, a.end) { var j := L.FindIndex(xs, u); }
    InsertInv(m1, xs, d + 1, right, a.(start := hi));
  }

  lemma OnePiece(areas: Areas, t: nat, a: Area, lo: nat, hi: nat)
    requires t in areas && areas[t].flags == a.flags
    requires Remains(a, areas[t], lo, hi)
    ensures Pieces(areas, [t], a, lo, hi)
  {
    forall x: nat, f ensures Holds(areas, [t], x, f) <==> In(a, x) && a.flags == f && !(lo <= x < hi) {
      assert t in [t];
      assert Covers(areas, t, x) <==> In(a, x) && !(lo <= x < hi);
    }
  }

  lemma TwoPieces(areas: Areas, t: nat, u: nat, a: Area, lo: nat, hi: nat)
    requires t in areas && u in areas && areas[t] == a.(end := lo) && areas[u] == a.(start := hi)
    requires a.start < lo <= hi < a.end
    ensures Pieces(areas, [t, u], a, lo, hi)
  {
    forall x: nat, f ensures Holds(areas, [t, u], x, f) <==> In(a, x) && a.flags == f && !(lo <= x < hi) {
      assert t in [t, u] && u in [t, u];
      assert Covers(areas, t, x) || Covers(areas, u, x) <==> In(a, x) && !(lo <= x < hi);
    }
  }

  /** The first k of the old areas, without the range, are what the areas of done hold. */
  ghost predicate CutUpTo(areas0: Areas, xs0: seq<nat>, k: nat, areas: Areas, done: seq<nat>, lo: nat, hi: nat)
    requires k <= |xs0|
  {
    forall x: nat, f :: Holds(areas, done, x, f) <==> Holds(areas0, xs0[..k], x, f) && !(lo <= x < hi)
  }

  lemma HoldsJoin(areas: Areas, a: seq<nat>, b: seq<nat>, x: nat, f: Flags)
    ensures Holds(areas, a + b, x, f) <==> Holds(areas, a, x, f) || Holds(areas, b, x, f)
  {
    if Holds(areas, a, x, f) { var t :| t in a && Covers(areas, t, x) && areas[t].flags == f; assert t in a + b; }
    if Holds(areas, b, x, f) { var t :| t in b && Covers(areas, t, x) && areas[t].flags == f; assert t in a + b; }
  }

  lemma HoldsSame(areas: Areas, areas': Areas, a: seq<nat>, x: nat, f: Flags)
    requires forall t :: t in a ==> t in areas && t in areas' && areas'[t] == areas[t]
    ensures Holds(areas', a, x, f) <==> Holds(areas, a, x, f)
  {
    if Holds(areas, a, x, f) {
      var t :| t in a && Covers(areas, t, x) && areas[t].flags == f;
      assert Covers(areas', t, x);
    }
    if Holds(areas', a, x, f) {
      var t :| t in a && Covers(areas', t, x) && areas'[t].flags == f;
      assert Covers(areas, t, x);
    }
  }

  lemma CutMore(areas0: Areas, xs0: seq<nat>, k: nat, areas: Areas, done: seq<nat>, areas': Areas, pieces: seq<nat>,
                lo: nat, hi: nat)
    requires k < |xs0| && xs0[k] in areas0 && CutUpTo(areas0, xs0, k, areas, done, lo, hi)
    requires Pieces(areas', pieces, areas0[xs0[k]], lo, hi)
    requires forall t :: t in done ==> t in areas && t in areas' && areas'[t] == areas[t]
    ensures CutUpTo(areas0, xs0, k + 1, areas', done + pieces, lo, hi)
  {
    var t, a := xs0[k], areas0[xs0[k]];
    assert xs0[..k + 1] == xs0[..k] + [t];
    OnePiece(areas0, t, a, 0, 0);
    forall x: nat, f
      ensures Holds(areas', done + pieces, x, f) <==> Holds(areas0, xs0[..k + 1], x, f) && !(lo <= x < hi)
    {
      HoldsJoin(areas', done, pieces, x, f);
      HoldsJoin(areas0, xs0[..k], [t], x, f);
      HoldsSame(areas, areas', done, x, f);
    }
  }

  lemma InsertAdded(areas: Areas, xs: seq<nat>, i: nat, t: nat, a: Area)
    requires i <= |xs| && t !in xs
    ensures Added(areas, xs, areas[t := a], L.With(xs, i, t), a.start, a.end, a.flags)
  {
    hide Holds, L.With;
    var m: Areas, ys := areas[t := a], L.With(xs, i, t);
    forall x: nat, f: Flags
      ensures Holds(m, ys, x, f) <==> Holds(areas, xs, x, f) || (a.start <= x < a.end && f == a.flags)
    {
      InsertHolds(areas, xs, i, t, a, x, f);
    }
    assert Added(areas, xs, m, ys, a.start, a.end, a.flags);
  }

  /** Address x is in a user area with the right to write, or to read if that is all that is asked for. */
  ghost predicate Allowed(areas: Areas, xs: seq<nat>, x: nat, write: bool) {
    exists t ::
      && t in xs && Covers(areas, t, x)
      && areas[t].flags.user && (if write then areas[t].flags.write else areas[t].flags.read)
  }

  ghost predicate Allows(f: Flags, write: bool) { f.user && (if write then f.write else f.read) }

  /** Every address of the range is in an area with the permissions. */
  ghost predicate AllAllowed(areas: Areas, xs: seq<nat>, lo: nat, hi: nat, write: bool) {
    forall x: nat :: lo <= x < hi ==> Allowed(areas, xs, x, write)
  }

  lemma AllowStep(areas: Areas, list: L.List, xs: seq<nat>, lo: nat, x: nat, hi: nat, t: nat, write: bool)
    requires Inv(areas, list, xs) && lo <= x < hi && AllAllowed(areas, xs, lo, x, write)
    requires if t != 0 then t in xs && Covers(areas, t, x) else forall u :: u in xs ==> !Covers(areas, u, x)
    ensures t == 0 || !Allows(areas[t].flags, write) ==> !AllAllowed(areas, xs, lo, hi, write)
    ensures t != 0 && Allows(areas[t].flags, write) ==>
      x < areas[t].end && AllAllowed(areas, xs, lo, areas[t].end, write)
  {
    if t == 0 || !Allows(areas[t].flags, write) {
      if Allowed(areas, xs, x, write) {
        var u :| u in xs && Covers(areas, u, x) && Allows(areas[u].flags, write);
        HoldsOne(areas, xs, x, areas[u].flags, areas[t].flags);
      }
    } else {
      forall y: nat | lo <= y < areas[t].end ensures Allowed(areas, xs, y, write) {
        if y >= x { assert Covers(areas, t, y); }
      }
    }
  }

  // ---- taking a range away

  /** Area a reaches across the range on both sides. */
  ghost predicate Spans(a: Area, lo: nat, hi: nat) { Meets(a, lo, hi) && a.start < lo && hi < a.end }

  /** No area meets a range that ends before it starts. */
  ghost predicate Straight(areas: Areas, xs: seq<nat>, lo: nat, hi: nat) {
    lo <= hi || forall t :: t in xs && t in areas ==> !Meets(areas[t], lo, hi)
  }

  /** Where the part taken from an area ends: if there is no memory for the second half of an area
      that is cut in two, that half is lost as well. */
  ghost function CutOf(a: Area, lo: nat, hi: nat, right: nat): nat {
    if right == 0 && Spans(a, lo, hi) then a.end else hi
  }

  ghost function Reach(areas: Areas, xs: seq<nat>, lo: nat, hi: nat, right: nat): nat {
    if k :| 0 <= k < |xs| && right == 0 && xs[k] in areas && Spans(areas[xs[k]], lo, hi) then areas[xs[k]].end else hi
  }

  /** The second half of area a is put behind the first and starts before it ends. */
  ghost predicate Bends(a: Area, lo: nat, hi: nat, right: nat) { Meets(a, lo, hi) && hi < lo && right != 0 }

  ghost predicate Bent(areas0: Areas, list0: L.List, xs0: seq<nat>, d: nat, areas: Areas, list: L.List, xs: seq<nat>,
                       right: nat, lo: nat, hi: nat) {
    && d < |xs0| && xs0[d] in areas0 && list == L.InsertAfter(list0, xs0[d], right) && xs == L.With(xs0, d + 1, right)
    && var a := areas0[xs0[d]]; areas == areas0[xs0[d] := a.(end := lo)][right := a.(start := hi)]
  }

  ghost predicate BothCover(areas: Areas, t: nat, u: nat, lo: nat, hi: nat) {
    forall x: nat :: hi <= x < lo ==> Covers(areas, t, x) && Covers(areas, u, x)
  }

  /** Then no order of the areas is sorted and disjoint: the addresses from hi to lo are in two of them. */
  lemma BentOverlaps(areas0: Areas, list0: L.List, xs0: seq<nat>, d: nat, areas: Areas, list: L.List, xs: seq<nat>,
                     right: nat, lo: nat, hi: nat)
    requires Inv(areas0, list0, xs0) && right !in xs0 && Bent(areas0, list0, xs0, d, areas, list, xs, right, lo, hi)
    requires Bends(areas0[xs0[d]], lo, hi, right)
    ensures L.Listed(list, xs) && forall ys :: !Inv(areas, list, ys)
    ensures xs0[d] in xs && right in xs && xs0[d] != right
    ensures BothCover(areas, xs0[d], right, lo, hi)
  {
    assert xs0[d] in xs0;
    L.InsertAfterLists(list0, xs0, d, right);
    assert xs[d] == xs0[d] && xs[d + 1] == right && !Before(areas, xs[d], xs[d + 1]);
    forall ys ensures !Inv(areas, list, ys) {
      if L.Listed(list, ys) { L.ListedOnce(list, xs, ys); }
    }
  }

  /** What the loop body of vmaDestroy does to the area at position d. */
  ghost predicate Trimmed(areas0: Areas, list0: L.List, xs0: seq<nat>, d: nat, areas: Areas, list: L.List, xs: seq<nat>,
                          pieces: seq<nat>, right: nat, lo: nat, hi: nat) {
    && d < |xs0| && xs0[d] in areas0
    && (!Meets(areas0[xs0[d]], lo, hi) ==> areas == areas0 && list == list0 && xs == xs0)
    && (Bends(areas0[xs0[d]], lo, hi, right) ==> Bent(areas0, list0, xs0, d, areas, list, xs, right, lo, hi))
    && (Inv(areas0, list0, xs0) && !Bends(areas0[xs0[d]], lo, hi, right) ==>
          Cleanly(areas0, xs0, d, areas, list, xs, pieces, right, lo, hi))
  }

  ghost predicate Cleanly(areas0: Areas, xs0: seq<nat>, d: nat, areas: Areas, list: L.List, xs: seq<nat>,
                          pieces: seq<nat>, right: nat, lo: nat, hi: nat)
    requires d < |xs0| && xs0[d] in areas0
  {
    var t, a := xs0[d], areas0[xs0[d]];
    && Inv(areas, list, xs) && xs == Spliced(xs0, d, pieces) && Pieces(areas, pieces, a, lo, CutOf(a, lo, hi, right))
    && (forall u :: u in xs0 && u != t ==> u in areas0 && u in areas && areas[u] == areas0[u])
    && (forall u :: u in pieces ==> u == t || (u == right && right != 0 && Spans(a, lo, hi)))
  }

  /** Two areas that span the range are the same, and no other area meets it. */
  lemma SpansOnce(areas: Areas, xs: seq<nat>, i: nat, j: nat, lo: nat, hi: nat)
    requires Known(areas, xs) && Sorted(areas, xs) && i < |xs| && j < |xs| && xs[i] in areas && xs[j] in areas
    requires Spans(areas[xs[i]], lo, hi) && i != j
    ensures !Meets(areas[xs[j]], lo, hi) && !Meets(areas[xs[j]], lo, areas[xs[i]].end)
  {
    assert xs[i] in xs && xs[j] in xs;
    if i < j { assert Before(areas, xs[i], xs[j]); } else { assert Before(areas, xs[j], xs[i]); }
  }

  /** Area number k loses the same addresses to its own cut as to the whole range. */
  lemma CutIsReach(areas: Areas, xs: seq<nat>, k: nat, lo: nat, hi: nat, right: nat, x: nat)
    requires Known(areas, xs) && Sorted(areas, xs) && k < |xs| && xs[k] in areas && In(areas[xs[k]], x)
    ensures lo <= x < CutOf(areas[xs[k]], lo, hi, right) <==> lo <= x < Reach(areas, xs, lo, hi, right)
  {
    var reach := Reach(areas, xs, lo, hi, right);
    if j: nat :| j < |xs| && right == 0 && xs[j] in areas && Spans(areas[xs[j]], lo, hi) && areas[xs[j]].end == reach {
      if j != k { SpansOnce(areas, xs, j, k, lo, hi); }
    }
  }

  lemma PiecesReach(areas0: Areas, xs0: seq<nat>, k: nat, areas: Areas, pieces: seq<nat>, lo: nat, hi: nat, right: nat)
    requires Known(areas0, xs0) && Sorted(areas0, xs0) && k < |xs0| && xs0[k] in areas0
    requires Pieces(areas, pieces, areas0[xs0[k]], lo, CutOf(areas0[xs0[k]], lo, hi, right))
    ensures Pieces(areas, pieces, areas0[xs0[k]], lo, Reach(areas0, xs0, lo, hi, right))
  {
    hide Holds, CutOf, Reach, In, Spans;
    var a := areas0[xs0[k]];
    forall x: nat, f
      ensures Holds(areas, pieces, x, f) <==> In(a, x) && a.flags == f && !(lo <= x < Reach(areas0, xs0, lo, hi, right))
    {
      if In(a, x) { CutIsReach(areas0, xs0, k, lo, hi, right, x); }
    }
  }

  /** vmaDestroy has dealt with the first k areas; done are the areas that came of them. */
  ghost predicate Sweeping(areas0: Areas, xs0: seq<nat>, k: nat, areas: Areas, list: L.List, xs: seq<nat>,
                           done: seq<nat>, right: nat, lo: nat, hi: nat) {
    && k <= |xs0| && Inv(areas, list, xs) && xs == done + xs0[k..] && Known(areas0, xs0) && Sorted(areas0, xs0)
    && L.Distinct(xs0) && 0 !in xs0
    && CutUpTo(areas0, xs0, k, areas, done, lo, Reach(areas0, xs0, lo, hi, right))
    && (Straight(areas0, xs0, lo, hi) || right == 0)
    && (forall j :: k <= j < |xs0| ==> xs0[j] in areas && areas[xs0[j]] == areas0[xs0[j]])
    && right !in xs0 && (right != 0 && right in done ==> forall j :: k <= j < |xs0| ==> !Meets(areas0[xs0[j]], lo, hi))
  }

  /** The same if area number b bends: it is the only one that changes. */
  ghost predicate Bending(areas0: Areas, list0: L.List, xs0: seq<nat>, k: nat, b: nat, areas: Areas, list: L.List,
                          xs: seq<nat>, right: nat, lo: nat, hi: nat) {
    && k <= |xs0| && Inv(areas0, list0, xs0) && right !in xs0 && b < |xs0| && Bends(areas0[xs0[b]], lo, hi, right)
    && if k <= b then areas == areas0 && list == list0 && xs == xs0
       else Bent(areas0, list0, xs0, b, areas, list, xs, right, lo, hi)
  }

  ghost predicate Walking(areas0: Areas, list0: L.List, xs0: seq<nat>, k: nat, b: nat, areas: Areas, list: L.List,
                          xs: seq<nat>,
                          done: seq<nat>, right: nat, lo: nat, hi: nat) {
    if Straight(areas0, xs0, lo, hi) || right == 0 then Sweeping(areas0, xs0, k, areas, list, xs, done, right, lo, hi)
    else Bending(areas0, list0, xs0, k, b, areas, list, xs, right, lo, hi)
  }

  /** The position of the k-th of the old areas now. */
  ghost function Now(areas0: Areas, xs0: seq<nat>, k: nat, b: nat, done: seq<nat>, right: nat, lo: nat, hi: nat): nat {
    if Straight(areas0, xs0, lo, hi) || right == 0 then |done| else if k <= b then k else k + 1
  }

  lemma WalkStart(areas: Areas, list: L.List, xs: seq<nat>, right: nat, lo: nat, hi: nat) returns (b: nat)
    requires Inv(areas, list, xs) && right !in xs
    ensures Walking(areas, list, xs, 0, b, areas, list, xs, [], right, lo, hi) && list.head == L.At(xs, 0)
  {
    hide Reach, Sweeping;
    b := 0;
    if Straight(areas, xs, lo, hi) || right == 0 {
      SweepStart(areas, list, xs, right, lo, hi);
    } else {
      var t :| t in xs && t in areas && Meets(areas[t], lo, hi);
      b := L.FindIndex(xs, t);
    }
  }

  lemma SweepStart(areas: Areas, list: L.List, xs: seq<nat>, right: nat, lo: nat, hi: nat)
    requires Inv(areas, list, xs) && right !in xs && (Straight(areas, xs, lo, hi) || right == 0)
    ensures Sweeping(areas, xs, 0, areas, list, xs, [], right, lo, hi)
  {
    hide Reach, Straight;
    assert [] + xs[0..] == xs && xs[..0] == [];
    assert CutUpTo(areas, xs, 0, areas, [], lo, Reach(areas, xs, lo, hi, right));
    hide CutUpTo, L.Listed, Sorted;
    assert forall j :: 0 <= j < |xs| ==> xs[j] in xs;
  }

  lemma InSweep(areas0: Areas, xs0: seq<nat>, k: nat, areas: Areas, list: L.List, xs: seq<nat>, done: seq<nat>,
                right: nat, lo: nat, hi: nat)
    requires Sweeping(areas0, xs0, k, areas, list, xs, done, right, lo, hi) && k < |xs0|
    ensures var t := xs0[k];
      && |done| < |xs| && xs[|done|] == t && t in areas && areas[t] == areas0[t] && Inv(areas, list, xs)
      && L.Get(list.links, t).next == L.At(xs0, k + 1) && (Meets(areas[t], lo, hi) ==> lo <= hi || right == 0)
      && (Meets(areas[t], lo, hi) ==> right !in xs)
  {
    var d := |done|;
    hide Reach, CutUpTo;
    assert xs[d] == xs0[k] && L.At(xs, d + 1) == L.At(xs0, k + 1);
    assert L.Get(list.links, xs[d]) == L.Link(L.At(xs, d + 1), L.At(xs, d - 1));
    assert xs0[k] in xs0;
  }

  lemma InBending(areas0: Areas, list0: L.List, xs0: seq<nat>, k: nat, b: nat, areas: Areas, list: L.List, xs: seq<nat>,
                  right: nat, lo: nat, hi: nat)
    requires Bending(areas0, list0, xs0, k, b, areas, list, xs, right, lo, hi) && k < |xs0|
    ensures var t, d := xs0[k], if k <= b then k else k + 1;
      && d < |xs| && xs[d] == t && t in areas && areas[t] == areas0[t] && L.Get(list.links, t).next == L.At(xs0, k + 1)
      && (k == b || !Meets(areas[t], lo, hi)) && (k <= b ==> Inv(areas, list, xs) && right !in xs)
  {
    assert xs0[k] in xs0 && xs0[b] in xs0;
    if k != b { SpansOnce(areas0, xs0, b, k, lo, hi); }
    var d := if k <= b then k else k + 1;
    if k > b {
      BentOverlaps(areas0, list0, xs0, b, areas, list, xs, right, lo, hi);
      L.AtWith(xs0, b + 1, right);
      assert L.At(xs, k + 1) == xs0[k] && L.At(xs, k + 2) == L.At(xs0, k + 1);
      assert xs0[k] != xs0[b];
    }
    assert L.Get(list.links, xs[d]) == L.Link(L.At(xs, d + 1), L.At(xs, d - 1));
  }

  lemma InWalk(areas0: Areas, list0: L.List, xs0: seq<nat>, k: nat, b: nat, areas: Areas, list: L.List, xs: seq<nat>,
               done: seq<nat>, right: nat, lo: nat, hi: nat)
    requires Walking(areas0, list0, xs0, k, b, areas, list, xs, done, right, lo, hi) && k < |xs0|
    ensures var t, d := xs0[k], Now(areas0, xs0, k, b, done, right, lo, hi);
      && d < |xs| && xs[d] == t && t in areas && L.Get(list.links, t).next == L.At(xs0, k + 1)
      && (Inv(areas, list, xs) || !Meets(areas[t], lo, hi)) && (Meets(areas[t], lo, hi) ==> right !in xs)
  {
    if Straight(areas0, xs0, lo, hi) || right == 0 {
      InSweep(areas0, xs0, k, areas, list, xs, done, right, lo, hi);
    } else {
      InBending(areas0, list0, xs0, k, b, areas, list, xs, right, lo, hi);
    }
    hide Inv, Sweeping, Bending, Meets;
  }

  lemma SweepOn(areas0: Areas, xs0: seq<nat>, k: nat, areas1: Areas, list1: L.List, xs1: seq<nat>, areas: Areas,
                list: L.List, xs: seq<nat>,
                done: seq<nat>, pieces: seq<nat>, right: nat, lo: nat, hi: nat)
    requires Sweeping(areas0, xs0, k, areas1, list1, xs1, done, right, lo, hi) && k < |xs0| && |done| < |xs1|
    requires xs1[|done|] in areas1
    requires Cleanly(areas1, xs1, |done|, areas, list, xs, pieces, right, lo, hi)
    ensures Sweeping(areas0, xs0, k + 1, areas, list, xs, done + pieces, right, lo, hi)
  {
    var t := xs0[k];
    hide Reach, CutOf;
    assert xs1[..|done|] == done && xs1[|done| + 1..] == xs0[k + 1..];
    assert xs == done + pieces + xs0[k + 1..];
    assert L.Distinct(xs1) && xs1[|done|] == t;
    forall u | u in done ensures u != t && u in xs1 { var i := L.FindIndex(done, u); assert xs1[i] == u; }
    forall j | k + 1 <= j < |xs0| ensures xs0[j] in areas && areas[xs0[j]] == areas0[xs0[j]] && xs0[j] != t {
      assert xs1[|done| + j - k] == xs0[j] && xs0[j] in xs1;
    }
    PiecesReach(areas0, xs0, k, areas, pieces, lo, hi, right);
    CutMore(areas0, xs0, k, areas1, done, areas, pieces, lo, Reach(areas0, xs0, lo, hi, right));
    if right in pieces && right != 0 {
      forall j | k + 1 <= j < |xs0| ensures !Meets(areas0[xs0[j]], lo, hi) { SpansOnce(areas0, xs0, k, j, lo, hi); }
    }
    hide CutUpTo, Pieces, Sorted, L.Listed;
  }

  lemma WalkOn(areas0: Areas, list0: L.List, xs0: seq<nat>, k: nat, b: nat, areas1: Areas, list1: L.List, xs1: seq<nat>,
               areas: Areas, list: L.List, xs: seq<nat>, done: seq<nat>, pieces: seq<nat>, right: nat, lo: nat, hi: nat)
    requires Walking(areas0, list0, xs0, k, b, areas1, list1, xs1, done, right, lo, hi) && k < |xs0|
    requires Trimmed(areas1, list1, xs1, Now(areas0, xs0, k, b, done, right, lo, hi),
                     areas, list, xs, pieces, right, lo, hi)
    ensures Walking(areas0, list0, xs0, k + 1, b, areas, list, xs, done + pieces, right, lo, hi)
  {
    hide Inv, Cleanly, Bent, CutOf, Reach;
    if Straight(areas0, xs0, lo, hi) || right == 0 {
      InSweep(areas0, xs0, k, areas1, list1, xs1, done, right, lo, hi);
      hide Sweeping;
      SweepOn(areas0, xs0, k, areas1, list1, xs1, areas, list, xs, done, pieces, right, lo, hi);
    } else {
      InBending(areas0, list0, xs0, k, b, areas1, list1, xs1, right, lo, hi);
    }
  }

  lemma WalkEnd(areas0: Areas, list0: L.List, xs0: seq<nat>, k: nat, b: nat, areas: Areas, list: L.List, xs: seq<nat>,
                done: seq<nat>, right: nat, lo: nat, hi: nat)
    requires Walking(areas0, list0, xs0, k, b, areas, list, xs, done, right, lo, hi) && k <= |xs0| && L.At(xs0, k) == 0
    ensures Straight(areas0, xs0, lo, hi) || right == 0 ==>
      Inv(areas, list, xs) && Removed(areas0, xs0, areas, xs, lo, Reach(areas0, xs0, lo, hi, right))
    ensures !Straight(areas0, xs0, lo, hi) && right != 0 ==> Overlapping(areas, list, xs, lo, hi)
  {
    hide Reach;
    if Straight(areas0, xs0, lo, hi) || right == 0 {
      assert k == |xs0|;
      assert xs0[..k] == xs0 && xs == done;
    } else {
      L.AtMember(xs0, k);
      BentOverlaps(areas0, list0, xs0, b, areas, list, xs, right, lo, hi);
    }
  }

  /** The addresses from hi to lo are in two areas of the list, and no view of it is sorted. */
  ghost predicate Overlapping(areas: Areas, list: L.List, xs: seq<nat>, lo: nat, hi: nat) {
    && L.Listed(list, xs) && (forall ys :: !Inv(areas, list, ys))
    && exists t, u :: t in xs && u in xs && t != u && BothCover(areas, t, u, lo, hi)
  }

  lemma RemoveWhole(areas: Areas, list: L.List, xs: seq<nat>, d: nat, lo: nat, hi: nat, right: nat)
    requires Inv(areas, list, xs) && d < |xs| && lo <= areas[xs[d]].start && areas[xs[d]].end <= hi
    ensures Cleanly(areas, xs, d, areas - {xs[d]}, L.Remove(list, xs[d]), L.Without(xs, d), [], right, lo, hi)
  {
    L.RemoveLists(list, xs, d);
    DropInv(areas, xs, d);
    L.WithoutElems(xs, d);
    var ys := L.Without(xs, d);
    hide L.Listed, L.Remove, L.Without;
    forall i, j | 0 <= i < j < |ys| ensures Before(areas - {xs[d]}, ys[i], ys[j]) {
      assert Before(areas, ys[i], ys[j]) && ys[i] in ys && ys[j] in ys;
    }
    assert L.Without(xs, d) == Spliced(xs, d, []) by { NoPieces(xs, d); }
  }

  lemma NoPieces(xs: seq<nat>, d: nat)
    requires d < |xs|
    ensures L.Without(xs, d) == Spliced(xs, d, [])
  {
  }

  lemma SplitWhole(areas: Areas, list: L.List, xs: seq<nat>, d: nat, lo: nat, hi: nat, right: nat)
    requires Inv(areas, list, xs) && d < |xs| && right != 0 && right !in xs && lo % PAGE == 0 && hi % PAGE == 0
    requires areas[xs[d]].start < lo <= hi < areas[xs[d]].end
    ensures var a := areas[xs[d]]; var m := areas[xs[d] := a.(end := lo)][right := a.(start := hi)];
      Cleanly(areas, xs, d, m, L.InsertAfter(list, xs[d], right), L.With(xs, d + 1, right), [xs[d], right], right, lo,
        hi)
  {
    var a := areas[xs[d]];
    assert xs[d] in xs;
    hide L.Listed, L.InsertAfter, Pieces, Sorted;
    L.InsertAfterLists(list, xs, d, right);
    CutInTwo(areas, xs, d, lo, hi, right);
    TwoPieces(areas[xs[d] := a.(end := lo)][right := a.(start := hi)], xs[d], right, a, lo, hi);
    assert L.With(xs, d + 1, right) == Spliced(xs, d, [xs[d], right]);
    hide L.With, Spliced, Known;
  }

  lemma TrimWhole(areas: Areas, list: L.List, xs: seq<nat>, d: nat, b: Area, lo: nat, hi: nat, right: nat)
    requires Inv(areas, list, xs) && d < |xs| && AreaOk(b) && areas[xs[d]].start <= b.start && b.end <= areas[xs[d]].end
    requires b.flags == areas[xs[d]].flags && Remains(areas[xs[d]], b, lo, CutOf(areas[xs[d]], lo, hi, right))
    ensures Cleanly(areas, xs, d, areas[xs[d] := b], list, xs, [xs[d]], right, lo, hi)
  {
    ShrinkInv(areas, xs, d, b);
    OnePiece(areas[xs[d] := b], xs[d], areas[xs[d]], lo, CutOf(areas[xs[d]], lo, hi, right));
    assert xs == Spliced(xs, d, [xs[d]]);
    hide L.Listed, Pieces, Sorted, CutOf, Remains;
  }

  lemma RangeAligned(start: nat, size: nat)
    ensures PageStart(start) % PAGE == 0 && PageEnd(start, size) % PAGE == 0
  {
  }

  lemma ClearStart(areas: Areas, xs: seq<nat>, lo: nat, hi: nat)
    requires Known(areas, xs) && Clear(areas, xs, lo, hi) && lo < hi
    ensures forall t :: t in xs ==> areas[t].start != lo
  {
  }

  lemma LinkIn(list: L.List, xs: seq<nat>, i: nat, t: nat)
    requires L.Listed(list, xs) && i <= |xs| && t != 0 && t !in xs
    ensures var it := L.At(xs, i - 1);
      L.Listed(if it == 0 then L.PushFront(list, t) else L.InsertAfter(list, it, t), L.With(xs, i, t))
  {
    if i == 0 {
      L.PushFrontLists(list, xs, t);
      assert L.With(xs, 0, t) == [t] + xs;
    } else {
      L.InsertAfterLists(list, xs, i - 1, t);
    }
  }

  lemma NoView(areas: Areas, list: L.List, xs: seq<nat>, lo: nat, hi: nat)
    ensures Overlapping(areas, list, xs, lo, hi) ==> !Inv(areas, list, xs)
  {
  }

  lemma AtIs(xs: seq<nat>, k: nat)
    requires k <= |xs| && L.At(xs, k) != 0
    ensures k < |xs| && xs[k] == L.At(xs, k)
  {
  }

  class Process {
    var areas: Areas
    var list: L.List
    ghost var xs: seq<nat>

    ghost predicate Valid()
      reads this
    {
      Inv(areas, list, xs)
    }

    constructor ()
      ensures Valid() && xs == []
    {
      areas, list, xs := map[], L.List(map[], 0), [];
    }

    /** The overlap check of vmaCreate. */
    method Overlaps(lo: nat, hi: nat) returns (hit: bool)
      requires Valid()
      ensures hit <==> !Clear(areas, xs, lo, hi)
    {
      var t := list.head;
      ghost var k := 0;
      while t != 0
        invariant 0 <= k <= |xs| && t == L.At(xs, k)
        invariant forall i :: 0 <= i < k ==> !Meets(areas[xs[i]], lo, hi)
        decreases |xs| - k
      {
        assert xs[k] in xs;
        if lo < areas[t].end && hi > areas[t].start { return true; }
        assert L.Get(list.links, xs[k]) == L.Link(L.At(xs, k + 1), L.At(xs, k - 1));
        t := L.Get(list.links, t).next;
        k := k + 1;
      }
      forall u | u in xs ensures !Meets(areas[u], lo, hi) { var i := L.FindIndex(xs, u); }
      hit := false;
    }

    /** vmaFind: the area that holds x, or NULL. */
    method Find(x: nat) returns (t: nat)
      requires Valid()
      ensures if t != 0 then t in xs && Covers(areas, t, x) else forall u :: u in xs ==> !Covers(areas, u, x)
    {
      t := list.head;
      ghost var k := 0;
      while t != 0
        invariant 0 <= k <= |xs| && t == L.At(xs, k)
        invariant forall i :: 0 <= i < k ==> !Covers(areas, xs[i], x)
        decreases |xs| - k
      {
        assert xs[k] in xs;
        if In(areas[t], x) { return; }
        assert L.Get(list.links, xs[k]) == L.Link(L.At(xs, k + 1), L.At(xs, k - 1));
        t := L.Get(list.links, t).next;
        k := k + 1;
      }
      forall u | u in xs ensures !Covers(areas, u, x) { var i := L.FindIndex(xs, u); }
    }

    /** The search for the place of a new area: its index, and the record it goes behind. */
    method FindPlace(lo: nat) returns (it: nat, ghost i: nat)
      requires Valid() && forall t :: t in xs ==> areas[t].start != lo
      ensures Fits(areas, xs, i, lo) && it == L.At(xs, i - 1)
    {
      it, i := list.head, 0;
      assert xs != [] ==> xs[0] in xs;
      if it == 0 || lo < areas[it].start {
        assert forall j :: 0 <= j < |xs| ==> j == 0 || Before(areas, xs[0], xs[j]);
        assert forall j :: 0 <= j < |xs| ==> xs[j] in xs;
        it := 0;
        return;
      }
      i := 1;
      assert L.Get(list.links, xs[0]) == L.Link(L.At(xs, 1), L.At(xs, -1));
      var next := L.Get(list.links, it).next;
      while next != 0 && areas[next].start < lo
        invariant 1 <= i <= |xs| && it == xs[i - 1] && next == L.At(xs, i)
        invariant next != 0 ==> next in areas
        invariant forall j :: 0 <= j < i ==> xs[j] in areas && areas[xs[j]].start < lo
        decreases |xs| - i
      {
        it, i := next, i + 1;
        assert L.Get(list.links, xs[i - 1]) == L.Link(L.At(xs, i), L.At(xs, i - 2));
        next := L.Get(list.links, it).next;
        assert i < |xs| ==> xs[i] in xs;
      }
      forall j | i <= j < |xs| ensures xs[j] in areas && lo <= areas[xs[j]].start {
        assert xs[j] in xs && xs[i] in xs && (i < j ==> Before(areas, xs[i], xs[j]));
      }
    }

    /** vmaCreate; mem is what kmalloc returns. */
    method Create(start: nat, size: nat, flags: Flags, mem: nat) returns (t: nat)
      requires Valid() && mem !in xs
      modifies this
      ensures Valid()
      ensures t == 0 <==> size == 0 || PageEnd(start, size) <= PageStart(start) || PageEnd(start, size) > USER_MAX
                          || !Clear(old(areas), old(xs), PageStart(start), PageEnd(start, size)) || mem == 0
      ensures t == 0 ==> areas == old(areas) && list == old(list) && xs == old(xs)
      ensures t != 0 ==> t == mem && areas == old(areas)[t := Area(PageStart(start), PageEnd(start, size), flags)]
      ensures t != 0 ==> forall u :: u in xs <==> u == t || u in old(xs)
      ensures t != 0 ==> Added(old(areas), old(xs), areas, xs, PageStart(start), PageEnd(start, size), flags)
    {
      hide PageStart, PageEnd, Added, L.PushFront, L.InsertAfter, L.With;
      if size == 0 { return 0; }
      var lo, hi := PageStart(start), PageEnd(start, size);
      if lo >= hi || hi > USER_MAX { return 0; }
      var hit := Overlaps(lo, hi);
      if hit || mem == 0 { return 0; }
      RangeAligned(start, size);
      ClearStart(areas, xs, lo, hi);
      var it: nat;
      ghost var i: nat;
      it, i := FindPlace(lo);
      LinkIn(list, xs, i, mem);
      InsertInv(areas, xs, i, mem, Area(lo, hi, flags));
      InsertAdded(areas, xs, i, mem, Area(lo, hi, flags));
      L.WithElems(xs, i, mem);
      t := mem;
      areas := areas[t := Area(lo, hi, flags)];
      list := if it == 0 then L.PushFront(list, t) else L.InsertAfter(list, it, t);
      xs := L.With(xs, i, t);
    }

    /** The body of the loop of vmaDestroy; right is what kmalloc returns for the second half. */
    method Trim(t: nat, ghost d: nat, lo: nat, hi: nat, right: nat) returns (ghost pieces: seq<nat>)
      requires d < |xs| && xs[d] == t && t in areas && lo % PAGE == 0 && hi % PAGE == 0
      requires Meets(areas[t], lo, hi) ==> Valid() && right !in xs
      modifies this
      ensures Trimmed(old(areas), old(list), old(xs), d, areas, list, xs, pieces, right, lo, hi)
      ensures old(Valid()) ==> (Valid() <==> !Bends(old(areas)[t], lo, hi, right))
    {
      ghost var areas0, list0, xs0 := areas, list, xs;
      var a := areas[t];
      hide Holds, L.Remove, L.InsertAfter, L.With, L.Without, L.Listed, Sorted, Pieces, Spliced;
      pieces := [t];
      if a.end > lo && a.start < hi {
        assert t in xs;
        if a.start >= lo && a.end <= hi {
          pieces := [];
          RemoveWhole(areas, list, xs, d, lo, hi, right);
          list := L.Remove(list, t);
          xs := L.Without(xs, d);
          areas := areas - {t};
        } else if a.start < lo && a.end > hi {
          if right != 0 {
            pieces := [t, right];
            if lo <= hi { SplitWhole(areas, list, xs, d, lo, hi, right); }
            areas := areas[t := a.(end := lo)][right := a.(start := hi)];
            list := L.InsertAfter(list, t, right);
            xs := L.With(xs, d + 1, right);
            if hi < lo { BentOverlaps(areas0, list0, xs0, d, areas, list, xs, right, lo, hi); }
          } else {
            TrimWhole(areas, list, xs, d, a.(end := lo), lo, hi, right);
            areas := areas[t := a.(end := lo)];
          }
        } else {
          var b := if a.start < lo then a.(end := lo) else a.(start := hi);
          TrimWhole(areas, list, xs, d, b, lo, hi, right);
          areas := areas[t := b];
        }
      } else if Valid() {
        TrimWhole(areas, list, xs, d, a, lo, hi, right);
        assert areas[t := a] == areas;
      }
    }

    /** vmaDestroy; right is what kmalloc returns if an area has to be cut in two, and may be NULL. */
    method Destroy(start: nat, size: nat, right: nat) returns (r: int)
      requires Valid() && right !in xs
      modifies this
      ensures r == (if size == 0 then -1 else 0)
      ensures size == 0 ==> areas == old(areas) && list == old(list) && xs == old(xs)
      ensures size > 0 ==> var lo, hi := PageStart(start), PageEnd(start, size);
        && (Valid() <==> Straight(old(areas), old(xs), lo, hi) || right == 0)
        && (Valid() ==> Removed(old(areas), old(xs), areas, xs, lo, Reach(old(areas), old(xs), lo, hi, right)))
        && (!Valid() ==> Overlapping(areas, list, xs, lo, hi))
    {
      if size == 0 { return -1; }
      var lo, hi := PageStart(start), PageEnd(start, size);
      RangeAligned(start, size);
      ghost var areas0, list0, xs0, done, k := areas, list, xs, [], 0;
      ghost var b := WalkStart(areas, list, xs, right, lo, hi);
      NoView(areas, list, xs, lo, hi);
      hide *;
      var t := list.head;
      while t != 0
        invariant k <= |xs0| && t == L.At(xs0, k)
        invariant Walking(areas0, list0, xs0, k, b, areas, list, xs, done, right, lo, hi)
        decreases |xs0| - k
      {
        ghost var areas1, list1, xs1, d := areas, list, xs, Now(areas0, xs0, k, b, done, right, lo, hi);
        AtIs(xs0, k);
        InWalk(areas0, list0, xs0, k, b, areas, list, xs, done, right, lo, hi);
        var next := L.Get(list.links, t).next;
        ghost var pieces := Trim(t, d, lo, hi, right);
        WalkOn(areas0, list0, xs0, k, b, areas1, list1, xs1, areas, list, xs, done, pieces, right, lo, hi);
        done, k, t := done + pieces, k + 1, next;
      }
      WalkEnd(areas0, list0, xs0, k, b, areas, list, xs, done, right, lo, hi);
      NoView(areas, list, xs, lo, hi);
      r := 0;
    }

    /** sysMunmap. A request that does not wrap takes exactly its pages away; one that wraps, and is
        let through, keeps the list sorted exactly if no area reaches across. */
    method Munmap(addr: nat, length: nat, right: nat) returns (ok: bool)
      requires Valid() && right !in xs && addr < U64 && length < U64
      modifies this
      ensures ok <==>
        && addr % 4096 == 0 && length != 0 && WholeLength(length) != 0
        && (addr + WholeLength(length)) % 0x1_0000_0000_0000_0000 <= 0x8000_0000_0000
      ensures !ok ==> areas == old(areas) && list == old(list) && xs == old(xs)
      ensures ok ==> var lo, hi := addr, Wrap64(addr + WholeLength(length));
        && (Valid() <==> Straight(old(areas), old(xs), lo, hi) || right == 0)
        && (Valid() ==> Removed(old(areas), old(xs), areas, xs, lo, Reach(old(areas), old(xs), lo, hi, right)))
        && (!Valid() ==> Overlapping(areas, list, xs, lo, hi))
      ensures ok && addr + WholeLength(length) <= USER_MAX ==> Valid()
    {
      hide Reach, Removed, Overlapping, Inv, WholeLength;
      if addr % PAGE != 0 || length == 0 { return false; }
      var n := WholeLength(length);
      if Wrap64(addr + n) > USER_MAX { return false; }
      if MunmapOk(addr, length) { MunmapRange(addr, length); }
      hide PageStart, PageEnd;
      var r := Destroy(addr, n, right);
      ok := r == 0;
    }

    /** validateUserRange, for a pointer ptr. */
    method Validate(ptr: nat, size: nat, write: bool) returns (ok: bool)
      requires Valid() && ptr < U64 && size < U64
      ensures ok <==>
        || size == 0
        || (ptr != 0 && ptr + size <= 0x8000_0000_0000
            && AllAllowed(areas, xs, AlignDown(ptr, PAGE), AlignUp(ptr + size, PAGE), write))
    {
      if size == 0 { return true; }
      if ptr == 0 { return false; }
      var end := Wrap64(ptr + size);
      if end < ptr || end > USER_MAX { return false; }
      var lo, hi := AlignDown(ptr, PAGE), AlignDown(Wrap64(end + 4095), PAGE);
      assert hi == AlignUp(ptr + size, PAGE) && lo < hi;
      hide AlignDown, AlignUp, Wrap64;
      var x := lo;
      while x < hi
        invariant lo <= x && AllAllowed(areas, xs, lo, if x < hi then x else hi, write)
        decreases if x < hi then hi - x else 0
      {
        var t := Find(x);
        AllowStep(areas, list, xs, lo, x, hi, t, write);
        if t == 0 { return false; }
        var f := areas[t].flags;
        if !f.user { return false; }
        if write && !f.write { return false; }
        if !write && !f.read { return false; }
        x := areas[t].end;
      }
      ok := true;
    }
  }

  /** One such call: a process with one area from 0x1000 to 0x6000 unmaps 2^64 - 0x3000 bytes at 0x5000. */
  method BentMunmap(flags: Flags) returns (p: Process)
    ensures forall ys :: !Inv(p.areas, p.list, ys)
    ensures exists t, u :: t in p.xs && u in p.xs && t != u && Covers(p.areas, t, 0x2000) && Covers(p.areas, u, 0x2000)
  {
    p := new Process();
    assert PageStart(0x1000) == 0x1000 && PageEnd(0x1000, 0x5000) == 0x6000;
    var t := p.Create(0x1000, 0x5000, flags, 1);
    assert Meets(p.areas[t], 0x5000, 0x2000);
    assert 2 !in p.xs;
    assert MunmapOk(0x5000, U64 - 0x3000) && Wrap64(0x5000 + WholeLength(U64 - 0x3000)) == 0x2000;
    var ok := p.Munmap(0x5000, U64 - 0x3000, 2);
  }
}

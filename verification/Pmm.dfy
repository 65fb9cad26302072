/** The physical frame allocator of src/kernel/mem/pmm.c: a bitmap with one bit per 4 KiB
    frame, a counter of used frames and a scan hint. A 64-bit bitmap word is its 64 bits:
    word i is bits[64 * i .. 64 * i + 64]. */
module Pmm {
  import opened Machine

  /** A run of n free frames starting at frame s; m is the used-bit of every frame. */
  predicate FreeRun(m: seq<bool>, s: nat, n: nat) {
    s + n <= |m| && forall f :: s <= f < s + n ==> !m[f]
  }

  /** Frame s is on the requested boundary; an alignment of 0 or 1 asks for nothing. */
  predicate Aligned(s: nat, align: nat) {
    align <= 1 || s % align == 0
  }

  /** A place where an aligned run of n frames can go. */
  predicate Fits(m: seq<bool>, s: nat, n: nat, align: nat) {
    FreeRun(m, s, n) && Aligned(s, align)
  }

  lemma NoFit(m: seq<bool>, s: nat, n: nat, align: nat)
    requires n > 0
    ensures Fits(m, s, n, align) ==> FreeRun(m, s, n)
    ensures s >= |m| ==> forall t: nat :: t >= s ==> !Fits(m, t, n, align)
  {
  }

  lemma FitsUnaligned(m: seq<bool>, n: nat, align: nat)
    requires align <= 1
    ensures forall s: nat :: Fits(m, s, n, align) <==> FreeRun(m, s, n)
  {
  }

  /** The first boundary at or after x. */
  function NextAligned(x: nat, align: nat): (r: nat)
    requires align > 1
    ensures x <= r && Aligned(r, align)
    ensures forall t: nat :: x <= t < r ==> !Aligned(t, align)
  {
    assert forall t: nat :: x <= t < AlignUp(x, align) ==> !Aligned(t, align) by {
      forall t: nat | x <= t < AlignUp(x, align) ensures !Aligned(t, align) {
        if t % align == 0 { AlignUpLeast(x, align, t); }
      }
    }
    AlignUp(x, align)
  }

  /** The bitmap after every frame of [lo, hi) got the bit v. */
  function Painted(m: seq<bool>, lo: nat, hi: nat, v: bool): (r: seq<bool>)
    ensures |r| == |m|
    ensures forall f :: 0 <= f < |m| ==> r[f] == (if lo <= f < hi then v else m[f])
  {
    seq(|m|, f requires 0 <= f < |m| => if lo <= f < hi then v else m[f])
  }

  ghost function UsedSet(m: seq<bool>): set<nat> {
    set f: nat | f < |m| && m[f]
  }

  ghost predicate PowerOfTwo(a: nat) {
    a == 1 || (a > 0 && a % 2 == 0 && PowerOfTwo(a / 2))
  }

  /** Freeing a run that was free before it was allocated restores the bitmap: the two
      allocators of runs and pmm_free_frames are inverse to each other. */
  lemma PaintBack(m: seq<bool>, s: nat, n: nat)
    requires FreeRun(m, s, n)
    ensures Painted(Painted(m, s, s + n, true), s, s + n, false) == m
  {
  }

  lemma {:induction false} PaintedCard(m: seq<bool>, s: nat, n: nat)
    requires FreeRun(m, s, n)
    ensures |UsedSet(Painted(m, s, s + n, true))| == |UsedSet(m)| + n
  {
    if n == 0 {
      assert Painted(m, s, s, true) == m;
    } else {
      PaintedCard(m, s, n - 1);
      var p := Painted(m, s, s + n - 1, true);
      assert UsedSet(Painted(m, s, s + n, true)) == UsedSet(p) + {s + n - 1};
    }
  }

  lemma FlipCard(m: seq<bool>, f: nat, v: bool)
    requires f < |m| && m[f] != v
    ensures |UsedSet(m[f := v])| == if v then |UsedSet(m)| + 1 else |UsedSet(m)| - 1
  {
    if v {
      assert UsedSet(m[f := v]) == UsedSet(m) + {f};
    } else {
      assert UsedSet(m[f := v]) == UsedSet(m) - {f};
    }
  }

  lemma FullCard(m: seq<bool>)
    requires forall f :: 0 <= f < |m| ==> m[f]
    ensures |UsedSet(m)| == |m|
    decreases |m|
  {
    if m != [] {
      var k := |m| - 1;
      FullCard(m[..k]);
      assert UsedSet(m) == UsedSet(m[..k]) + {k};
    } else {
      assert UsedSet(m) == {};
    }
  }

  /** A range of physical memory: the size is in pages for memory-map entries, in bytes otherwise. */
  datatype Region = Region(base: nat, size: nat)

  predicate InConventional(r: Region, f: nat) {
    r.base / PAGE <= f < r.base / PAGE + r.size
  }

  predicate InReserved(r: Region, f: nat) {
    r.base / PAGE <= f < (r.base + r.size + PAGE - 1) / PAGE
  }

  ghost predicate AnyConventional(rs: seq<Region>, f: nat) {
    exists i :: 0 <= i < |rs| && InConventional(rs[i], f)
  }

  ghost predicate AnyReserved(rs: seq<Region>, f: nat) {
    exists i :: 0 <= i < |rs| && InReserved(rs[i], f)
  }

  lemma AnyMore(rs: seq<Region>, r: Region, f: nat)
    ensures AnyConventional(rs + [r], f) <==> AnyConventional(rs, f) || InConventional(r, f)
    ensures AnyReserved(rs + [r], f) <==> AnyReserved(rs, f) || InReserved(r, f)
  {
    hide InConventional, InReserved;
    var rs' := rs + [r];
    assert forall i :: 0 <= i < |rs| ==> rs'[i] == rs[i];
    assert rs'[|rs|] == r;
  }

  /** A run of one frame. */
  lemma OneFrame(m: seq<bool>, f: nat)
    ensures forall s: nat :: FreeRun(m, s, 1) <==> s < |m| && !m[s]
    ensures f < |m| ==> m[f := true] == Painted(m, f, f + 1, true)
  {
  }

  class Pmm {
    const bits: array<bool>
    const words: nat
    const totalFrames: nat
    var usedFrames: nat
    var lastScanned: nat

    /** The used bit of every frame. */
    ghost function Map(): (m: seq<bool>)
      requires totalFrames <= bits.Length
      reads bits
    {
      bits[..totalFrames]
    }

    ghost predicate Counted()
      reads this, bits
    {
      bits.Length == 64 * words && totalFrames <= 64 * words && usedFrames == |UsedSet(Map())|
    }

    ghost predicate Valid()
      reads this, bits
    {
      && bits.Length == 64 * words
      && 0 < totalFrames <= 64 * words
      && totalFrames <= U64 / PAGE
      && (forall k :: totalFrames <= k < 64 * words ==> bits[k])
      && bits[0]
      && lastScanned <= words
      && (forall k :: 0 <= k < 64 * lastScanned ==> bits[k])
      && usedFrames == |UsedSet(Map())|
    }

    /** The frames that are not free. */
    ghost function Used(): set<nat>
      requires Valid()
      reads this, bits
    {
      UsedSet(Map())
    }

    ghost predicate Exhausted()
      requires Valid()
      reads this, bits
    {
      forall f :: 0 <= f < totalFrames ==> Map()[f]
    }

    /** pmm_init after the bitmap is placed: every bit set, the conventional regions cleared,
        then the reserved ones set again (the first reserved region is the low megabyte). */
    constructor (total: nat, conventional: seq<Region>, reserved: seq<Region>)
      requires 0 < total <= U64 / PAGE
      requires |reserved| > 0 && reserved[0] == Region(0, 0x100000)
      requires forall r :: r in conventional || r in reserved ==> r.base + r.size + PAGE < U64
      ensures Valid() && fresh(bits)
      ensures totalFrames == total && lastScanned == 0
      ensures forall f: nat :: f < total ==>
        (!Map()[f] <==> AnyConventional(conventional, f)
                        && !AnyReserved(reserved, f))
    {
      words := ((total + 7) / 8 + 7) / 8;
      bits := new bool[64 * (((total + 7) / 8 + 7) / 8)](_ => true);
      totalFrames := total;
      usedFrames := total;
      lastScanned := 0;
      new;
      FullCard(Map());
      FreeConventional(conventional);
      ghost var conv := Map();
      ReserveAll(reserved);
      assert InReserved(reserved[0], 0);
    }

    /** The first loop of pmm_init over the memory map. */
    method FreeConventional(conventional: seq<Region>)
      requires Counted() && forall k :: 0 <= k < totalFrames ==> bits[k]
      modifies this`usedFrames, bits
      ensures Counted()
      ensures forall k :: totalFrames <= k < 64 * words ==> bits[k] == old(bits[k])
      ensures forall f: nat :: f < totalFrames ==> (!Map()[f] <==> AnyConventional(conventional, f))
    {
      var i := 0;
      while i < |conventional|
        invariant 0 <= i <= |conventional| && Counted()
        invariant forall k :: totalFrames <= k < 64 * words ==> bits[k] == old(bits[k])
        invariant forall f: nat :: f < totalFrames ==> (!Map()[f] <==> AnyConventional(conventional[..i], f))
      {
        var r := conventional[i];
        PaintRange(r.base / PAGE, r.base / PAGE + r.size, false);
        assert conventional[..i + 1] == conventional[..i] + [r];
        forall f: nat
          ensures AnyConventional(conventional[..i + 1], f) <==>
            AnyConventional(conventional[..i], f) || InConventional(r, f)
        {
          AnyMore(conventional[..i], r, f);
        }
        i := i + 1;
      }
      assert conventional[..i] == conventional;
    }

    /** The calls of pmm_reserve_range. */
    method ReserveAll(reserved: seq<Region>)
      requires Counted()
      modifies this`usedFrames, bits
      ensures Counted()
      ensures forall k :: totalFrames <= k < 64 * words ==> bits[k] == old(bits[k])
      ensures forall f: nat :: f < totalFrames ==>
        (Map()[f] <==> old(Map())[f] || AnyReserved(reserved, f))
    {
      var i := 0;
      while i < |reserved|
        invariant 0 <= i <= |reserved| && Counted()
        invariant forall k :: totalFrames <= k < 64 * words ==> bits[k] == old(bits[k])
        invariant forall f: nat :: f < totalFrames ==>
          (Map()[f] <==> old(Map())[f] || AnyReserved(reserved[..i], f))
      {
        var r := reserved[i];
        PaintRange(r.base / PAGE, (r.base + r.size + PAGE - 1) / PAGE, true);
        assert reserved[..i + 1] == reserved[..i] + [r];
        forall f: nat ensures AnyReserved(reserved[..i + 1], f) <==> AnyReserved(reserved[..i], f) || InReserved(r, f) {
          AnyMore(reserved[..i], r, f);
        }
        i := i + 1;
      }
      assert reserved[..i] == reserved;
    }

    /** The shared loop of pmm_init, pmm_reserve_range and pmm_free_frames: give every frame of
        [lo, hi) below the total the bit v, counting only the bits that change. */
    method PaintRange(lo: nat, hi: nat, v: bool)
      requires Counted()
      modifies this`usedFrames, bits
      ensures Map() == Painted(old(Map()), lo, hi, v)
      ensures forall k :: totalFrames <= k < 64 * words ==> bits[k] == old(bits[k])
      ensures Counted()
    {
      var f := lo;
      assert Map() == Painted(old(Map()), lo, lo, v);
      while f < hi && f < totalFrames
        invariant lo <= f
        invariant Map() == Painted(old(Map()), lo, f, v)
        invariant forall k :: totalFrames <= k < 64 * words ==> bits[k] == old(bits[k])
        invariant usedFrames == |UsedSet(Map())|
        invariant f <= hi || f == lo
      {
        if bits[f] != v {
          ghost var m := Map();
          FlipCard(m, f, v);
          if !v { assert f in UsedSet(m); }
          bits[f] := v;
          usedFrames := if v then usedFrames + 1 else usedFrames - 1;
          assert Map() == m[f := v];
        }
        f := f + 1;
      }
    }

    /** The first word of [from, to) that is not all ones, or to. */
    method FirstNotFull(from: nat, to: nat) returns (i: nat)
      requires Valid() && from <= to <= words
      ensures from <= i <= to
      ensures forall k :: 64 * from <= k < 64 * i ==> bits[k]
      ensures i < to ==> exists k :: 64 * i <= k < 64 * i + 64 && !bits[k]
    {
      i := from;
      while i < to
        invariant from <= i <= to
        invariant forall k :: 64 * from <= k < 64 * i ==> bits[k]
      {
        var bit := LowestClear(i);
        if bit < 64 {
          return;
        }
        i := i + 1;
      }
    }

    /** ctz of the complement of word i; 64 when the word is all ones. */
    method LowestClear(i: nat) returns (bit: nat)
      requires Valid() && i < words
      ensures bit <= 64 && forall k :: 64 * i <= k < 64 * i + bit ==> bits[k]
      ensures bit < 64 ==> !bits[64 * i + bit]
    {
      bit := 0;
      while bit < 64 && bits[64 * i + bit]
        invariant bit <= 64
        invariant forall k :: 64 * i <= k < 64 * i + bit ==> bits[k]
      {
        bit := bit + 1;
      }
    }

    method TakeFrame(i: nat, bit: nat)
      requires Valid() && i < words && bit < 64 && 64 * i + bit < totalFrames
      requires !bits[64 * i + bit] && forall k :: 0 <= k < 64 * i ==> bits[k]
      modifies this`usedFrames, this`lastScanned, bits
      ensures Valid() && Map() == old(Map())[64 * i + bit := true]
    {
      ghost var m := Map();
      FlipCard(m, 64 * i + bit, true);
      bits[64 * i + bit] := true;
      usedFrames := usedFrames + 1;
      lastScanned := i;
      assert Map() == m[64 * i + bit := true];
    }

    /** pmm_alloc_frame: the lowest free frame, and NULL (address 0) exactly when none is free. */
    method AllocFrame() returns (addr: nat)
      requires Valid()
      modifies this`usedFrames, this`lastScanned, bits
      ensures Valid()
      ensures addr == 0 <==> forall f :: 0 <= f < totalFrames ==> old(Map())[f]
      ensures addr == 0 ==> Map() == old(Map())
      ensures addr != 0 ==>
        var f := addr / PAGE;
        && addr % PAGE == 0 && f < totalFrames && !old(Map())[f]
        && (forall g :: 0 <= g < f ==> old(Map())[g])
        && Map() == old(Map())[f := true]
    {
      addr := 0;
      var i := FirstNotFull(lastScanned, words);
      if i == words {
        i := FirstNotFull(0, lastScanned);
        if i == lastScanned {
          assert forall f :: 0 <= f < totalFrames ==> bits[f] == Map()[f];
          return;
        }
      }
      var bit := LowestClear(i);
      var frame := 64 * i + bit;
      if frame >= totalFrames {
        return;
      }
      assert Map()[frame] == bits[frame];
      TakeFrame(i, bit);
      addr := frame * PAGE;
    }

    /** pmm_alloc_frame by frame number, on the set of used frames; 0 is NULL. */
    method Alloc() returns (f: nat)
      requires Valid()
      modifies this, bits
      ensures Valid()
      ensures f == 0 ==> Used() == old(Used()) && Exhausted()
      ensures f != 0 ==> f < totalFrames && f !in old(Used()) && Used() == old(Used()) + {f}
    {
      ghost var m := Map();
      var addr := AllocFrame();
      f := addr / PAGE;
      if addr != 0 {
        assert Map() == m[f := true];
        assert f != 0;
      }
    }

    /** pmm_free_frame of a frame that is in use: a second call is ruled out by the precondition. */
    method Release(f: nat)
      requires Valid() && f in Used() && f != 0
      modifies this, bits
      ensures Valid() && Used() == old(Used()) - {f}
    {
      ghost var m := Map();
      assert f * PAGE / PAGE == f && f * PAGE % PAGE == 0;
      FreeFrame(f * PAGE);
      assert Map() == m[f := false];
    }

    /** pmm_alloc_frames: the lowest run of count free frames. */
    method AllocFrames(count: nat) returns (addr: nat)
      requires Valid()
      modifies this`usedFrames, this`lastScanned, bits
      ensures Valid()
      ensures addr == 0 <==> count == 0 || forall s: nat :: !FreeRun(old(Map()), s, count)
      ensures addr == 0 ==> Map() == old(Map())
      ensures addr != 0 ==>
        var s := addr / PAGE;
        && addr % PAGE == 0 && FreeRun(old(Map()), s, count)
        && (forall t: nat :: t < s ==> !FreeRun(old(Map()), t, count))
        && Map() == Painted(old(Map()), s, s + count, true)
    {
      if count == 0 {
        return 0;
      }
      if count == 1 {
        ghost var m := Map();
        addr := AllocFrame();
        OneFrame(m, addr / PAGE);
        return;
      }
      var start := FirstRun(count);
      if start == totalFrames {
        return 0;
      }
      TakeRun(start, count);
      addr := start * PAGE;
    }

    /** The search of pmm_alloc_frames: the first frame of the lowest free run, or the total. */
    method FirstRun(count: nat) returns (start: nat)
      requires Valid() && count > 0
      ensures start <= totalFrames
      ensures start < totalFrames ==> start > 0 && FreeRun(Map(), start, count)
      ensures forall t: nat :: t < start ==> !FreeRun(Map(), t, count)
    {
      ghost var m := Map();
      assert m[0];
      var found := 0;
      start := 0;
      var i := 0;
      while i < totalFrames
        invariant i <= totalFrames && start + found == i && found < count
        invariant forall f :: start <= f < i ==> !m[f]
        invariant forall t: nat :: t < start ==> !FreeRun(m, t, count)
      {
        if bits[i] {
          assert m[i];
          assert forall t: nat :: start <= t <= i ==> !FreeRun(m, t, count);
          found := 0;
          start := i + 1;
        } else {
          assert !m[i];
          found := found + 1;
          if found == count {
            assert FreeRun(m, start, count);
            return;
          }
        }
        i := i + 1;
      }
      assert forall t: nat :: FreeRun(m, t, count) ==> t < start || t + count <= i;
      start := totalFrames;
    }

    /** Setting the bits of a free run and adding its length to the counter. */
    method TakeRun(start: nat, count: nat)
      requires Valid() && FreeRun(Map(), start, count)
      modifies this`usedFrames, bits
      ensures Valid() && Map() == Painted(old(Map()), start, start + count, true)
    {
      ghost var m := Map();
      PaintedCard(m, start, count);
      var f := start;
      assert Map() == Painted(m, start, start, true);
      while f < start + count
        invariant usedFrames == old(usedFrames)
        invariant start <= f <= start + count
        invariant Map() == Painted(m, start, f, true)
        invariant forall k :: totalFrames <= k < 64 * words ==> bits[k]
        invariant forall k :: 0 <= k < 64 * words && old(bits[k]) ==> bits[k]
      {
        bits[f] := true;
        f := f + 1;
      }
      usedFrames := usedFrames + count;
    }

    /** pmm_alloc_aligned_frames: the lowest free run whose first frame is a multiple of align. */
    method AllocAlignedFrames(count: nat, align: nat) returns (addr: nat)
      requires Valid()
      requires align == 0 || PowerOfTwo(align)
      modifies this`usedFrames, this`lastScanned, bits
      ensures Valid()
      ensures addr == 0 <==> (count == 0 || forall s: nat :: !Fits(old(Map()), s, count, align))
      ensures addr == 0 ==> Map() == old(Map())
      ensures addr != 0 ==>
        var s := addr / PAGE;
        && addr % PAGE == 0 && Fits(old(Map()), s, count, align)
        && (forall t: nat :: t < s ==> !Fits(old(Map()), t, count, align))
        && Map() == Painted(old(Map()), s, s + count, true)
    {
      if count == 0 {
        return 0;
      }
      if align <= 1 {
        addr := AllocFrames(count);
        FitsUnaligned(old(Map()), count, align);
        return;
      }
      hide Fits, FreeRun, Painted, PowerOfTwo;
      ghost var m := Map();
      var start := FirstAlignedRun(count, align);
      NoFit(m, start, count, align);
      if start == totalFrames {
        return 0;
      }
      TakeRun(start, count);
      addr := start * PAGE;
    }

    /** The search of pmm_alloc_aligned_frames: restart after the first used frame of a candidate. */
    method FirstAlignedRun(count: nat, align: nat) returns (start: nat)
      requires Valid() && count > 0 && align > 1
      ensures start <= totalFrames
      ensures start < totalFrames ==> start > 0 && Fits(Map(), start, count, align)
      ensures forall t: nat :: t < start ==> !Fits(Map(), t, count, align)
    {
      hide NextAligned, Aligned;
      ghost var m := Map();
      assert m[0];
      start := 0;
      while start + count <= totalFrames
        invariant start <= totalFrames
        invariant forall t: nat :: t < start ==> !Fits(m, t, count, align)
        decreases totalFrames - start
      {
        var aligned := NextAligned(start, align);
        if aligned + count > totalFrames {
          start := totalFrames;
          return;
        }
        var f := FirstUsed(aligned, aligned + count);
        if f == aligned + count {
          assert FreeRun(m, aligned, count) && !m[aligned];
          start := aligned;
          return;
        }
        assert forall t: nat :: aligned <= t <= f ==> !FreeRun(m, t, count);
        start := f + 1;
      }
      start := totalFrames;
    }

    /** The conflict loop: the first used frame of [from, to), or to. */
    method FirstUsed(from: nat, to: nat) returns (f: nat)
      requires Valid() && from <= to <= totalFrames
      ensures from <= f <= to && FreeRun(Map(), from, f - from)
      ensures f < to ==> Map()[f]
    {
      f := from;
      while f < to && !bits[f]
        invariant from <= f <= to
        invariant forall g :: from <= g < f ==> !Map()[g]
      {
        f := f + 1;
      }
    }

    /** pmm_free_frame: a NULL, misaligned, out-of-range or already free address changes nothing. */
    method FreeFrame(addr: nat)
      requires Valid()
      modifies this`usedFrames, this`lastScanned, bits
      ensures Valid()
      ensures Map() == if addr == 0 || addr % PAGE != 0 || addr / PAGE >= totalFrames
                       then old(Map()) else old(Map())[addr / PAGE := false]
    {
      if addr == 0 || addr % PAGE != 0 {
        return;
      }
      var f := addr / PAGE;
      if f >= totalFrames {
        return;
      }
      ghost var m := Map();
      if bits[f] {
        FlipCard(m, f, false);
        assert f in UsedSet(m);
        bits[f] := false;
        usedFrames := usedFrames - 1;
        var word := f / 64;
        if word < lastScanned {
          lastScanned := word;
        }
      }
      assert Map() == m[f := false];
    }

    /** pmm_free_frames: the end of the run wraps at 64 bits before it is clamped. */
    method FreeFrames(addr: nat, count: nat)
      requires Valid() && addr < U64 && count < U64
      modifies this`usedFrames, this`lastScanned, bits
      ensures Valid()
      ensures Map() == if addr == 0 || addr % PAGE != 0 || count == 0 then old(Map())
                       else Painted(old(Map()), addr / PAGE, Wrap64(addr / PAGE + count), false)
    {
      if addr == 0 || addr % PAGE != 0 || count == 0 {
        return;
      }
      var start := addr / PAGE;
      var end := Wrap64(start + count);
      if end > totalFrames {
        end := totalFrames;
      }
      ghost var m := Map();
      assert forall k :: 0 <= k < 64 * lastScanned ==> bits[k];
      PaintRange(start, end, false);
      assert Map() == Painted(m, start, Wrap64(start + count), false);
      forall k | 0 <= k < 64 * words && k < start ensures bits[k] == old(bits[k]) {
        if k < totalFrames { assert bits[k] == Map()[k] == m[k]; }
      }
      var word := start / 64;
      if word < lastScanned {
        lastScanned := word;
      }
    }
  }

  /** Allocating any run and freeing it again leaves the allocator as it was. */
  method AllocThenFree(pmm: Pmm, count: nat, align: nat) returns (addr: nat)
    requires pmm.Valid() && count < U64
    requires align == 0 || PowerOfTwo(align)
    modifies pmm, pmm.bits
    ensures pmm.Valid() && pmm.Map() == old(pmm.Map()) && pmm.usedFrames == old(pmm.usedFrames)
  {
    ghost var m := pmm.Map();
    addr := pmm.AllocAlignedFrames(count, align);
    if addr != 0 {
      PaintBack(m, addr / PAGE, count);
      pmm.FreeFrames(addr, count);
    }
  }
}

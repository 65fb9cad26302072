/** The libc allocator of src/lib/libc/stdlib.c: arenas tiled by chunks with boundary tags, split
    and coalesce, a doubly linked free list, in-place realloc, and single-chunk mappings for
    large requests.

    Memory is modelled field by field: `chunks` holds the size, magic, isMmap, prevPhys and arena
    fields of every chunk header, the next/prev fields are in the lists, and `bytes` holds the
    bytes outside headers. A header that is absorbed by a merge leaves `chunks`, so reading a stale
    header is impossible in the model; a header that is created erases the bytes below it. */
module Malloc {
  import opened Machine
  import L = DList

  const HDR: nat := 48          // sizeof(Chunk)
  const AHDR: nat := 32         // sizeof(Arena)
  const LARGE: nat := 0x2_0000  // LARGE_ALLOC_THRESHOLD
  const ARENA: nat := 0x1_0000  // ARENA_DEFAULT_SIZE
  const SPACE: nat := 0x0000_8000_0000_0000   // the end of user space

  datatype Chunk = Chunk(free: bool, isMmap: bool, size: nat, prevPhys: nat, arena: nat)
  datatype Arena = Arena(totalSize: nat, activeChunks: nat)

  type Chunks = map<nat, Chunk>

  // ---- physical layout of one arena

  function SizeOf(m: Chunks, c: nat): nat { if c in m then m[c].size else 0 }

  /** Where the chunk at c ends: the address of its physical successor. */
  function EndOf(m: Chunks, c: nat): nat { c + HDR + SizeOf(m, c) }

  ghost predicate BlockOk(m: Chunks, c: nat, a: nat) {
    c in m && !m[c].isMmap && m[c].arena == a && m[c].size % 16 == 0
  }

  /** The k-th chunk starts where the previous one ends, and prevPhys is the physical predecessor. */
  ghost predicate TileAt(m: Chunks, cs: seq<nat>, a: nat, total: nat, k: int) {
    && 0 <= k < |cs| && BlockOk(m, cs[k], a)
    && (EndOf(m, cs[k]) == if k + 1 < |cs| then cs[k + 1] else a + total)
    && m[cs[k]].prevPhys == L.At(cs, k - 1)
  }

  /** The chunks at cs tile the arena at a exactly. */
  ghost predicate Tiled(m: Chunks, cs: seq<nat>, a: nat, total: nat) {
    && |cs| > 0 && cs[0] == a + AHDR
    && (forall k :: 0 <= k < |cs| ==> TileAt(m, cs, a, total, k))
  }

  /** Chunk c is on the free list: its magic says free and it is not in transit. */
  ghost predicate Idle(m: Chunks, xs: set<nat>, c: nat) { c in m && m[c].free && c !in xs }

  ghost predicate NoIdlePair(m: Chunks, xs: set<nat>, cs: seq<nat>) {
    forall i :: 0 <= i < |cs| - 1 ==> !(Idle(m, xs, cs[i]) && Idle(m, xs, cs[i + 1]))
  }

  ghost function InUse(m: Chunks, cs: seq<nat>): set<nat> { set c | c in cs && c in m && !m[c].free }

  function SetPrevPhys(m: Chunks, c: nat, p: nat): Chunks {
    if c in m then m[c := m[c].(prevPhys := p)] else m
  }

  /** Cut the chunk at c down to size; the rest becomes a free chunk. `end` is the arena's end. */
  function SplitAt(m: Chunks, c: nat, size: nat, end: nat): Chunks
    requires c in m && m[c].size >= size + HDR
  {
    var s := c + HDR + size;
    var rest := m[c].size - size - HDR;
    var m1 := m[s := Chunk(true, false, rest, c, m[c].arena)];
    var m2 := if s + HDR + rest < end then SetPrevPhys(m1, s + HDR + rest, s) else m1;
    m2[c := m[c].(size := size)]
  }

  /** Let the chunk at c absorb its physical successor. */
  function MergeAt(m: Chunks, c: nat, end: nat): Chunks
    requires c in m
  {
    var n := EndOf(m, c);
    var size := m[c].size + HDR + SizeOf(m, n);
    var m1 := (m - {n})[c := m[c].(size := size)];
    if c + HDR + size < end then SetPrevPhys(m1, c + HDR + size, c) else m1
  }

  lemma {:induction false} LastEnd(m: Chunks, cs: seq<nat>, a: nat, total: nat, j: nat)
    requires Tiled(m, cs, a, total) && j < |cs|
    ensures EndOf(m, cs[j]) <= a + total
    decreases |cs| - j
  {
    assert TileAt(m, cs, a, total, j);
    if j + 1 < |cs| { LastEnd(m, cs, a, total, j + 1); }
  }

  lemma {:induction false} Ascending(m: Chunks, cs: seq<nat>, a: nat, total: nat, i: nat, j: nat)
    requires Tiled(m, cs, a, total) && i < j < |cs|
    ensures EndOf(m, cs[i]) <= cs[j]
    decreases j
  {
    assert TileAt(m, cs, a, total, j - 1);
    if i + 1 < j { Ascending(m, cs, a, total, i, j - 1); }
  }

  lemma Spread(m: Chunks, cs: seq<nat>, a: nat, total: nat)
    requires Tiled(m, cs, a, total)
    ensures L.Distinct(cs)
    ensures forall i :: 0 <= i < |cs| ==> cs[i] in m && a + AHDR <= cs[i] && EndOf(m, cs[i]) <= a + total
    ensures forall i, j :: 0 <= i < j < |cs| ==> EndOf(m, cs[i]) <= cs[j]
  {
    forall i, j | 0 <= i < j < |cs| ensures EndOf(m, cs[i]) <= cs[j] { Ascending(m, cs, a, total, i, j); }
    forall i | 0 <= i < |cs| ensures cs[i] in m && a + AHDR <= cs[i] && EndOf(m, cs[i]) <= a + total {
      assert TileAt(m, cs, a, total, i);
      if i > 0 { Ascending(m, cs, a, total, 0, i); }
      LastEnd(m, cs, a, total, i);
    }
  }

  /** The physical successor of the i-th chunk is the next chunk, unless it is the last. */
  lemma Successor(m: Chunks, cs: seq<nat>, a: nat, total: nat, i: nat)
    requires Tiled(m, cs, a, total) && i < |cs|
    ensures cs[i] in m && (EndOf(m, cs[i]) < a + total <==> i + 1 < |cs|)
    ensures i + 1 < |cs| ==> cs[i + 1] == EndOf(m, cs[i]) && cs[i + 1] in m && cs[i + 1] != cs[i]
  {
    assert TileAt(m, cs, a, total, i);
    if i + 1 < |cs| { LastEnd(m, cs, a, total, i + 1); assert TileAt(m, cs, a, total, i + 1); }
  }

  lemma SplitTiled(m: Chunks, cs: seq<nat>, a: nat, total: nat, i: nat, size: nat)
    requires Tiled(m, cs, a, total) && CanSplit(m, cs, i, size)
    ensures Tiled(SplitAt(m, cs[i], size, a + total), L.With(cs, i + 1, cs[i] + HDR + size), a, total)
  {
    var s := cs[i] + HDR + size;
    var m', t := SplitAt(m, cs[i], size, a + total), L.With(cs, i + 1, s);
    Successor(m, cs, a, total, i);
    Spread(m, cs, a, total);
    assert t[0] == a + AHDR && |t| == |cs| + 1;
    hide TileAt, CanSplit, SplitAt, L.With, EndOf;
    forall k | 0 <= k < |t| ensures TileAt(m', t, a, total, k) {
      if k == i + 1 { SplitNew(m, cs, a, total, i, size); }
      else { SplitOther(m, cs, a, total, i, size, if k <= i then k else k - 1); }
    }
  }

  ghost predicate CanSplit(m: Chunks, cs: seq<nat>, i: nat, size: nat) {
    && i < |cs| && cs[i] in m && size % 16 == 0
    && m[cs[i]].size >= size + HDR + 16 && cs[i] + HDR + size !in m
  }

  lemma SplitNew(m: Chunks, cs: seq<nat>, a: nat, total: nat, i: nat, size: nat)
    requires CanSplit(m, cs, i, size) && TileAt(m, cs, a, total, i)
    ensures var s := cs[i] + HDR + size;
      TileAt(SplitAt(m, cs[i], size, a + total), L.With(cs, i + 1, s), a, total, i + 1)
  {
  }

  /** What a split does to the header of the j-th chunk. */
  lemma SplitOther(m: Chunks, cs: seq<nat>, a: nat, total: nat, i: nat, size: nat, j: nat)
    requires Tiled(m, cs, a, total) && CanSplit(m, cs, i, size) && j < |cs| && L.Distinct(cs)
    ensures var s := cs[i] + HDR + size;
      TileAt(SplitAt(m, cs[i], size, a + total), L.With(cs, i + 1, s), a, total, if j <= i then j else j + 1)
  {
    Successor(m, cs, a, total, i);
    assert TileAt(m, cs, a, total, j);
    hide Tiled;
  }

  lemma MergeTiled(m: Chunks, cs: seq<nat>, a: nat, total: nat, i: nat)
    requires Tiled(m, cs, a, total) && i + 1 < |cs|
    ensures cs[i] in m && Tiled(MergeAt(m, cs[i], a + total), L.Without(cs, i + 1), a, total)
  {
    Spread(m, cs, a, total);
    var m', t := MergeAt(m, cs[i], a + total), L.Without(cs, i + 1);
    hide TileAt;
    forall k | 0 <= k < |t| ensures TileAt(m', t, a, total, k) {
      MergeOther(m, cs, a, total, i, if k <= i then k else k + 1);
    }
  }

  /** What a merge does to the header of the j-th chunk. */
  lemma MergeOther(m: Chunks, cs: seq<nat>, a: nat, total: nat, i: nat, j: nat)
    requires Tiled(m, cs, a, total) && i + 1 < |cs| && j < |cs| && j != i + 1 && L.Distinct(cs) && cs[i] in m
    ensures TileAt(MergeAt(m, cs[i], a + total), L.Without(cs, i + 1), a, total, if j <= i then j else j - 1)
  {
    Successor(m, cs, a, total, i);
    Successor(m, cs, a, total, i + 1);
    assert TileAt(m, cs, a, total, j) && TileAt(m, cs, a, total, i) && TileAt(m, cs, a, total, i + 1);
    hide Tiled;
  }

  // ---- the whole heap

  datatype Heap = Heap(
    chunks: Chunks,
    free: L.List,
    arenas: map<nat, Arena>,
    arenaList: L.List,
    arenaCount: nat,
    bytes: map<nat, nat>)

  /** What the links say: the chunks of every arena in address order, the free list, the arena list,
      and the chunks in transit (magic free, not on the free list). */
  datatype View = View(layout: map<nat, seq<nat>>, fl: seq<nat>, al: seq<nat>, xs: set<nat>)

  ghost predicate ArenaOk(m: Chunks, arenas: map<nat, Arena>, g: View, a: nat) {
    && a in arenas && a in g.layout
    && Tiled(m, g.layout[a], a, arenas[a].totalSize)
    && NoIdlePair(m, g.xs, g.layout[a])
    && arenas[a].activeChunks == |InUse(m, g.layout[a])|
  }

  ghost predicate ArenasOk(m: Chunks, arenas: map<nat, Arena>, g: View) {
    && arenas.Keys == g.layout.Keys
    && (forall a :: a in g.layout ==> ArenaOk(m, arenas, g, a))
  }

  ghost predicate ArenaListOk(h: Heap, g: View) {
    L.Listed(h.arenaList, g.al) && (forall a :: a in g.al <==> a in h.arenas) && h.arenaCount == |g.al|
  }

  /** The free list holds each free chunk exactly once. */
  ghost predicate FreeOk(m: Chunks, free: L.List, g: View) {
    && L.Listed(free, g.fl)
    && (forall c :: c in g.fl <==> Idle(m, g.xs, c))
  }

  /** Chunk c is one of the tiles of arena a. */
  ghost predicate Within(m: Chunks, c: nat, a: nat) { c in m && !m[c].isMmap && m[c].arena == a }

  ghost predicate Aligned(c: nat) { c % 16 == 0 }

  ghost predicate OwnOk(m: Chunks, g: View) {
    && (forall c :: c in m ==> Aligned(c))
    && (forall c :: c in m && m[c].isMmap ==> !m[c].free)
    && (forall c :: c in m && !m[c].isMmap ==> m[c].arena in g.layout && c in g.layout[m[c].arena])
    && (forall x :: x in g.xs ==> x in m && m[x].free)
  }

  /** The mappings the allocator holds: arenas and single large chunks. */
  ghost predicate IsRoot(m: Chunks, arenas: map<nat, Arena>, r: nat) { r in arenas || (r in m && m[r].isMmap) }

  ghost function Len(m: Chunks, arenas: map<nat, Arena>, r: nat): nat {
    if r in arenas then arenas[r].totalSize else HDR + SizeOf(m, r)
  }

  ghost predicate RegionsOk(m: Chunks, arenas: map<nat, Arena>) {
    && (forall r: nat :: IsRoot(m, arenas, r) ==> 0 < r && r + Len(m, arenas, r) <= SPACE)
    && (forall r :: r in arenas ==> r !in m)
    && (forall p: nat, q: nat :: IsRoot(m, arenas, p) && IsRoot(m, arenas, q) && p < q ==> p + Len(m, arenas, p) <= q)
  }

  ghost predicate InHeader(b: nat, c: nat) { c <= b < c + HDR }

  /** No payload byte lies in a header. */
  ghost predicate BytesOk(m: Chunks, bytes: map<nat, nat>) {
    forall b, c :: b in bytes && c in m ==> !InHeader(b, c)
  }

  ghost predicate Inv(h: Heap, g: View) {
    && ArenasOk(h.chunks, h.arenas, g) && ArenaListOk(h, g)
    && FreeOk(h.chunks, h.free, g) && OwnOk(h.chunks, g)
    && RegionsOk(h.chunks, h.arenas) && BytesOk(h.chunks, h.bytes)
  }

  // ---- payloads

  ghost predicate Live(h: Heap, c: nat) { c in h.chunks && !h.chunks[c].free }

  ghost function RootOf(m: Chunks, c: nat): nat
    requires c in m
  {
    if m[c].isMmap then c else m[c].arena
  }

  /** Every chunk lies inside its mapping. */
  lemma InsideRoot(h: Heap, g: View, c: nat)
    requires Inv(h, g) && c in h.chunks
    ensures var r := RootOf(h.chunks, c);
      IsRoot(h.chunks, h.arenas, r) && r <= c && EndOf(h.chunks, c) <= r + Len(h.chunks, h.arenas, r)
  {
    if !h.chunks[c].isMmap {
      var a := h.chunks[c].arena;
      assert ArenaOk(h.chunks, h.arenas, g, a);
      Spread(h.chunks, g.layout[a], a, h.arenas[a].totalSize);
      var i := L.FindIndex(g.layout[a], c);
    }
  }

  /** Two chunks never overlap, headers included. */
  lemma Disjoint(h: Heap, g: View, c: nat, d: nat)
    requires Inv(h, g) && c in h.chunks && d in h.chunks && c < d
    ensures EndOf(h.chunks, c) <= d
  {
    var p, q := RootOf(h.chunks, c), RootOf(h.chunks, d);
    InsideRoot(h, g, c);
    InsideRoot(h, g, d);
    if p == q && p in h.arenas {
      var cs := g.layout[p];
      assert ArenaOk(h.chunks, h.arenas, g, p);
      Spread(h.chunks, cs, p, h.arenas[p].totalSize);
      var i := L.FindIndex(cs, c);
      var j := L.FindIndex(cs, d);
    }
  }

  lemma NoHeaderInside(h: Heap, g: View, c: nat, x: nat)
    requires Inv(h, g) && c in h.chunks && c < x < EndOf(h.chunks, c)
    ensures x !in h.chunks && x != 0
  {
    if x in h.chunks { Disjoint(h, g, c, x); }
  }

  // ---- a change inside one arena

  ghost predicate SameOutside(m: Chunks, m': Chunks, a: nat) {
    && (forall c :: c in m && !Within(m, c, a) ==> c in m' && m'[c] == m[c])
    && (forall c :: c in m' && !Within(m', c, a) ==> c in m && m[c] == m'[c])
  }

  /** Chunks outside arena a are the same in both, and the arena itself is where it was. */
  ghost predicate Local(h: Heap, h': Heap, g: View, g': View, a: nat) {
    && a in h.arenas && a in h'.arenas && a in g.layout && a in g'.layout
    && h'.arenas == h.arenas[a := h'.arenas[a]] && h'.arenas[a].totalSize == h.arenas[a].totalSize
    && h'.arenaList == h.arenaList && h'.arenaCount == h.arenaCount && g'.al == g.al
    && g'.layout == g.layout[a := g'.layout[a]]
    && SameOutside(h.chunks, h'.chunks, a)
    && TilesOf(h.chunks, h'.chunks, h.arenas, g'.layout[a], a)
    && TransitOk(h.chunks, g.xs, h'.chunks, g'.xs, a)
  }

  /** The chunks of arena a are its tiles, and new ones are not at the start of a mapping. */
  ghost predicate TilesOf(m: Chunks, m': Chunks, arenas: map<nat, Arena>, cs: seq<nat>, a: nat) {
    forall c :: Within(m', c, a) ==> c in cs && Aligned(c) && (c in m || c !in arenas)
  }

  ghost predicate TransitOk(m: Chunks, xs: set<nat>, m': Chunks, xs': set<nat>, a: nat) {
    && (forall x :: x in xs' ==> x in m' && m'[x].free && (x in xs || Within(m', x, a)))
    && (forall x :: x in xs && x !in xs' ==> Within(m, x, a))
  }

  /** An arena only depends on its own chunks, counters and transit. */
  lemma SameArena(m: Chunks, arenas: map<nat, Arena>, g: View, m': Chunks, arenas': map<nat, Arena>, g': View, b: nat)
    requires ArenaOk(m, arenas, g, b) && b in arenas' && arenas'[b] == arenas[b] && b in g'.layout
    requires g'.layout[b] == g.layout[b]
    requires forall c :: Within(m, c, b) ==> c in m' && m'[c] == m[c] && (c in g'.xs <==> c in g.xs)
    ensures ArenaOk(m', arenas', g', b)
  {
    var cs, total := g.layout[b], arenas[b].totalSize;
    forall k | 0 <= k < |cs|
      ensures TileAt(m', cs, b, total, k) && Within(m, cs[k], b)
    {
      assert TileAt(m, cs, b, total, k);
    }
    forall c | c in cs ensures Within(m, c, b) { var i := L.FindIndex(cs, c); }
    assert InUse(m', cs) == InUse(m, cs);
    hide TileAt;
    assert NoIdlePair(m', g'.xs, cs);
  }

  lemma OtherArena(h: Heap, h': Heap, g: View, g': View, a: nat, b: nat)
    requires Inv(h, g) && Local(h, h', g, g', a) && b in g.layout && b != a
    ensures ArenaOk(h'.chunks, h'.arenas, g', b)
  {
    assert ArenaOk(h.chunks, h.arenas, g, b);
    hide ArenaOk;
    SameArena(h.chunks, h.arenas, g, h'.chunks, h'.arenas, g', b);
  }

  lemma LocalRegions(h: Heap, h': Heap, g: View, g': View, a: nat)
    requires RegionsOk(h.chunks, h.arenas) && Local(h, h', g, g', a)
    ensures RegionsOk(h'.chunks, h'.arenas)
  {
    forall r: nat ensures IsRoot(h'.chunks, h'.arenas, r) <==> IsRoot(h.chunks, h.arenas, r) { }
    forall r: nat | IsRoot(h.chunks, h.arenas, r) ensures Len(h'.chunks, h'.arenas, r) == Len(h.chunks, h.arenas, r) { }
  }

  lemma LocalOwn(h: Heap, h': Heap, g: View, g': View, a: nat)
    requires OwnOk(h.chunks, g) && Local(h, h', g, g', a)
    ensures OwnOk(h'.chunks, g')
  {
  }

  lemma LocalArenas(h: Heap, h': Heap, g: View, g': View, a: nat)
    requires Inv(h, g) && Local(h, h', g, g', a) && ArenaOk(h'.chunks, h'.arenas, g', a)
    ensures ArenasOk(h'.chunks, h'.arenas, g')
  {
    forall b | b in g'.layout ensures ArenaOk(h'.chunks, h'.arenas, g', b) {
      if b != a { OtherArena(h, h', g, g', a, b); }
    }
    hide ArenaOk, FreeOk, OwnOk, RegionsOk, BytesOk, ArenaListOk, SameOutside, TilesOf, TransitOk;
  }

  /** An arena-local step keeps the invariant if it keeps that arena, the free list and the bytes. */
  lemma LocalInv(h: Heap, h': Heap, g: View, g': View, a: nat)
    requires Inv(h, g) && Local(h, h', g, g', a)
    requires ArenaOk(h'.chunks, h'.arenas, g', a) && FreeOk(h'.chunks, h'.free, g') && BytesOk(h'.chunks, h'.bytes)
    ensures Inv(h', g')
  {
    LocalRegions(h, h', g, g', a);
    LocalOwn(h, h', g, g', a);
    LocalArenas(h, h', g, g', a);
    hide ArenasOk, FreeOk, OwnOk, RegionsOk, BytesOk, SameOutside, TilesOf, TransitOk;
  }

  // ---- the moves the allocator is made of

  /** Chunk c and where it sits: the i-th tile of arena a. */
  ghost predicate Sits(h: Heap, g: View, c: nat, a: nat, i: nat) {
    && Within(h.chunks, c, a) && a in g.layout && i < |g.layout[a]| && g.layout[a][i] == c
    && ArenaOk(h.chunks, h.arenas, g, a)
  }

  lemma WhereIs(h: Heap, g: View, c: nat) returns (a: nat, i: nat)
    requires Inv(h, g) && c in h.chunks && !h.chunks[c].isMmap
    ensures a == h.chunks[c].arena && Sits(h, g, c, a, i)
  {
    a := h.chunks[c].arena;
    assert ArenaOk(h.chunks, h.arenas, g, a);
    i := L.FindIndex(g.layout[a], c);
  }

  /** removeFromFreeList: c leaves the free list and is in transit. */
  ghost function Unlisted(g: View, c: nat): View
    requires c in g.fl
  {
    g.(fl := L.Without(g.fl, L.IndexOf(g.fl, c)), xs := g.xs + {c})
  }

  lemma UnlistInv(h: Heap, g: View, c: nat)
    requires Inv(h, g) && c in g.fl
    ensures Inv(h.(free := L.Remove(h.free, c)), Unlisted(g, c))
  {
    UnlistFree(h, g, c);
    UnlistTiles(h, g, c);
    hide L.Remove, L.Without, L.Listed, FreeOk, ArenasOk;
  }

  lemma UnlistTiles(h: Heap, g: View, c: nat)
    requires ArenasOk(h.chunks, h.arenas, g) && c in g.fl
    ensures ArenasOk(h.chunks, h.arenas, Unlisted(g, c))
  {
    forall a | a in g.layout ensures ArenaOk(h.chunks, h.arenas, Unlisted(g, c), a) {
      assert ArenaOk(h.chunks, h.arenas, g, a);
    }
    hide ArenaOk;
  }

  lemma UnlistFree(h: Heap, g: View, c: nat)
    requires FreeOk(h.chunks, h.free, g) && c in g.fl
    ensures FreeOk(h.chunks, L.Remove(h.free, c), Unlisted(g, c))
  {
    L.RemoveLists(h.free, g.fl, L.IndexOf(g.fl, c));
    L.WithoutElems(g.fl, L.IndexOf(g.fl, c));
    hide L.Remove, L.Without, L.Listed;
  }

  /** addToFreeList: a chunk in transit goes on the free list; its neighbours must not be there. */
  ghost function Enlisted(g: View, c: nat): View { g.(fl := [c] + g.fl, xs := g.xs - {c}) }

  ghost predicate QuietNeighbours(h: Heap, g: View, a: nat, i: nat) {
    && a in g.layout && i < |g.layout[a]|
    && (i + 1 < |g.layout[a]| ==> !Idle(h.chunks, g.xs, g.layout[a][i + 1]))
    && (i > 0 ==> !Idle(h.chunks, g.xs, g.layout[a][i - 1]))
  }

  lemma EnlistInv(h: Heap, g: View, c: nat, a: nat, i: nat)
    requires Inv(h, g) && c in g.xs && c != 0 && Sits(h, g, c, a, i) && QuietNeighbours(h, g, a, i)
    ensures Inv(h.(free := L.PushFront(h.free, c)), Enlisted(g, c))
  {
    var h', g' := h.(free := L.PushFront(h.free, c)), Enlisted(g, c);
    L.PushFrontLists(h.free, g.fl, c);
    forall b | b in g.layout ensures ArenaOk(h'.chunks, h'.arenas, g', b) {
      assert ArenaOk(h.chunks, h.arenas, g, b);
      EnlistPairs(h, g, c, a, i, b);
    }
    hide L.PushFront, L.Listed;
    assert FreeOk(h'.chunks, h'.free, g');
  }

  lemma EnlistPairs(h: Heap, g: View, c: nat, a: nat, i: nat, b: nat)
    requires Sits(h, g, c, a, i) && QuietNeighbours(h, g, a, i) && ArenaOk(h.chunks, h.arenas, g, b)
    ensures NoIdlePair(h.chunks, g.xs - {c}, g.layout[b])
  {
    var cs := g.layout[b];
    Spread(h.chunks, cs, b, h.arenas[b].totalSize);
    forall k | 0 <= k < |cs| - 1 ensures !(Idle(h.chunks, g.xs - {c}, cs[k]) && Idle(h.chunks, g.xs - {c}, cs[k + 1])) {
      assert TileAt(h.chunks, cs, b, h.arenas[b].totalSize, k) && TileAt(h.chunks, cs, b, h.arenas[b].totalSize, k + 1);
    }
  }

  /** Only the magic of chunks may differ. */
  lemma TiledSame(m: Chunks, m': Chunks, cs: seq<nat>, a: nat, total: nat)
    requires Tiled(m, cs, a, total)
    requires forall c :: c in cs && c in m ==> c in m' && m'[c] == m[c].(free := m'[c].free)
    ensures Tiled(m', cs, a, total)
  {
    forall k | 0 <= k < |cs| ensures TileAt(m', cs, a, total, k) {
      assert TileAt(m, cs, a, total, k);
      assert cs[k] in cs;
    }
  }

  function SetFree(m: Chunks, c: nat, free: bool): Chunks {
    if c in m then m[c := m[c].(free := free)] else m
  }

  function AddActive(arenas: map<nat, Arena>, a: nat, d: int): map<nat, Arena> {
    if a in arenas && arenas[a].activeChunks + d >= 0
    then arenas[a := arenas[a].(activeChunks := arenas[a].activeChunks + d)] else arenas
  }

  /** Changing one magic, in step with the counter and the set of chunks in transit. */
  lemma FlipInv(h: Heap, h': Heap, g: View, g': View, c: nat, a: nat, i: nat, free: bool)
    requires Inv(h, g) && Sits(h, g, c, a, i) && h.chunks[c].free != free && (c in g.xs <==> !free)
    requires h' == h.(chunks := SetFree(h.chunks, c, free), arenas := h'.arenas)
    requires g' == g.(xs := if free then g.xs + {c} else g.xs - {c})
    requires a in h'.arenas && h'.arenas == h.arenas[a := h'.arenas[a]]
    requires h'.arenas[a].totalSize == h.arenas[a].totalSize
    requires h'.arenas[a].activeChunks == |InUse(h'.chunks, g.layout[a])|
    ensures Inv(h', g')
  {
    TiledSame(h.chunks, h'.chunks, g.layout[a], a, h.arenas[a].totalSize);
    assert forall x :: Idle(h'.chunks, g'.xs, x) <==> Idle(h.chunks, g.xs, x);
    hide Tiled, InUse, L.Listed;
    assert ArenaOk(h'.chunks, h'.arenas, g', a);
    assert FreeOk(h'.chunks, h'.free, g');
    assert BytesOk(h'.chunks, h'.bytes);
    FlipLocal(h, h', g, g', c, a, i, free);
    hide Local, Inv;
    LocalInv(h, h', g, g', a);
  }

  lemma FlipLocal(h: Heap, h': Heap, g: View, g': View, c: nat, a: nat, i: nat, free: bool)
    requires Inv(h, g) && Sits(h, g, c, a, i)
    requires h' == h.(chunks := SetFree(h.chunks, c, free), arenas := h'.arenas)
    requires g' == g.(xs := if free then g.xs + {c} else g.xs - {c})
    requires a in h'.arenas && h'.arenas == h.arenas[a := h'.arenas[a]]
    requires h'.arenas[a].totalSize == h.arenas[a].totalSize
    ensures Local(h, h', g, g', a)
  {
    hide ArenasOk, FreeOk, RegionsOk, BytesOk;
  }

  /** A chunk in transit becomes allocated. */
  lemma TakeInv(h: Heap, g: View, c: nat, a: nat, i: nat)
    requires Inv(h, g) && c in g.xs && Sits(h, g, c, a, i)
    ensures Inv(h.(chunks := SetFree(h.chunks, c, false), arenas := AddActive(h.arenas, a, 1)), g.(xs := g.xs - {c}))
  {
    var m', cs := SetFree(h.chunks, c, false), g.layout[a];
    assert h.chunks[c].free;
    assert InUse(m', cs) == InUse(h.chunks, cs) + {c};
    hide Inv;
    FlipInv(h, h.(chunks := m', arenas := AddActive(h.arenas, a, 1)), g, g.(xs := g.xs - {c}), c, a, i, false);
  }

  /** An allocated chunk becomes free and is in transit. */
  lemma GiveInv(h: Heap, g: View, c: nat, a: nat, i: nat)
    requires Inv(h, g) && Live(h, c) && Sits(h, g, c, a, i)
    ensures Inv(h.(chunks := SetFree(h.chunks, c, true), arenas := AddActive(h.arenas, a, -1)), g.(xs := g.xs + {c}))
    ensures h.arenas[a].activeChunks > 0
  {
    var m', cs := SetFree(h.chunks, c, true), g.layout[a];
    assert c !in g.xs;
    assert c in InUse(h.chunks, cs);
    assert InUse(m', cs) == InUse(h.chunks, cs) - {c};
    hide Inv;
    FlipInv(h, h.(chunks := m', arenas := AddActive(h.arenas, a, -1)), g, g.(xs := g.xs + {c}), c, a, i, true);
  }

  /** The bytes that survive when a header is written at s. */
  function Erase(bytes: map<nat, nat>, s: nat, n: nat): map<nat, nat> {
    map b | b in bytes && !(s <= b < s + n) :: bytes[b]
  }

  lemma SplitFlags(m: Chunks, c: nat, size: nat, end: nat)
    requires c in m && m[c].size >= size + HDR && c + HDR + size !in m
    ensures var m', s := SplitAt(m, c, size, end), c + HDR + size;
      && m'.Keys == m.Keys + {s} && m'[s].free && !m'[s].isMmap && m'[s].arena == m[c].arena
      && (forall x :: x in m ==> m'[x].free == m[x].free && m'[x].isMmap == m[x].isMmap && m'[x].arena == m[x].arena)
      && (forall x :: x in m && x != c && (x != EndOf(m, c) || end <= x) ==> m'[x] == m[x])
      && (forall x :: x in m && x != c ==> m'[x].size == m[x].size)
      && m'[c].size == size
  {
  }

  /** The state after the i-th chunk of arena a was cut down to size. */
  ghost function SplitHeap(h: Heap, c: nat, size: nat, end: nat): Heap
    requires c in h.chunks && h.chunks[c].size >= size + HDR
  {
    h.(chunks := SplitAt(h.chunks, c, size, end), bytes := Erase(h.bytes, c + HDR + size, HDR))
  }

  ghost function SplitView(g: View, a: nat, i: nat, s: nat): View
    requires a in g.layout && i < |g.layout[a]|
  {
    g.(layout := g.layout[a := L.With(g.layout[a], i + 1, s)], xs := g.xs + {s})
  }

  ghost predicate SplitReady(h: Heap, g: View, c: nat, a: nat, i: nat, size: nat) {
    && Sits(h, g, c, a, i) && !Idle(h.chunks, g.xs, c)
    && size % 16 == 0 && h.chunks[c].size >= size + HDR + 16
  }

  lemma SplitArena(h: Heap, g: View, c: nat, a: nat, i: nat, size: nat)
    requires Inv(h, g) && SplitReady(h, g, c, a, i, size) && c + HDR + size !in h.chunks
    ensures var h', g' := SplitHeap(h, c, size, a + h.arenas[a].totalSize), SplitView(g, a, i, c + HDR + size);
      ArenaOk(h'.chunks, h'.arenas, g', a) && FreeOk(h'.chunks, h'.free, g')
  {
    var m, cs, total, s := h.chunks, g.layout[a], h.arenas[a].totalSize, c + HDR + size;
    var h', g' := SplitHeap(h, c, size, a + total), SplitView(g, a, i, s);
    SplitTiled(m, cs, a, total, i, size);
    SplitIdle(m, g.xs, cs, i, size, a + total);
    hide Tiled, SplitAt, L.Listed, InUse, L.With, Idle, OwnOk, RegionsOk, BytesOk;
    SplitPairs(m, g.xs, h'.chunks, g'.xs, cs, i, s);
    assert FreeOk(h'.chunks, h'.free, g');
  }

  lemma SplitIdle(m: Chunks, xs: set<nat>, cs: seq<nat>, i: nat, size: nat, end: nat)
    requires i < |cs| && cs[i] in m && m[cs[i]].size >= size + HDR && cs[i] + HDR + size !in m
    ensures var m', s := SplitAt(m, cs[i], size, end), cs[i] + HDR + size;
      && (forall x :: Idle(m', xs + {s}, x) <==> Idle(m, xs, x))
      && InUse(m', L.With(cs, i + 1, s)) == InUse(m, cs)
  {
    SplitFlags(m, cs[i], size, end);
    L.WithElems(cs, i + 1, cs[i] + HDR + size);
    hide SplitAt, L.With;
  }

  lemma SplitPairs(m: Chunks, xs: set<nat>, m': Chunks, xs': set<nat>, cs: seq<nat>, i: nat, s: nat)
    requires NoIdlePair(m, xs, cs) && i < |cs| && !Idle(m, xs, cs[i]) && s in xs'
    requires forall x :: x != s ==> (Idle(m', xs', x) <==> Idle(m, xs, x))
    ensures NoIdlePair(m', xs', L.With(cs, i + 1, s))
  {
    var t := L.With(cs, i + 1, s);
    forall k | 0 <= k < |t| - 1 ensures !(Idle(m', xs', t[k]) && Idle(m', xs', t[k + 1])) {
      if k < i { assert t[k] == cs[k] && t[k + 1] == cs[k + 1]; }
      else if k > i + 1 { assert t[k] == cs[k - 1] && t[k + 1] == cs[k - 1 + 1]; }
    }
  }

  lemma SplitOutside(m: Chunks, c: nat, size: nat, a: nat, end: nat)
    requires Within(m, c, a) && m[c].size >= size + HDR && c + HDR + size !in m
    requires EndOf(m, c) < end ==> Within(m, EndOf(m, c), a)
    ensures SameOutside(m, SplitAt(m, c, size, end), a)
  {
    SplitFlags(m, c, size, end);
    hide SplitAt;
  }

  lemma AlignedNext(c: nat, size: nat)
    requires Aligned(c) && size % 16 == 0
    ensures Aligned(c + HDR + size)
  {
  }

  lemma SplitMembers(m: Chunks, g: View, c: nat, a: nat, i: nat, size: nat, end: nat, arenas: map<nat, Arena>)
    requires OwnOk(m, g) && Within(m, c, a) && m[c].size >= size + HDR && c + HDR + size !in m
    requires c + HDR + size !in arenas
    requires size % 16 == 0 && a in g.layout && i < |g.layout[a]|
    ensures TilesOf(m, SplitAt(m, c, size, end), arenas, L.With(g.layout[a], i + 1, c + HDR + size), a)
  {
    var m', s, cs := SplitAt(m, c, size, end), c + HDR + size, L.With(g.layout[a], i + 1, c + HDR + size);
    SplitFlags(m, c, size, end);
    L.WithElems(g.layout[a], i + 1, s);
    AlignedNext(c, size);
    hide SplitAt, L.With, Aligned;
    forall d | Within(m', d, a) ensures d in cs && Aligned(d) && (d in m || d !in arenas) {
      if d != s { assert d in m && m[d].arena == a && !m[d].isMmap; }
    }
  }

  lemma SplitTransit(m: Chunks, g: View, c: nat, a: nat, size: nat, end: nat)
    requires OwnOk(m, g) && Within(m, c, a) && m[c].size >= size + HDR && c + HDR + size !in m
    ensures TransitOk(m, g.xs, SplitAt(m, c, size, end), g.xs + {c + HDR + size}, a)
  {
    SplitFlags(m, c, size, end);
    hide SplitAt, Aligned;
  }

  lemma SplitLocal(h: Heap, g: View, c: nat, a: nat, i: nat, size: nat)
    requires Inv(h, g) && SplitReady(h, g, c, a, i, size) && c + HDR + size !in h.chunks && c + HDR + size !in h.arenas
    ensures Local(h, SplitHeap(h, c, size, a + h.arenas[a].totalSize), g, SplitView(g, a, i, c + HDR + size), a)
  {
    SplitParts(h, g, c, a, i, size);
    hide Inv, ArenaOk, SplitAt, L.With, SameOutside, TilesOf, TransitOk;
  }

  lemma SplitParts(h: Heap, g: View, c: nat, a: nat, i: nat, size: nat)
    requires Inv(h, g) && SplitReady(h, g, c, a, i, size) && c + HDR + size !in h.chunks && c + HDR + size !in h.arenas
    ensures var m', s := SplitAt(h.chunks, c, size, a + h.arenas[a].totalSize), c + HDR + size;
      && SameOutside(h.chunks, m', a) && TilesOf(h.chunks, m', h.arenas, L.With(g.layout[a], i + 1, s), a)
      && TransitOk(h.chunks, g.xs, m', g.xs + {s}, a)
  {
    var end := a + h.arenas[a].totalSize;
    assert OwnOk(h.chunks, g);
    hide Inv, OwnOk, SplitAt, L.With, SameOutside, TilesOf, TransitOk;
    NextWithin(h, g, c, a, i);
    hide ArenaOk;
    SplitOutside(h.chunks, c, size, a, end);
    SplitMembers(h.chunks, g, c, a, i, size, end, h.arenas);
    SplitTransit(h.chunks, g, c, a, size, end);
  }

  /** Whatever chunk starts where the i-th chunk of a ends belongs to a. */
  lemma NextWithin(h: Heap, g: View, c: nat, a: nat, i: nat)
    requires Inv(h, g) && Sits(h, g, c, a, i)
    ensures i + 1 < |g.layout[a]| ==>
      EndOf(h.chunks, c) == g.layout[a][i + 1] && Within(h.chunks, EndOf(h.chunks, c), a)
    ensures EndOf(h.chunks, c) < a + h.arenas[a].totalSize <==> i + 1 < |g.layout[a]|
  {
    var cs := g.layout[a];
    Successor(h.chunks, cs, a, h.arenas[a].totalSize, i);
    if i + 1 < |cs| { assert TileAt(h.chunks, cs, a, h.arenas[a].totalSize, i + 1); }
  }

  /** No mapping starts strictly inside arena a. */
  lemma NotARoot(h: Heap, a: nat, s: nat)
    requires RegionsOk(h.chunks, h.arenas) && a in h.arenas && a < s < a + h.arenas[a].totalSize
    ensures !IsRoot(h.chunks, h.arenas, s)
  {
    assert IsRoot(h.chunks, h.arenas, a);
  }

  /** The header of the rest takes an address that no header and no mapping has. */
  lemma SplitRoom(h: Heap, g: View, c: nat, a: nat, i: nat, size: nat)
    requires Inv(h, g) && SplitReady(h, g, c, a, i, size)
    ensures c + HDR + size !in h.chunks && c + HDR + size !in h.arenas && c + HDR + size != 0
    ensures var h' := SplitHeap(h, c, size, a + h.arenas[a].totalSize); BytesOk(h'.chunks, h'.bytes)
  {
    var s := c + HDR + size;
    NoHeaderInside(h, g, c, s);
    InsideRoot(h, g, c);
    NotARoot(h, a, s);
    SplitFlags(h.chunks, c, size, a + h.arenas[a].totalSize);
    hide ArenasOk, FreeOk, OwnOk, RegionsOk, SplitAt, ArenaOk, ArenaListOk, Aligned;
  }

  lemma SplitInv(h: Heap, g: View, c: nat, a: nat, i: nat, size: nat)
    requires Inv(h, g) && SplitReady(h, g, c, a, i, size)
    ensures Inv(SplitHeap(h, c, size, a + h.arenas[a].totalSize), SplitView(g, a, i, c + HDR + size))
    ensures c + HDR + size !in h.chunks && c + HDR + size != 0
  {
    assert a in h.arenas;
    hide Inv, Local, ArenaOk, FreeOk, BytesOk;
    SplitRoom(h, g, c, a, i, size);
    SplitArena(h, g, c, a, i, size);
    SplitLocal(h, g, c, a, i, size);
    hide SplitHeap, SplitView;
    LocalInv(h, SplitHeap(h, c, size, a + h.arenas[a].totalSize), g, SplitView(g, a, i, c + HDR + size), a);
  }

  lemma MergeFlags(m: Chunks, c: nat, end: nat)
    requires c in m
    ensures var m', n := MergeAt(m, c, end), EndOf(m, c);
      && m'.Keys == m.Keys - {n}
      && (forall x :: x in m' ==> m'[x].free == m[x].free && m'[x].isMmap == m[x].isMmap && m'[x].arena == m[x].arena)
      && (forall x :: x in m' && x != c && (x != EndOf(m, n) || end <= x) ==> m'[x] == m[x])
      && (forall x :: x in m' && x != c ==> m'[x].size == m[x].size)
      && m'[c].size == m[c].size + HDR + SizeOf(m, n)
  {
  }

  /** The state after the i-th chunk of arena a absorbed the next one. */
  ghost function MergeHeap(h: Heap, c: nat, end: nat): Heap
    requires c in h.chunks
  {
    h.(chunks := MergeAt(h.chunks, c, end))
  }

  ghost function MergeView(g: View, a: nat, i: nat): View
    requires a in g.layout && i + 1 < |g.layout[a]|
  {
    g.(layout := g.layout[a := L.Without(g.layout[a], i + 1)], xs := g.xs - {g.layout[a][i + 1]})
  }

  ghost predicate MergeReady(h: Heap, g: View, c: nat, a: nat, i: nat) {
    Sits(h, g, c, a, i) && !Idle(h.chunks, g.xs, c) && i + 1 < |g.layout[a]| && g.layout[a][i + 1] in g.xs
  }

  lemma MergeIdle(m: Chunks, xs: set<nat>, cs: seq<nat>, a: nat, total: nat, i: nat)
    requires Tiled(m, cs, a, total) && i + 1 < |cs| && cs[i] in m && cs[i + 1] in xs && cs[i + 1] in m
    requires m[cs[i + 1]].free
    ensures var m' := MergeAt(m, cs[i], a + total);
      && (forall x :: Idle(m', xs - {cs[i + 1]}, x) <==> Idle(m, xs, x))
      && InUse(m', L.Without(cs, i + 1)) == InUse(m, cs)
  {
    assert TileAt(m, cs, a, total, i);
    Spread(m, cs, a, total);
    L.WithoutElems(cs, i + 1);
    hide Tiled;
    MergeFlags(m, cs[i], a + total);
    hide MergeAt, L.Without;
  }

  lemma MergeArena(h: Heap, g: View, c: nat, a: nat, i: nat)
    requires Inv(h, g) && MergeReady(h, g, c, a, i)
    ensures var h', g' := MergeHeap(h, c, a + h.arenas[a].totalSize), MergeView(g, a, i);
      ArenaOk(h'.chunks, h'.arenas, g', a) && FreeOk(h'.chunks, h'.free, g')
  {
    var m, cs, total := h.chunks, g.layout[a], h.arenas[a].totalSize;
    var h', g' := MergeHeap(h, c, a + total), MergeView(g, a, i);
    assert m[cs[i + 1]].free;
    hide OwnOk, RegionsOk, BytesOk, L.Listed;
    MergeTiled(m, cs, a, total, i);
    MergeIdle(m, g.xs, cs, a, total, i);
    hide Tiled, MergeAt, InUse, L.Without, Idle;
    MergePairs(m, g.xs, h'.chunks, g'.xs, cs, i);
  }

  lemma MergePairs(m: Chunks, xs: set<nat>, m': Chunks, xs': set<nat>, cs: seq<nat>, i: nat)
    requires NoIdlePair(m, xs, cs) && i + 1 < |cs| && !Idle(m, xs, cs[i])
    requires forall x :: Idle(m', xs', x) <==> Idle(m, xs, x)
    ensures NoIdlePair(m', xs', L.Without(cs, i + 1))
  {
    var t := L.Without(cs, i + 1);
    forall k | 0 <= k < |t| - 1 ensures !(Idle(m', xs', t[k]) && Idle(m', xs', t[k + 1])) {
      if k < i { assert t[k] == cs[k] && t[k + 1] == cs[k + 1]; }
      else if k > i { assert t[k] == cs[k + 1] && t[k + 1] == cs[k + 1 + 1]; }
    }
  }

  lemma MergeOutside(m: Chunks, c: nat, n: nat, a: nat, end: nat)
    requires Within(m, c, a) && n == EndOf(m, c) && Within(m, n, a)
    requires EndOf(m, n) < end ==> Within(m, EndOf(m, n), a)
    ensures SameOutside(m, MergeAt(m, c, end), a)
  {
    MergeFlags(m, c, end);
    hide MergeAt;
  }

  lemma MergeMembers(m: Chunks, g: View, c: nat, a: nat, i: nat, end: nat, arenas: map<nat, Arena>)
    requires OwnOk(m, g) && Within(m, c, a) && a in g.layout && i + 1 < |g.layout[a]| && L.Distinct(g.layout[a])
    requires EndOf(m, c) == g.layout[a][i + 1] && Within(m, EndOf(m, c), a)
    ensures var m', n := MergeAt(m, c, end), g.layout[a][i + 1];
      && TilesOf(m, m', arenas, L.Without(g.layout[a], i + 1), a)
      && TransitOk(m, g.xs, m', g.xs - {n}, a)
  {
    MergeFlags(m, c, end);
    L.WithoutElems(g.layout[a], i + 1);
    hide MergeAt, L.Without;
  }

  lemma MergeLocal(h: Heap, g: View, c: nat, a: nat, i: nat)
    requires Inv(h, g) && MergeReady(h, g, c, a, i)
    ensures Local(h, MergeHeap(h, c, a + h.arenas[a].totalSize), g, MergeView(g, a, i), a)
  {
    MergeParts(h, g, c, a, i);
    hide Inv, ArenaOk, MergeAt, L.Without, SameOutside, TilesOf, TransitOk;
  }

  lemma MergeParts(h: Heap, g: View, c: nat, a: nat, i: nat)
    requires Inv(h, g) && MergeReady(h, g, c, a, i)
    ensures var m', n := MergeAt(h.chunks, c, a + h.arenas[a].totalSize), g.layout[a][i + 1];
      && SameOutside(h.chunks, m', a) && TilesOf(h.chunks, m', h.arenas, L.Without(g.layout[a], i + 1), a)
      && TransitOk(h.chunks, g.xs, m', g.xs - {n}, a)
  {
    var cs, end := g.layout[a], a + h.arenas[a].totalSize;
    assert OwnOk(h.chunks, g);
    hide Inv, OwnOk, MergeAt, L.Without, SameOutside, TilesOf, TransitOk;
    NextWithin(h, g, c, a, i);
    NextWithin(h, g, cs[i + 1], a, i + 1);
    Spread(h.chunks, cs, a, h.arenas[a].totalSize);
    hide ArenaOk;
    MergeOutside(h.chunks, c, cs[i + 1], a, end);
    MergeMembers(h.chunks, g, c, a, i, end, h.arenas);
  }

  lemma MergeInv(h: Heap, g: View, c: nat, a: nat, i: nat)
    requires Inv(h, g) && MergeReady(h, g, c, a, i)
    ensures Inv(MergeHeap(h, c, a + h.arenas[a].totalSize), MergeView(g, a, i))
  {
    var h', g' := MergeHeap(h, c, a + h.arenas[a].totalSize), MergeView(g, a, i);
    MergeArena(h, g, c, a, i);
    MergeLocal(h, g, c, a, i);
    MergeFlags(h.chunks, c, a + h.arenas[a].totalSize);
    assert BytesOk(h'.chunks, h'.bytes);
    hide Local, ArenasOk, FreeOk, OwnOk, RegionsOk, MergeAt;
    LocalInv(h, h', g, g', a);
  }

  // ---- mappings come and go

  /** What mmap promises about a new mapping: page aligned (here: 16 suffices), in user space, and it
      overlaps nothing the allocator holds. It refuses a length of zero. */
  ghost predicate Fresh(h: Heap, r: nat, n: nat) {
    && r > 0 && Aligned(r) && n > 0 && r + n <= SPACE
    && forall q: nat :: IsRoot(h.chunks, h.arenas, q) ==> q + Len(h.chunks, h.arenas, q) <= r || r + n <= q
  }

  lemma FreshIsNew(h: Heap, g: View, r: nat, n: nat, x: nat)
    requires Inv(h, g) && Fresh(h, r, n) && r <= x < r + n
    ensures x !in h.chunks && x !in h.arenas
  {
    if x in h.chunks {
      InsideRoot(h, g, x);
    } else if x in h.arenas {
      assert ArenaOk(h.chunks, h.arenas, g, x);
      Spread(h.chunks, g.layout[x], x, h.arenas[x].totalSize);
      assert IsRoot(h.chunks, h.arenas, x);
    }
  }

  /** The heap with a new arena that is one allocated chunk. */
  ghost function ArenaHeap(h: Heap, a: nat, total: nat): Heap
    requires total >= AHDR + HDR
  {
    Heap(h.chunks[a + AHDR := Chunk(false, false, total - AHDR - HDR, 0, a)], h.free,
         h.arenas[a := Arena(total, 1)], L.PushFront(h.arenaList, a), h.arenaCount + 1, Erase(h.bytes, a, total))
  }

  ghost function ArenaView(g: View, a: nat): View {
    g.(layout := g.layout[a := [a + AHDR]], al := [a] + g.al)
  }

  lemma NewArenaTiles(h: Heap, g: View, a: nat, total: nat)
    requires Inv(h, g) && Fresh(h, a, total) && total >= AHDR + HDR + 16 && total % 16 == 0
    ensures ArenasOk(ArenaHeap(h, a, total).chunks, ArenaHeap(h, a, total).arenas, ArenaView(g, a))
  {
    var h', g', c := ArenaHeap(h, a, total), ArenaView(g, a), a + AHDR;
    FreshIsNew(h, g, a, total, a);
    FreshIsNew(h, g, a, total, c);
    assert ArenasOk(h.chunks, h.arenas, g);
    FirstTile(h, g, a, total);
    hide Inv, ArenaOk, Fresh;
    forall b | b in g.layout ensures ArenaOk(h'.chunks, h'.arenas, g', b) {
      assert ArenaOk(h.chunks, h.arenas, g, b);
      SameArena(h.chunks, h.arenas, g, h'.chunks, h'.arenas, g', b);
    }
  }

  lemma FirstTile(h: Heap, g: View, a: nat, total: nat)
    requires total >= AHDR + HDR + 16 && total % 16 == 0
    ensures ArenaOk(ArenaHeap(h, a, total).chunks, ArenaHeap(h, a, total).arenas, ArenaView(g, a), a)
  {
    var h', c := ArenaHeap(h, a, total), a + AHDR;
    assert InUse(h'.chunks, [c]) == {c};
    assert TileAt(h'.chunks, [c], a, total, 0);
  }

  lemma NewRegion(m: Chunks, arenas: map<nat, Arena>, m': Chunks, arenas': map<nat, Arena>, r: nat, n: nat)
    requires RegionsOk(m, arenas) && r > 0 && !IsRoot(m, arenas, r) && IsRoot(m', arenas', r)
    requires Len(m', arenas', r) == n && r + n <= SPACE
    requires forall q: nat :: IsRoot(m, arenas, q) ==> q + Len(m, arenas, q) <= r || r + n <= q
    requires forall q: nat :: q != r ==> (IsRoot(m', arenas', q) <==> IsRoot(m, arenas, q))
    requires forall q: nat :: q != r && IsRoot(m, arenas, q) ==> Len(m', arenas', q) == Len(m, arenas, q)
    requires forall q :: q in arenas' ==> q !in m'
    requires n > 0 && forall q: nat :: IsRoot(m, arenas, q) ==> Len(m, arenas, q) > 0
    ensures RegionsOk(m', arenas')
  {
    hide IsRoot, Len;
  }

  lemma RootsPositive(h: Heap, g: View, q: nat)
    requires Inv(h, g) && IsRoot(h.chunks, h.arenas, q)
    ensures Len(h.chunks, h.arenas, q) > 0
  {
    if q in h.arenas {
      assert ArenaOk(h.chunks, h.arenas, g, q);
      Spread(h.chunks, g.layout[q], q, h.arenas[q].totalSize);
    }
  }

  lemma NewArenaRegions(h: Heap, g: View, a: nat, total: nat)
    requires Inv(h, g) && Fresh(h, a, total) && total >= AHDR + HDR + 16
    ensures RegionsOk(ArenaHeap(h, a, total).chunks, ArenaHeap(h, a, total).arenas)
  {
    var h', c := ArenaHeap(h, a, total), a + AHDR;
    FreshIsNew(h, g, a, total, a);
    FreshIsNew(h, g, a, total, c);
    forall q: nat | IsRoot(h.chunks, h.arenas, q) ensures Len(h.chunks, h.arenas, q) > 0 { RootsPositive(h, g, q); }
    NewRegion(h.chunks, h.arenas, h'.chunks, h'.arenas, a, total);
  }

  lemma NewArenaOwn(h: Heap, g: View, a: nat, total: nat)
    requires FreeOk(h.chunks, h.free, g) && OwnOk(h.chunks, g) && BytesOk(h.chunks, h.bytes)
    requires total >= AHDR + HDR + 16 && Aligned(a) && a + AHDR !in h.chunks && a !in g.layout
    ensures var h', g' := ArenaHeap(h, a, total), ArenaView(g, a);
      FreeOk(h'.chunks, h'.free, g') && OwnOk(h'.chunks, g') && BytesOk(h'.chunks, h'.bytes)
  {
    assert Aligned(a + AHDR);
    hide L.PushFront, L.Listed, Aligned;
  }

  lemma NewArenaList(h: Heap, g: View, a: nat, total: nat)
    requires ArenaListOk(h, g) && total >= AHDR + HDR + 16 && a != 0 && a !in h.arenas
    ensures ArenaListOk(ArenaHeap(h, a, total), ArenaView(g, a))
  {
    L.PushFrontLists(h.arenaList, g.al, a);
    hide L.PushFront, L.Listed;
  }

  lemma NewArenaInv(h: Heap, g: View, a: nat, total: nat)
    requires Inv(h, g) && Fresh(h, a, total) && total >= AHDR + HDR + 16 && total % 16 == 0
    ensures Inv(ArenaHeap(h, a, total), ArenaView(g, a))
    ensures a + AHDR !in h.chunks && a !in h.arenas
  {
    assert a > 0 && Aligned(a);
    NewArenaTiles(h, g, a, total);
    NewArenaRegions(h, g, a, total);
    FreshIsNew(h, g, a, total, a);
    FreshIsNew(h, g, a, total, a + AHDR);
    assert a !in g.layout;
    hide Fresh, ArenaHeap, ArenaView, ArenasOk, RegionsOk, FreeOk, OwnOk, BytesOk, ArenaListOk, Aligned;
    NewArenaOwn(h, g, a, total);
    NewArenaList(h, g, a, total);
  }

  /** The heap without arena a, whose only chunk c is in transit. */
  ghost function DropHeap(h: Heap, c: nat, a: nat): Heap
    requires a in h.arenas && h.arenaCount > 0
  {
    Heap(h.chunks - {c}, h.free, h.arenas - {a}, L.Remove(h.arenaList, a), h.arenaCount - 1,
         Erase(h.bytes, a, h.arenas[a].totalSize))
  }

  ghost function DropView(g: View, c: nat, a: nat): View
    requires a in g.al
  {
    g.(layout := g.layout - {a}, al := L.Without(g.al, L.IndexOf(g.al, a)), xs := g.xs - {c})
  }

  lemma DropRegion(m: Chunks, arenas: map<nat, Arena>, m': Chunks, arenas': map<nat, Arena>)
    requires RegionsOk(m, arenas)
    requires forall q: nat :: IsRoot(m', arenas', q) ==>
      IsRoot(m, arenas, q) && Len(m', arenas', q) == Len(m, arenas, q)
    requires forall q :: q in arenas' ==> q in arenas
    requires forall c :: c in m' ==> c in m
    ensures RegionsOk(m', arenas')
  {
    hide IsRoot, Len;
  }

  lemma DropList(h: Heap, g: View, c: nat, a: nat)
    requires ArenaListOk(h, g) && a in h.arenas
    ensures a in g.al && h.arenaCount > 0 && ArenaListOk(DropHeap(h, c, a), DropView(g, c, a))
  {
    var k := L.IndexOf(g.al, a);
    L.RemoveLists(h.arenaList, g.al, k);
    L.WithoutElems(g.al, k);
    L.AtWithout(g.al, k);
    hide L.Remove, L.Without;
  }

  lemma DropTiles(h: Heap, g: View, c: nat, a: nat)
    requires ArenasOk(h.chunks, h.arenas, g) && Within(h.chunks, c, a) && a in h.arenas && a in g.al && h.arenaCount > 0
    ensures ArenasOk(DropHeap(h, c, a).chunks, DropHeap(h, c, a).arenas, DropView(g, c, a))
  {
    var h', g' := DropHeap(h, c, a), DropView(g, c, a);
    hide L.Without, L.Remove;
    forall b | b in g'.layout ensures ArenaOk(h'.chunks, h'.arenas, g', b) {
      assert ArenaOk(h.chunks, h.arenas, g, b);
      SameArena(h.chunks, h.arenas, g, h'.chunks, h'.arenas, g', b);
    }
    hide ArenaOk;
  }

  lemma DropRest(h: Heap, g: View, c: nat, a: nat)
    requires Inv(h, g) && Within(h.chunks, c, a) && a in h.arenas && g.layout[a] == [c] && c in g.xs && a in g.al
    requires h.arenaCount > 0
    ensures FreeOk(DropHeap(h, c, a).chunks, h.free, DropView(g, c, a))
    ensures OwnOk(DropHeap(h, c, a).chunks, DropView(g, c, a))
  {
    hide L.Without, L.Remove, L.Listed, ArenasOk, ArenaListOk, Aligned, BytesOk, Erase, RegionsOk;
  }

  lemma DropMappings(h: Heap, c: nat, a: nat)
    requires RegionsOk(h.chunks, h.arenas) && BytesOk(h.chunks, h.bytes) && Within(h.chunks, c, a) && a in h.arenas
    requires h.arenaCount > 0
    ensures var h' := DropHeap(h, c, a); RegionsOk(h'.chunks, h'.arenas) && BytesOk(h'.chunks, h'.bytes)
  {
    var h' := DropHeap(h, c, a);
    hide L.Remove;
    DropRegion(h.chunks, h.arenas, h'.chunks, h'.arenas);
    hide RegionsOk;
  }

  lemma DropArenaInv(h: Heap, g: View, c: nat, a: nat)
    requires Inv(h, g) && Sits(h, g, c, a, 0) && g.layout[a] == [c] && c in g.xs
    ensures a in g.al && h.arenaCount > 0 && Inv(DropHeap(h, c, a), DropView(g, c, a))
  {
    DropList(h, g, c, a);
    DropTiles(h, g, c, a);
    DropRest(h, g, c, a);
    DropMappings(h, c, a);
    assert DropHeap(h, c, a).free == h.free;
    hide DropHeap, DropView, ArenasOk, ArenaListOk, FreeOk, OwnOk, RegionsOk, BytesOk;
  }

  /** A large request is one mapping with one chunk. */
  ghost function MmapHeap(h: Heap, c: nat, n: nat): Heap
    requires n >= HDR
  {
    h.(chunks := h.chunks[c := Chunk(false, true, n - HDR, 0, 0)], bytes := Erase(h.bytes, c, n))
  }

  lemma MmapInv(h: Heap, g: View, c: nat, n: nat)
    requires Inv(h, g) && Fresh(h, c, n) && n >= HDR
    ensures Inv(MmapHeap(h, c, n), g) && c !in h.chunks
  {
    FreshIsNew(h, g, c, n, c);
    MmapTiles(h, g, c, n);
    MmapRegions(h, g, c, n);
    MmapBytes(h, g, c, n);
    MmapOwn(h, g, c, n);
    hide ArenasOk, ArenaListOk, FreeOk, OwnOk, RegionsOk, BytesOk;
    assert MmapHeap(h, c, n).free == h.free;
    assert ArenaListOk(MmapHeap(h, c, n), g) by { MmapArenas(h, g, c, n); }
  }

  lemma MmapArenas(h: Heap, g: View, c: nat, n: nat)
    requires ArenaListOk(h, g) && n >= HDR
    ensures ArenaListOk(MmapHeap(h, c, n), g)
  {
    hide L.Listed;
  }

  lemma MmapTiles(h: Heap, g: View, c: nat, n: nat)
    requires ArenasOk(h.chunks, h.arenas, g) && n >= HDR && c !in h.chunks
    ensures ArenasOk(MmapHeap(h, c, n).chunks, MmapHeap(h, c, n).arenas, g)
  {
    var h' := MmapHeap(h, c, n);
    forall b | b in g.layout ensures ArenaOk(h'.chunks, h'.arenas, g, b) {
      assert ArenaOk(h.chunks, h.arenas, g, b);
      SameArena(h.chunks, h.arenas, g, h'.chunks, h'.arenas, g, b);
    }
    hide ArenaOk;
  }

  lemma MmapRegions(h: Heap, g: View, c: nat, n: nat)
    requires Inv(h, g) && Fresh(h, c, n) && n >= HDR && c !in h.chunks && c !in h.arenas
    ensures RegionsOk(MmapHeap(h, c, n).chunks, MmapHeap(h, c, n).arenas)
  {
    var h' := MmapHeap(h, c, n);
    assert RegionsOk(h.chunks, h.arenas);
    forall q: nat | IsRoot(h.chunks, h.arenas, q) ensures Len(h.chunks, h.arenas, q) > 0 { RootsPositive(h, g, q); }
    hide Inv, Aligned;
    NewRegion(h.chunks, h.arenas, h'.chunks, h'.arenas, c, n);
  }

  lemma MmapOwn(h: Heap, g: View, c: nat, n: nat)
    requires FreeOk(h.chunks, h.free, g) && OwnOk(h.chunks, g) && Fresh(h, c, n) && n >= HDR && c !in h.chunks
    ensures FreeOk(MmapHeap(h, c, n).chunks, h.free, g) && OwnOk(MmapHeap(h, c, n).chunks, g)
  {
    hide Aligned, L.Listed;
  }

  lemma MmapBytes(h: Heap, g: View, c: nat, n: nat)
    requires Inv(h, g) && n >= HDR
    ensures BytesOk(MmapHeap(h, c, n).chunks, MmapHeap(h, c, n).bytes)
  {
  }

  ghost function MunmapHeap(h: Heap, c: nat): Heap {
    h.(chunks := h.chunks - {c}, bytes := Erase(h.bytes, c, HDR + SizeOf(h.chunks, c)))
  }

  lemma MunmapTiles(h: Heap, g: View, c: nat)
    requires ArenasOk(h.chunks, h.arenas, g) && c in h.chunks && h.chunks[c].isMmap
    ensures ArenasOk(MunmapHeap(h, c).chunks, MunmapHeap(h, c).arenas, g)
  {
    var h' := MunmapHeap(h, c);
    forall b | b in g.layout ensures ArenaOk(h'.chunks, h'.arenas, g, b) {
      assert ArenaOk(h.chunks, h.arenas, g, b);
      SameArena(h.chunks, h.arenas, g, h'.chunks, h'.arenas, g, b);
    }
  }

  lemma MunmapInv(h: Heap, g: View, c: nat)
    requires Inv(h, g) && c in h.chunks && h.chunks[c].isMmap
    ensures Inv(MunmapHeap(h, c), g)
  {
    var h' := MunmapHeap(h, c);
    MunmapTiles(h, g, c);
    hide ArenasOk;
    DropRegion(h.chunks, h.arenas, h'.chunks, h'.arenas);
    MunmapRest(h.chunks, h.free, h.bytes, g, c);
    hide RegionsOk, FreeOk, OwnOk, BytesOk, L.Listed;
  }

  lemma MunmapRest(m: Chunks, free: L.List, bytes: map<nat, nat>, g: View, c: nat)
    requires FreeOk(m, free, g) && OwnOk(m, g) && BytesOk(m, bytes) && c in m && m[c].isMmap
    ensures FreeOk(m - {c}, free, g) && OwnOk(m - {c}, g) && BytesOk(m - {c}, Erase(bytes, c, HDR + SizeOf(m, c)))
  {
    hide L.Listed, Aligned;
  }

  // ---- what a client sees

  ghost function ByteAt(bytes: map<nat, nat>, x: nat): int { if x in bytes then bytes[x] else -1 }

  /** Byte k of the payload at c; -1 where the client has not stored anything. */
  ghost function Byte(h: Heap, c: nat, k: nat): int {
    ByteAt(h.bytes, c + HDR + k)
  }

  /** The first n bytes of the payload of chunk c in h are those of chunk d in h'. */
  ghost predicate Copied(h: Heap, c: nat, h': Heap, d: nat, n: nat) {
    forall k: nat :: k < n ==> Byte(h', d, k) == Byte(h, c, k)
  }

  ghost predicate Prefix(h: Heap, h': Heap, c: nat, n: nat) { Copied(h, c, h', c, n) }

  /** Every live chunk other than c keeps its address, size and contents, and no other chunk except
      possibly c is live afterwards. */
  ghost predicate Keeps(h: Heap, h': Heap, c: nat) {
    && (forall d :: Live(h, d) && d != c ==>
          Live(h', d) && SizeOf(h'.chunks, d) == SizeOf(h.chunks, d) && Prefix(h, h', d, SizeOf(h.chunks, d)))
    && (forall d :: Live(h', d) && d != c ==> Live(h, d))
  }

  lemma KeepsTrans(h: Heap, h': Heap, h'': Heap, c: nat)
    requires Keeps(h, h', c) && Keeps(h', h'', c)
    ensures Keeps(h, h'', c)
  {
    forall d: nat | Live(h, d) && d != c ensures Prefix(h, h'', d, SizeOf(h.chunks, d)) {
      assert Prefix(h, h', d, SizeOf(h.chunks, d)) && Prefix(h', h'', d, SizeOf(h.chunks, d));
    }
  }

  lemma KeepsFlip(h: Heap, h': Heap, c: nat, free: bool)
    requires h'.chunks == SetFree(h.chunks, c, free) && h'.bytes == h.bytes
    ensures Keeps(h, h', c)
  {
  }

  lemma SplitKeeps(h: Heap, g: View, c: nat, size: nat, end: nat)
    requires Inv(h, g) && c in h.chunks && h.chunks[c].size >= size + HDR && c + HDR + size !in h.chunks
    ensures Keeps(h, SplitHeap(h, c, size, end), c) && Prefix(h, SplitHeap(h, c, size, end), c, size)
  {
    var h', s := SplitHeap(h, c, size, end), c + HDR + size;
    SplitFlags(h.chunks, c, size, end);
    hide SplitAt;
    forall d: nat | Live(h, d) && d != c ensures Prefix(h, h', d, SizeOf(h.chunks, d)) {
      if d < c { Disjoint(h, g, d, c); } else { Disjoint(h, g, c, d); }
    }
  }

  lemma MergeKeeps(h: Heap, c: nat, end: nat)
    requires c in h.chunks && (EndOf(h.chunks, c) in h.chunks ==> h.chunks[EndOf(h.chunks, c)].free)
    ensures Keeps(h, MergeHeap(h, c, end), c) && Prefix(h, MergeHeap(h, c, end), c, SizeOf(h.chunks, c))
  {
    MergeFlags(h.chunks, c, end);
    hide MergeAt;
  }

  /** A mapping that comes or goes touches no byte of a chunk outside it. */
  lemma RegionKeeps(h: Heap, h': Heap, g: View, c: nat, r: nat, n: nat)
    requires Inv(h, g) && h'.bytes == Erase(h.bytes, r, n)
    requires forall d :: d in h.chunks && d != c ==> d in h'.chunks && h'.chunks[d] == h.chunks[d]
    requires forall d :: d in h'.chunks && d != c ==> d in h.chunks
    requires forall q: nat :: IsRoot(h.chunks, h.arenas, q) && q != r ==>
      q + Len(h.chunks, h.arenas, q) <= r || r + n <= q
    requires forall d :: d in h.chunks && d != c ==> RootOf(h.chunks, d) != r
    ensures Keeps(h, h', c)
  {
    forall d: nat | Live(h, d) && d != c ensures Prefix(h, h', d, SizeOf(h.chunks, d)) { InsideRoot(h, g, d); }
  }

  // ---- positions in the view

  ghost predicate Seat(g: View, c: nat, a: nat, i: nat) {
    a in g.layout && i < |g.layout[a]| && g.layout[a][i] == c
  }

  lemma Seated(h: Heap, g: View, c: nat, a: nat, i: nat)
    requires Inv(h, g) && Seat(g, c, a, i)
    ensures Sits(h, g, c, a, i) && a in h.arenas && h.chunks[c].arena == a && !h.chunks[c].isMmap
    ensures EndOf(h.chunks, c) < a + h.arenas[a].totalSize <==> i + 1 < |g.layout[a]|
    ensures i + 1 < |g.layout[a]| ==> EndOf(h.chunks, c) == g.layout[a][i + 1] && EndOf(h.chunks, c) in h.chunks
    ensures h.chunks[c].prevPhys == L.At(g.layout[a], i - 1)
    ensures c != 0 && h.chunks[c].size % 16 == 0
  {
    assert ArenaOk(h.chunks, h.arenas, g, a);
    assert TileAt(h.chunks, g.layout[a], a, h.arenas[a].totalSize, i);
    NextWithin(h, g, c, a, i);
    InsideRoot(h, g, c);
  }

  /** The k-th tile of arena a, or NULL. */
  ghost function Tile(g: View, a: nat, k: int): nat { if a in g.layout then L.At(g.layout[a], k) else 0 }

  /** The neighbours of the i-th tile are not on the free list. */
  ghost predicate QuietNext(g: View, a: nat, i: nat) { Tile(g, a, i + 1) !in g.fl }

  ghost predicate QuietPrev(g: View, a: nat, i: nat) { Tile(g, a, i - 1) !in g.fl }

  /** Free means on the list or in transit, and two neighbours are never both on the list. */
  lemma FreeMeansListed(h: Heap, g: View)
    requires Inv(h, g)
    ensures forall c :: c in h.chunks && h.chunks[c].free && c !in g.xs <==> c in g.fl
    ensures forall c :: c in g.fl ==> c != 0 && c in h.chunks && h.chunks[c].free && !h.chunks[c].isMmap
    ensures forall c :: c in g.xs ==> c in h.chunks && h.chunks[c].free && c !in g.fl
    ensures forall a, k :: a in g.layout && 0 <= k < |g.layout[a]| - 1 ==>
      !(g.layout[a][k] in g.fl && g.layout[a][k + 1] in g.fl)
  {
    forall c | c in h.chunks && h.chunks[c].free ensures !h.chunks[c].isMmap { }
    forall a, k | a in g.layout && 0 <= k < |g.layout[a]| - 1
      ensures !(g.layout[a][k] in g.fl && g.layout[a][k + 1] in g.fl)
    {
      assert ArenaOk(h.chunks, h.arenas, g, a);
    }
  }

  /** What the header of c says about the chunk behind it. */
  ghost predicate NextKnown(h: Heap, g: View, c: nat, a: nat, i: nat) {
    && c in h.chunks && a in h.arenas && a in g.layout && h.chunks[c].arena == a
    && (EndOf(h.chunks, c) < a + h.arenas[a].totalSize <==> i + 1 < |g.layout[a]|)
    && (i + 1 < |g.layout[a]| ==> EndOf(h.chunks, c) == g.layout[a][i + 1] && EndOf(h.chunks, c) in h.chunks)
    && (i + 1 < |g.layout[a]| ==> (h.chunks[EndOf(h.chunks, c)].free <==> g.layout[a][i + 1] in g.fl))
    && (i + 1 >= |g.layout[a]| || g.layout[a][i + 1] !in g.fl ==> QuietNext(g, a, i))
  }

  lemma NextIs(h: Heap, g: View, c: nat, a: nat, i: nat)
    requires Inv(h, g) && Seat(g, c, a, i) && g.xs <= {c}
    ensures NextKnown(h, g, c, a, i) && (c in g.xs ==> c !in g.fl)
  {
    Seated(h, g, c, a, i);
    FreeMeansListed(h, g);
    assert ArenaOk(h.chunks, h.arenas, g, a);
    Spread(h.chunks, g.layout[a], a, h.arenas[a].totalSize);
    assert 0 !in g.fl;
    hide Inv, ArenaOk;
  }

  lemma ListAll(h: Heap, g: View, c: nat, a: nat, i: nat)
    requires Inv(h, g) && c in g.xs && Seat(g, c, a, i) && QuietNext(g, a, i) && QuietPrev(g, a, i)
    ensures Inv(h.(free := L.PushFront(h.free, c)), Enlisted(g, c))
  {
    Seated(h, g, c, a, i);
    FreeMeansListed(h, g);
    hide Inv, Seat;
    EnlistInv(h, g, c, a, i);
  }

  /** Chunk c now has size n; it stays where it was, nothing in front of it changed, and its payload
      up to the smaller size and every other chunk are untouched. */
  ghost predicate Resized(h: Heap, g: View, h': Heap, g': View, c: nat, a: nat, i: nat, n: nat) {
    && Keeps(h, h', c) && c in h.chunks && c in h'.chunks
    && h'.chunks[c].free == h.chunks[c].free && h'.chunks[c].size == n
    && Prefix(h, h', c, if n < h.chunks[c].size then n else h.chunks[c].size)
    && SeatKept(g, g', c, a, i)
    && h'.arenas == h.arenas && h'.arenaCount == h.arenaCount
  }

  ghost predicate SeatKept(g: View, g': View, c: nat, a: nat, i: nat) {
    && Seat(g', c, a, i) && g'.xs == g.xs && c !in g'.fl
    && (forall k: int :: k < i ==>
          Tile(g', a, k) == Tile(g, a, k) && (Tile(g, a, k) in g'.fl <==> Tile(g, a, k) in g.fl))
  }

  lemma AbsorbView(g: View, g': View, c: nat, a: nat, i: nat)
    requires Seat(g, c, a, i) && c !in g.fl && i + 1 < |g.layout[a]| && g.layout[a][i + 1] in g.fl
    requires L.Distinct(g.layout[a]) && L.Distinct(g.fl)
    requires g.layout[a][i + 1] !in g.xs && g.layout[a][i + 1] != 0 && 0 !in g.fl
    requires Tile(g, a, i + 2) !in g.fl
    requires g' == MergeView(Unlisted(g, g.layout[a][i + 1]), a, i)
    ensures SeatKept(g, g', c, a, i) && QuietNext(g', a, i)
  {
    var n := g.layout[a][i + 1];
    L.WithoutElems(g.fl, L.IndexOf(g.fl, n));
    L.AtWithout(g.layout[a], i + 1);
    assert g'.layout[a] == L.Without(g.layout[a], i + 1);
    hide L.Without;
    assert L.At(g'.layout[a], i) == c;
  }

  lemma AbsorbResized(h: Heap, g: View, h1: Heap, g1: View, h': Heap, g': View, c: nat, a: nat, i: nat)
    requires Inv(h, g) && Seat(g, c, a, i) && c !in g.fl && i + 1 < |g.layout[a]| && g.layout[a][i + 1] in g.fl
    requires c in h.chunks && a in h.arenas
    requires h1 == h.(free := h1.free) && g1 == Unlisted(g, g.layout[a][i + 1])
    requires h' == MergeHeap(h1, c, a + h.arenas[a].totalSize) && g' == MergeView(g1, a, i)
    ensures Resized(h, g, h', g', c, a, i, h.chunks[c].size + HDR + SizeOf(h.chunks, g.layout[a][i + 1]))
    ensures QuietNext(g', a, i)
  {
    var cs, n := g.layout[a], g.layout[a][i + 1];
    AbsorbReady(h, g, c, a, i);
    hide Inv;
    MergeFlags(h.chunks, c, a + h.arenas[a].totalSize);
    MergeKeeps(h1, c, a + h.arenas[a].totalSize);
    AbsorbView(g, g', c, a, i);
    hide Seat, QuietNext, QuietPrev, MergeView, Unlisted, MergeAt, SeatKept;
    assert Keeps(h, h', c) && Prefix(h, h', c, h.chunks[c].size);
  }

  lemma AbsorbReady(h: Heap, g: View, c: nat, a: nat, i: nat)
    requires Inv(h, g) && Seat(g, c, a, i) && c !in g.fl && i + 1 < |g.layout[a]| && g.layout[a][i + 1] in g.fl
    ensures c in h.chunks && a in h.arenas && EndOf(h.chunks, c) == g.layout[a][i + 1] && EndOf(h.chunks, c) in h.chunks
    ensures h.chunks[EndOf(h.chunks, c)].free && L.Distinct(g.layout[a]) && L.Distinct(g.fl) && 0 !in g.fl
    ensures g.layout[a][i + 1] !in g.xs && g.layout[a][i + 1] != 0 && Tile(g, a, i + 2) !in g.fl
  {
    Seated(h, g, c, a, i);
    FreeMeansListed(h, g);
    assert ArenaOk(h.chunks, h.arenas, g, a);
    Spread(h.chunks, g.layout[a], a, h.arenas[a].totalSize);
    if i + 2 < |g.layout[a]| { assert !(g.layout[a][i + 1] in g.fl && g.layout[a][i + 1 + 1] in g.fl); }
  }

  // ---- what malloc, free and realloc go through

  ghost predicate NothingFits(h: Heap, g: View, size: nat) {
    forall j :: 0 <= j < |g.fl| ==> SizeOf(h.chunks, g.fl[j]) < size
  }

  ghost predicate IsFirstFit(h: Heap, g: View, size: nat, c: nat) {
    exists k :: 0 <= k < |g.fl| && g.fl[k] == c && SizeOf(h.chunks, c) >= size
      && forall j :: 0 <= j < k ==> SizeOf(h.chunks, g.fl[j]) < size
  }

  /** free(c0) is under way: the space that contains c0 is now the chunk c, the i-th tile of arena a,
      in transit; the arena has one active chunk less; no other chunk changed. */
  ghost predicate Freeing(h0: Heap, h: Heap, g: View, c0: nat, c: nat, a: nat, i: nat) {
    && Keeps(h0, h, c0) && !Live(h, c0) && g.xs == {c} && Seat(g, c, a, i)
    && a in h0.arenas && a in h.arenas && h.arenas.Keys == h0.arenas.Keys && h.arenaCount == h0.arenaCount
    && h.arenas[a] == h0.arenas[a].(activeChunks := h.arenas[a].activeChunks)
    && h.arenas[a].activeChunks + 1 == h0.arenas[a].activeChunks
  }

  ghost predicate CutReady(h: Heap, g: View, c: nat, a: nat, i: nat, size: nat) {
    && Seat(g, c, a, i) && c !in g.fl && c in h.chunks && size % 16 == 0 && h.chunks[c].size >= size + HDR + 16
  }

  ghost predicate CutSeats(g0: View, g: View, c: nat, a: nat, i: nat, s: nat) {
    && Seat(g, s, a, i + 1) && s != 0 && s !in g0.xs && g.xs == g0.xs + {s}
    && Tile(g, a, i) == c && c !in g.fl && c != 0
    && (forall k: int :: k < i ==>
          Tile(g, a, k) == Tile(g0, a, k) != s && (Tile(g0, a, k) in g.fl <==> Tile(g0, a, k) in g0.fl))
  }

  /** Chunk c is cut down to size and the free rest at s is in transit behind it; everything in front
      of c, and every other chunk, is as it was. */
  ghost predicate Cutting(h0: Heap, g0: View, h: Heap, g: View, c: nat, a: nat, i: nat, size: nat) {
    && Keeps(h0, h, c) && Prefix(h0, h, c, size)
    && c in h0.chunks && c in h.chunks && h.chunks[c].size == size <= h0.chunks[c].size
    && h.chunks[c].free == h0.chunks[c].free
    && h.arenas == h0.arenas && h.arenaCount == h0.arenaCount
    && CutSeats(g0, g, c, a, i, c + HDR + size) && c + HDR + size in h.chunks && h.chunks[c + HDR + size].free
  }

  const MAX_REQUEST: nat := 0x1_0000_0000_0000_0000 - 4144

  /** size rounded up to 16, in 64-bit arithmetic. */
  function Round16(size: nat): nat { AlignDown(Wrap64(size + 15), 16) }

  function ArenaSize(size: nat): (n: nat)
    ensures n >= AHDR + HDR + size && n % 16 == 0
  {
    var needed := AHDR + HDR + size;
    if needed > ARENA then AlignUp(needed, PAGE) else ARENA
  }

  /** A new arena has 64 KiB, or the least number of pages that holds the headers and the request. */
  lemma ArenaExact(size: nat, n: nat)
    ensures ArenaSize(size) == n <==>
      if size + 80 <= 0x1_0000 then n == 0x1_0000 else n % 4096 == 0 && size + 80 <= n < size + 80 + 4096
  {
    var need, a := AHDR + HDR + size, ArenaSize(size);
    if need > ARENA && n % PAGE == 0 && need <= n {
      AlignUpLeast(need, PAGE, n);
      if n < need + PAGE { MultiplesApart(n / PAGE, a / PAGE, PAGE); }
    }
  }

  /** What is left of a new arena behind the first chunk is nothing, or room for a chunk. */
  predicate NoTail(size: nat) {
    var remainder := ArenaSize(size) - AHDR - HDR - size;
    remainder == 0 || remainder >= HDR + 16
  }

  /** realloc can keep the chunk: it is large enough, or is so together with a free chunk behind it. */
  ghost predicate RoomFor(h: Heap, c: nat, size: nat) {
    var next := EndOf(h.chunks, c);
    c in h.chunks && (h.chunks[c].size >= size
      || (h.chunks[c].arena in h.arenas && next < h.chunks[c].arena + h.arenas[h.chunks[c].arena].totalSize
          && next in h.chunks && h.chunks[next].free && h.chunks[c].size + HDR + h.chunks[next].size >= size))
  }

  /** realloc keeps the address. */
  ghost predicate Stays(h: Heap, c: nat, size: nat) {
    && c in h.chunks
    && if h.chunks[c].isMmap then h.chunks[c].size >= size && h.chunks[c].size - size < 4096 else RoomFor(h, c, size)
  }

  /** realloc asks malloc for a chunk: there is none yet, or the one there is cannot stay. */
  ghost predicate Moves(h: Heap, ptr: nat, size: nat) {
    ptr == 0 || (size > 0 && ptr >= HDR && Live(h, ptr - HDR) && !Stays(h, ptr - HDR, size))
  }

  /** The request wraps to a mapping of one page, which is too small for what chunk c holds. */
  ghost predicate Spills(h: Heap, c: nat, size0: nat, mem: nat) {
    U64 - 48 < size0 <= U64 - 16 && MmapOk(mem) && SizeOf(h.chunks, c) > PAGE - HDR
  }

  /** Every chunk lies in user space. */
  lemma InSpace(h: Heap, g: View, c: nat)
    requires Inv(h, g) && c in h.chunks
    ensures SizeOf(h.chunks, c) < SPACE
  {
    InsideRoot(h, g, c);
  }

  lemma RoundAgain(size: nat)
    requires size % 16 == 0 && size < U64
    ensures Round16(size) == size
  {
    WrapOnce(size + 15);
  }

  /** What a wrapped request asks mmap for: one page just below 2^64 - 16, nothing before that. */
  lemma OnePage(size0: nat)
    requires MAX_REQUEST < size0 <= U64 - 16
    ensures var size := Round16(size0);
      size > MAX_REQUEST && size >= LARGE && LargePages(size) == if size0 > U64 - 48 then PAGE else 0
  {
    RoundWraps(size0);
    RoundFits(size0);
    var size := Round16(size0);
    WrapOnce(size0 + 15);
    WrapOnce(size + HDR);
    WrapOnce(Wrap64(size + HDR) + 4095);
    hide Wrap64;
  }

  /** In user space, a chunk of at least the rounded size holds the request exactly up to MAX_REQUEST. */
  lemma HoldsRequest(size0: nat, n: nat)
    requires 0 < size0 < U64 && n < SPACE && (size0 <= MAX_REQUEST ==> n >= Round16(size0))
    ensures n >= size0 <==> size0 <= MAX_REQUEST
  {
    RoundFits(size0);
    hide Round16;
  }

  /** The n bytes at dst are those that were at src, all others are as they were. */
  ghost predicate CopiedUpTo(b0: map<nat, nat>, b: map<nat, nat>, src: nat, dst: nat, n: nat) {
    forall x: nat :: ByteAt(b, x) == ByteAt(b0, if dst <= x < dst + n then src + (x - dst) else x)
  }

  function PutByte(bytes: map<nat, nat>, src: nat, dst: nat): map<nat, nat> {
    if src in bytes then bytes[dst := bytes[src]] else bytes - {dst}
  }

  lemma CopyStep(b0: map<nat, nat>, b: map<nat, nat>, src: nat, dst: nat, k: nat)
    requires CopiedUpTo(b0, b, src, dst, k) && (src + k < dst || dst + k <= src)
    ensures CopiedUpTo(b0, PutByte(b, src + k, dst + k), src, dst, k + 1)
  {
    var b' := PutByte(b, src + k, dst + k);
    assert ByteAt(b, src + k) == ByteAt(b0, src + k);
    forall x: nat ensures ByteAt(b', x) == ByteAt(b0, if dst <= x < dst + (k + 1) then src + (x - dst) else x) {
      if x != dst + k { assert ByteAt(b', x) == ByteAt(b, x); }
    }
  }

  /** Chunk c of h lives on as chunk d of h': the contents kept up to the smaller of the old size and
      size, and every other live chunk as it was. */
  ghost predicate Moved(h: Heap, h': Heap, c: nat, d: nat, size: nat) {
    && Live(h, c) && Live(h', d)
    && Copied(h, c, h', d, if SizeOf(h.chunks, c) < size then SizeOf(h.chunks, c) else size)
    && (forall x :: Live(h, x) && x != c ==>
          Live(h', x) && x != d && SizeOf(h'.chunks, x) == SizeOf(h.chunks, x) && Prefix(h, h', x, SizeOf(h.chunks, x)))
    && (forall x :: Live(h', x) && x != d ==> Live(h, x) && x != c)
  }

  lemma Apart(h: Heap, g: View, c: nat, d: nat)
    requires Inv(h, g) && c in h.chunks && d in h.chunks && c != d
    ensures EndOf(h.chunks, c) <= d || EndOf(h.chunks, d) <= c
  {
    if c < d { Disjoint(h, g, c, d); } else { Disjoint(h, g, d, c); }
  }

  lemma StoreInv(h: Heap, g: View, bytes: map<nat, nat>, c: nat, d: nat, n: nat)
    requires Inv(h, g) && Live(h, d) && c in h.chunks && c != d && n <= SizeOf(h.chunks, c) && n <= SizeOf(h.chunks, d)
    requires CopiedUpTo(h.bytes, bytes, c + HDR, d + HDR, n)
    ensures var h' := h.(bytes := bytes); Inv(h', g) && Keeps(h, h', d) && Copied(h, c, h', d, n)
  {
    var h' := h.(bytes := bytes);
    forall b: nat, x: nat | b in bytes && x in h.chunks ensures !InHeader(b, x) {
      assert ByteAt(bytes, b) != -1;
      if d + HDR <= b < d + HDR + n && x != d { Apart(h, g, x, d); }
    }
    forall x: nat | Live(h, x) && x != d ensures Prefix(h, h', x, SizeOf(h.chunks, x)) { Apart(h, g, x, d); }
    hide ArenasOk, ArenaListOk, FreeOk, OwnOk, RegionsOk;
  }

  lemma PokeInv(h: Heap, g: View, c: nat, k: nat, v: nat)
    requires Inv(h, g) && Live(h, c) && k < SizeOf(h.chunks, c)
    ensures var h' := h.(bytes := h.bytes[c + HDR + k := v]); Inv(h', g) && Keeps(h, h', c)
  {
    var h' := h.(bytes := h.bytes[c + HDR + k := v]);
    forall b: nat, x: nat | b in h'.bytes && x in h.chunks ensures !InHeader(b, x) {
      if b == c + HDR + k && x != c { Apart(h, g, x, c); }
    }
    forall x: nat | Live(h, x) && x != c ensures Prefix(h, h', x, SizeOf(h.chunks, x)) { Apart(h, g, x, c); }
    hide ArenasOk, ArenaListOk, FreeOk, OwnOk, RegionsOk;
  }

  lemma StillLive(h: Heap, h': Heap, c: nat, d: nat)
    requires Keeps(h, h', d) && Live(h, c) && !Live(h, d)
    ensures Live(h', c) && SizeOf(h'.chunks, c) == SizeOf(h.chunks, c) && c != d
    ensures Prefix(h, h', c, SizeOf(h.chunks, c))
  {
  }

  lemma MovedThrough(h0: Heap, h1: Heap, h2: Heap, h3: Heap, c: nat, d: nat, size: nat, n: nat)
    requires Live(h0, c) && !Live(h0, d) && Live(h1, d) && c != d && n <= SizeOf(h1.chunks, d)
    requires n == if SizeOf(h0.chunks, c) < size then SizeOf(h0.chunks, c) else size
    requires Keeps(h0, h1, d)
    requires h2 == h1.(bytes := h2.bytes) && Keeps(h1, h2, d) && Copied(h1, c, h2, d, n)
    requires Keeps(h2, h3, c) && !Live(h3, c)
    ensures Moved(h0, h3, c, d, size) && SizeOf(h3.chunks, d) == SizeOf(h1.chunks, d)
  {
    KeepsTrans(h0, h1, h2, d);
    assert Prefix(h0, h1, c, SizeOf(h0.chunks, c)) && Prefix(h2, h3, d, SizeOf(h1.chunks, d));
    forall x: nat | Live(h0, x) && x != c ensures Prefix(h0, h3, x, SizeOf(h0.chunks, x)) {
      assert Prefix(h0, h2, x, SizeOf(h0.chunks, x)) && Prefix(h2, h3, x, SizeOf(h0.chunks, x));
    }
  }

  lemma CutReadyLive(h: Heap, g: View, c: nat, a: nat, i: nat, size: nat)
    requires Inv(h, g) && Live(h, c) && Seat(g, c, a, i) && size % 16 == 0 && h.chunks[c].size >= size + HDR + 16
    ensures CutReady(h, g, c, a, i, size)
  {
    FreeMeansListed(h, g);
    hide Inv;
  }

  lemma NextOf(h: Heap, g: View, c: nat, a: nat, i: nat)
    requires Inv(h, g) && g.xs == {} && Live(h, c) && Seat(g, c, a, i)
    ensures c in h.chunks && c !in g.fl && NextKnown(h, g, c, a, i)
  {
    NextIs(h, g, c, a, i);
    FreeMeansListed(h, g);
    hide Inv, NextKnown;
  }

  lemma ResizedMoves(h: Heap, g: View, h': Heap, g': View, c: nat, a: nat, i: nat, n: nat, size: nat)
    requires Live(h, c) && Resized(h, g, h', g', c, a, i, n) && n >= size
    ensures Moved(h, h', c, c, size)
  {
  }

  lemma SameMoves(h: Heap, c: nat, size: nat)
    requires Live(h, c) && h.chunks[c].size >= size
    ensures Moved(h, h, c, c, size)
  {
  }

  lemma GrownReady(h0: Heap, g0: View, h: Heap, g: View, c: nat, a: nat, i: nat, size: nat)
    requires Inv(h, g) && Live(h0, c) && c in h.chunks && Resized(h0, g0, h, g, c, a, i, h.chunks[c].size)
    requires size % 16 == 0
    ensures Seat(g, c, a, i) && (h.chunks[c].size >= size + HDR + 16 ==> CutReady(h, g, c, a, i, size))
    ensures g.xs == g0.xs
  {
    hide Inv, Keeps;
  }

  lemma ResizedTwice(h0: Heap, g0: View, h1: Heap, g1: View, h: Heap, g: View, c: nat, a: nat, i: nat, n: nat,
                     size: nat)
    requires Live(h0, c) && Resized(h0, g0, h1, g1, c, a, i, n) && Resized(h1, g1, h, g, c, a, i, size) && n >= size
    requires SizeOf(h0.chunks, c) <= size
    ensures Moved(h0, h, c, c, size) && g.xs == g0.xs
  {
    KeepsTrans(h0, h1, h, c);
    assert Prefix(h0, h1, c, SizeOf(h0.chunks, c)) && Prefix(h1, h, c, SizeOf(h0.chunks, c));
    hide Keeps;
    assert Prefix(h0, h, c, SizeOf(h0.chunks, c));
    MovedFrom(h0, h, c, size);
  }

  lemma MovedFrom(h: Heap, h': Heap, c: nat, size: nat)
    requires Live(h, c) && Live(h', c) && Keeps(h, h', c) && SizeOf(h'.chunks, c) >= size >= SizeOf(h.chunks, c)
    requires Prefix(h, h', c, SizeOf(h.chunks, c))
    ensures Moved(h, h', c, c, size)
  {
  }

  /** The length of the mapping for a large chunk, in 64-bit arithmetic. */
  function LargePages(size: nat): nat { AlignDown(Wrap64(Wrap64(size + HDR) + 4095), PAGE) }

  predicate MmapOk(mem: nat) { 0 < mem < 0x8000_0000_0000_0000 }

  function MapSize(size: nat): nat { if size >= LARGE then LargePages(size) else ArenaSize(size) }

  ghost predicate NeedsMap(h: Heap, g: View, size: nat) { size >= 0x2_0000 || NothingFits(h, g, size) }

  /** malloc maps an arena and leaves a tail in it that is no chunk. */
  ghost predicate Untidy(h: Heap, g: View, size: nat, mem: nat) {
    0 < size < LARGE && NothingFits(h, g, size) && MmapOk(mem) && !NoTail(size)
  }

  ghost predicate Handed(h: Heap, h': Heap, ptr: nat) {
    ptr >= HDR && Live(h', ptr - HDR) && !Live(h, ptr - HDR)
  }

  /** Rounding and page counting do not wrap exactly for requests up to MAX_REQUEST. */
  lemma RoundFits(size: nat)
    requires size < U64
    ensures size <= MAX_REQUEST <==> Round16(size) >= size && LargePages(Round16(size)) >= Round16(size) + HDR
    ensures size <= MAX_REQUEST ==>
      Round16(size) <= MAX_REQUEST && Round16(size) < size + 16 && (size > 0 ==> Round16(size) >= 16)
    ensures Round16(size) % 16 == 0 && LargePages(size) % 4096 == 0
    ensures size <= MAX_REQUEST ==>
      Round16(size) + 48 <= LargePages(Round16(size)) < Round16(size) + 48 + 4096
  {
    var r := Round16(size);
    WrapOnce(size + 15);
    hide AlignDown;
    if size <= MAX_REQUEST {
      BelowMultiple(r);
      LargeFits(r);
    } else if r >= size {
      LargeWraps(r);
    }
  }

  lemma WrapOnce(x: nat)
    requires x < 2 * U64
    ensures Wrap64(x) == if x < U64 then x else x - U64
  {
  }

  lemma BelowMultiple(r: nat)
    requires r % 16 == 0 && r < MAX_REQUEST + 16
    ensures r <= MAX_REQUEST
  {
  }

  lemma LargeWraps(size: nat)
    requires MAX_REQUEST < size < U64
    ensures LargePages(size) <= PAGE
  {
    WrapOnce(size + HDR);
    WrapOnce(Wrap64(size + HDR) + 4095);
    hide Wrap64;
  }

  lemma WholePages(size: nat)
    ensures LargePages(size) % PAGE == 0
  {
  }

  /** What malloc hands out holds the request exactly if the request is at most MAX_REQUEST. */
  lemma AskedFor(size0: nat, n: nat)
    requires 0 < size0 < U64
    requires var size := Round16(size0);
      if size >= LARGE then n + HDR == LargePages(size) else size <= n < size + HDR + 16
    ensures n >= size0 <==> size0 <= MAX_REQUEST
  {
    var size := Round16(size0);
    RoundFits(size0);
    RoundWraps(size0);
    if size0 <= MAX_REQUEST { LargeFits(size); } else if size >= LARGE { LargeWraps(size); }
    hide Round16, LargePages;
  }

  /** Above 2^64 - 16 a request is rounded to nothing. */
  lemma RoundWraps(size0: nat)
    requires size0 < U64
    ensures size0 > U64 - 16 <==> Round16(size0) < size0
    ensures size0 > U64 - 16 ==> Round16(size0) == 0
    ensures size0 <= U64 - 16 ==> size0 <= Round16(size0) < U64
  {
    WrapOnce(size0 + 15);
    hide Wrap64;
  }

  lemma LargeFits(size: nat)
    requires size <= MAX_REQUEST
    ensures LargePages(size) >= size + HDR && LargePages(size) < size + HDR + PAGE
  {
  }

  lemma ChunkAligned(h: Heap, g: View, c: nat)
    requires Inv(h, g) && c in h.chunks
    ensures Aligned(c + HDR)
  {
    assert Aligned(c);
    hide Inv;
  }

  lemma MmapKeeps(h: Heap, g: View, c: nat, n: nat)
    requires Inv(h, g) && Fresh(h, c, n) && n >= HDR
    ensures Keeps(h, MmapHeap(h, c, n), c)
  {
    FreshIsNew(h, g, c, n, c);
    NoRootAt(h, g, c, n);
    hide Inv;
    RegionKeeps(h, MmapHeap(h, c, n), g, c, c, n);
  }

  /** In an arena of the default size, exactly three request sizes leave a tail. */
  lemma TailSizes(size: nat)
    requires AHDR + HDR + size <= ARENA && size % 16 == 0
    ensures NoTail(size) <==> size !in {65408, 65424, 65440}
  {
  }

  /** Splitting chunk c writes prevPhys of the header behind it, at offset 32 and 8 bytes wide, as soon
      as any byte of its arena lies behind it. That store leaves the arena. */
  ghost predicate StorePast(h: Heap, c: nat)
    requires c in h.chunks && h.chunks[c].arena in h.arenas
  {
    var e, end := EndOf(h.chunks, c), h.chunks[c].arena + h.arenas[h.chunks[c].arena].totalSize;
    e < end < e + 32 + 8
  }

  /** It never does while the arena is tiled. */
  lemma StoreInside(h: Heap, g: View, c: nat, a: nat, i: nat)
    requires Inv(h, g) && Seat(g, c, a, i)
    ensures c in h.chunks && h.chunks[c].arena == a && a in h.arenas && !StorePast(h, c)
  {
    Seated(h, g, c, a, i);
    assert ArenaOk(h.chunks, h.arenas, g, a);
    Spread(h.chunks, g.layout[a], a, h.arenas[a].totalSize);
    if i + 1 < |g.layout[a]| { assert TileAt(h.chunks, g.layout[a], a, h.arenas[a].totalSize, i + 1); }
  }

  /** In a new arena it does exactly if 16 or 32 bytes are left behind the first chunk. */
  lemma StoreInTail(h: Heap, a: nat, size: nat)
    requires size % 16 == 0
    ensures var h' := BareArena(h, a, ArenaSize(size), size);
      StorePast(h', a + AHDR) <==> ArenaSize(size) - AHDR - HDR - size in {16, 32}
    ensures AHDR + HDR + size <= ARENA ==>
      (StorePast(BareArena(h, a, ArenaSize(size), size), a + AHDR) <==> size in {65424, 65440})
  {
    hide Erase, L.PushFront;
    var h', r := BareArena(h, a, ArenaSize(size), size), ArenaSize(size) - AHDR - HDR - size;
    assert EndOf(h'.chunks, a + AHDR) + r == a + ArenaSize(size);
    assert r % 16 == 0;
  }

  /** The heap after the writes to the header of a new arena and of its first chunk. */
  function BareArena(h: Heap, a: nat, total: nat, size: nat): Heap {
    Heap(h.chunks[a + AHDR := Chunk(false, false, size, 0, a)], h.free,
         h.arenas[a := Arena(total, 1)], L.PushFront(h.arenaList, a), h.arenaCount + 1, Erase(h.bytes, a, total))
  }

  /** The heap after the header of the rest of a new arena is written too. */
  function RestHeap(h: Heap, a: nat, total: nat, size: nat): Heap
    requires total >= AHDR + HDR + size + HDR
  {
    var b, c := BareArena(h, a, total, size), a + AHDR;
    b.(chunks := b.chunks[c + HDR + size := Chunk(true, false, total - AHDR - HDR - size - HDR, c, a)])
  }

  lemma WholeChunk(h: Heap, g: View, a: nat, total: nat)
    requires Inv(h, g) && g.xs == {} && Fresh(h, a, total) && total >= AHDR + HDR + 16 && total % 16 == 0
    ensures var h' := BareArena(h, a, total, total - AHDR - HDR);
      && h' == ArenaHeap(h, a, total) && Inv(h', ArenaView(g, a)) && Keeps(h, h', a + AHDR) && !Live(h, a + AHDR)
  {
    NewArenaInv(h, g, a, total);
    var h' := ArenaHeap(h, a, total);
    NoRootAt(h, g, a, total);
    hide Inv;
    RegionKeeps(h, h', g, a + AHDR, a, total);
  }

  lemma NoRootAt(h: Heap, g: View, a: nat, total: nat)
    requires Inv(h, g) && Fresh(h, a, total)
    ensures forall d :: d in h.chunks ==> RootOf(h.chunks, d) != a
  {
    forall d | d in h.chunks ensures RootOf(h.chunks, d) != a {
      InsideRoot(h, g, d);
      FreshIsNew(h, g, a, total, a);
    }
  }

  /** A new arena whose first chunk leaves 16, 32 or 48 bytes has no tiling at all. */
  lemma Untiled(h: Heap, g: View, a: nat, total: nat, size: nat)
    requires Inv(h, g) && Fresh(h, a, total) && AHDR + HDR + size < total
    ensures forall g' :: !Inv(BareArena(h, a, total, size), g')
    ensures !Live(h, a + AHDR)
  {
    var h', c := BareArena(h, a, total, size), a + AHDR;
    FreshIsNew(h, g, a, total, c);
    FreshIsNew(h, g, a, total, c + HDR + size);
    hide Inv, L.PushFront, Erase;
    forall g' ensures !Inv(h', g') {
      if Inv(h', g') { NextTile(h', g', a, size); }
    }
  }

  lemma NextTile(h: Heap, g: View, a: nat, size: nat)
    requires Inv(h, g) && a in h.arenas && AHDR + HDR + size < h.arenas[a].totalSize
    requires SizeOf(h.chunks, a + AHDR) == size
    ensures a + AHDR + HDR + size in h.chunks
  {
    var cs := g.layout[a];
    assert ArenaOk(h.chunks, h.arenas, g, a);
    assert TileAt(h.chunks, cs, a, h.arenas[a].totalSize, 0);
    assert TileAt(h.chunks, cs, a, h.arenas[a].totalSize, 1);
  }

  /** Writing the header of the rest is splitting the chunk that spans the arena. */
  lemma RestChunk(h: Heap, g: View, a: nat, total: nat, size: nat)
    requires Inv(h, g) && g.xs == {} && Fresh(h, a, total) && total % 16 == 0 && size % 16 == 0
    requires total >= AHDR + HDR + size + HDR + 16
    ensures Seat(ArenaView(g, a), a + AHDR, a, 0)
    ensures var h', g' := RestHeap(h, a, total, size), SplitView(ArenaView(g, a), a, 0, a + AHDR + HDR + size);
      && Inv(h', g') && RestReady(g', a + AHDR + HDR + size, a)
      && Cutting(ArenaHeap(h, a, total), ArenaView(g, a), h', g', a + AHDR, a, 0, size)
  {
    hide Inv, Fresh, CutReady, Cutting, SplitAt, Erase, L.PushFront, L.With, RestHeap, SplitHeap, SplitView, RestReady;
    NewArenaInv(h, g, a, total);
    FirstChunkReady(h, g, a, total, size);
    RestIsSplit(h, a, total, size);
    CutStart(ArenaHeap(h, a, total), ArenaView(g, a), a + AHDR, a, 0, size);
    RestSeat(ArenaHeap(h, a, total), ArenaView(g, a), RestHeap(h, a, total, size),
      SplitView(ArenaView(g, a), a, 0, a + AHDR + HDR + size), a, size);
  }

  ghost predicate RestReady(g: View, s: nat, a: nat) {
    s in g.xs && Seat(g, s, a, 1) && QuietPrev(g, a, 1) && QuietNext(g, a, 1)
  }

  lemma RestSeat(h0: Heap, g0: View, h: Heap, g: View, a: nat, size: nat)
    requires Inv(h, g) && Cutting(h0, g0, h, g, a + AHDR, a, 0, size) && Tile(g, a, 2) == Tile(g0, a, 1)
    requires a in g0.layout && |g0.layout[a]| == 1
    ensures RestReady(g, a + AHDR + HDR + size, a)
  {
    FreeMeansListed(h, g);
    assert 0 !in g.fl;
    hide Inv;
    CutSeat(h0, g0, h, g, a + AHDR, a, 0, size);
    hide Cutting;
  }

  lemma FirstChunkReady(h: Heap, g: View, a: nat, total: nat, size: nat)
    requires Inv(h, g) && a + AHDR !in h.chunks && size % 16 == 0 && total >= AHDR + HDR + size + HDR + 16
    ensures CutReady(ArenaHeap(h, a, total), ArenaView(g, a), a + AHDR, a, 0, size)
  {
    FreeMeansListed(h, g);
    hide Inv;
  }

  lemma RestIsSplit(h: Heap, a: nat, total: nat, size: nat)
    requires total >= AHDR + HDR + size + HDR + 16
    ensures SplitHeap(ArenaHeap(h, a, total), a + AHDR, size, a + total) == RestHeap(h, a, total, size)
  {
    hide L.PushFront;
    var h1, s := SplitHeap(ArenaHeap(h, a, total), a + AHDR, size, a + total), a + AHDR + HDR + size;
    assert Erase(Erase(h.bytes, a, total), s, HDR) == Erase(h.bytes, a, total);
    assert h1.chunks == RestHeap(h, a, total, size).chunks;
  }

  lemma ArenaCut(h0: Heap, g0: View, h1: Heap, g1: View, h: Heap, g: View, a: nat, total: nat, size: nat)
    requires Inv(h0, g0) && g0.xs == {} && Fresh(h0, a, total) && total >= AHDR + HDR + 16 && total % 16 == 0
    requires Cutting(ArenaHeap(h0, a, total), ArenaView(g0, a), h1, g1, a + AHDR, a, 0, size)
    requires h == h1.(free := h.free) && g == Enlisted(g1, a + AHDR + HDR + size)
    ensures g.xs == {} && Keeps(h0, h, a + AHDR) && Live(h, a + AHDR) && !Live(h0, a + AHDR)
    ensures SizeOf(h.chunks, a + AHDR) == size
  {
    hide Inv, Keeps, Cutting, Enlisted, Fresh;
    var c, h', g' := a + AHDR, ArenaHeap(h0, a, total), ArenaView(g0, a);
    CutFinish(h', g', h1, g1, h, g, c, a, 0, size);
    CutTransit(h', g', h1, g1, h, g, c, a, 0, size);
    WholeChunk(h0, g0, a, total);
    KeepsTrans(h0, h', h, c);
  }

  lemma MunmapKeeps(h: Heap, g: View, c: nat)
    requires Inv(h, g) && c in h.chunks && h.chunks[c].isMmap
    ensures Keeps(h, MunmapHeap(h, c), c)
  {
    var h' := MunmapHeap(h, c);
    OtherRegions(h, g, c);
    hide Inv;
    RegionKeeps(h, h', g, c, c, HDR + SizeOf(h.chunks, c));
  }

  lemma OtherRegions(h: Heap, g: View, c: nat)
    requires Inv(h, g) && c in h.chunks && h.chunks[c].isMmap
    ensures forall q: nat :: IsRoot(h.chunks, h.arenas, q) && q != c ==>
      q + Len(h.chunks, h.arenas, q) <= c || c + HDR + SizeOf(h.chunks, c) <= q
    ensures forall d :: d in h.chunks && d != c ==> RootOf(h.chunks, d) != c
  {
    hide ArenaListOk, FreeOk, BytesOk, Aligned;
    assert IsRoot(h.chunks, h.arenas, c) && Len(h.chunks, h.arenas, c) == HDR + SizeOf(h.chunks, c);
  }

  lemma FreeingNext(h0: Heap, h: Heap, g: View, c: nat, a: nat, i: nat)
    requires Inv(h, g) && Freeing(h0, h, g, c, c, a, i)
    ensures Seat(g, c, a, i) && c !in g.fl && NextKnown(h, g, c, a, i)
  {
    hide Inv, Keeps, NextKnown;
    NextIs(h, g, c, a, i);
  }

  lemma FreeingGrown(h0: Heap, h1: Heap, g1: View, h: Heap, g: View, c: nat, a: nat, i: nat, n: nat)
    requires Freeing(h0, h1, g1, c, c, a, i) && Resized(h1, g1, h, g, c, a, i, n)
    ensures Freeing(h0, h, g, c, c, a, i)
  {
    KeepsTrans(h0, h1, h, c);
    hide Keeps;
  }

  lemma FreeingPrev(h0: Heap, h: Heap, g: View, c: nat, a: nat, i: nat)
    requires Inv(h, g) && Freeing(h0, h, g, c, c, a, i)
    ensures Seat(g, c, a, i) && c in h.chunks && a in h.arenas && h.chunks[c].arena == a
    ensures h.chunks[c].prevPhys == Tile(g, a, i - 1)
    ensures i > 0 ==> Tile(g, a, i - 1) != 0 && Tile(g, a, i - 1) in h.chunks
    ensures i > 0 ==> (h.chunks[Tile(g, a, i - 1)].free <==> Tile(g, a, i - 1) in g.fl)
    ensures i == 0 || Tile(g, a, i - 1) !in g.fl ==> QuietPrev(g, a, i)
  {
    Seated(h, g, c, a, i);
    FreeMeansListed(h, g);
    assert ArenaOk(h.chunks, h.arenas, g, a);
    Spread(h.chunks, g.layout[a], a, h.arenas[a].totalSize);
    if i > 0 { Seated(h, g, g.layout[a][i - 1], a, i - 1); }
    assert 0 !in g.fl;
    hide Inv, Keeps;
  }

  lemma PrevMerge(h0: Heap, h1: Heap, g1: View, h: Heap, g: View, c: nat, a: nat, i: nat)
    requires Inv(h1, g1) && Inv(h, g) && Freeing(h0, h1, g1, c, c, a, i) && QuietNext(g1, a, i) && i > 0
    requires Tile(g1, a, i - 1) in g1.fl && h == h1.(free := h.free) && g == Unlisted(g1, Tile(g1, a, i - 1))
    ensures var prev := Tile(g1, a, i - 1);
      && prev in h.chunks && c in h.chunks && a in h.arenas && h.chunks[c].arena == a && a in g.layout
      && i < |g.layout[a]|
      && var h', g' := MergeHeap(h, prev, a + h.arenas[a].totalSize), MergeView(g, a, i - 1);
      && Inv(h', g') && Freeing(h0, h', g', c, prev, a, i - 1) && QuietNext(g', a, i - 1) && QuietPrev(g', a, i - 1)
  {
    var prev := Tile(g1, a, i - 1);
    FreeingPrev(h0, h1, g1, c, a, i);
    PrevView(h1, g1, c, a, i);
    assert prev !in g.fl && c in g.xs && g.layout[a][i - 1 + 1] == c;
    hide Inv, QuietNext, QuietPrev;
    MergeTransit(h, g, prev, a, i - 1);
    PrevKeeps(h0, h1, g1, h, g, c, a, i);
  }

  lemma PrevView(h1: Heap, g1: View, c: nat, a: nat, i: nat)
    requires Inv(h1, g1) && Seat(g1, c, a, i) && g1.xs == {c} && QuietNext(g1, a, i) && i > 0
    requires Tile(g1, a, i - 1) in g1.fl
    ensures var prev := Tile(g1, a, i - 1); var g := Unlisted(g1, prev);
      && prev !in g.fl && Seat(g, prev, a, i - 1) && Seat(g, c, a, i) && prev != c
      && var g' := MergeView(g, a, i - 1);
      && g'.xs == {prev} && Seat(g', prev, a, i - 1) && QuietNext(g', a, i - 1) && QuietPrev(g', a, i - 1)
  {
    var prev := Tile(g1, a, i - 1);
    var g := Unlisted(g1, prev);
    var g' := MergeView(g, a, i - 1);
    FreeMeansListed(h1, g1);
    assert ArenaOk(h1.chunks, h1.arenas, g1, a);
    Spread(h1.chunks, g1.layout[a], a, h1.arenas[a].totalSize);
    L.WithoutElems(g1.fl, L.IndexOf(g1.fl, prev));
    L.AtWithout(g1.layout[a], i);
    if i > 1 { assert g1.layout[a][i - 2 + 1] in g1.fl; }
    hide Inv, L.Without;
    assert g'.layout[a] == L.Without(g1.layout[a], i);
    assert L.At(g'.layout[a], i - 1) == prev && L.At(g'.layout[a], i) == L.At(g1.layout[a], i + 1);
  }

  lemma PrevKeeps(h0: Heap, h1: Heap, g1: View, h: Heap, g: View, c: nat, a: nat, i: nat)
    requires Inv(h, g) && Freeing(h0, h1, g1, c, c, a, i) && i > 0 && h == h1.(free := h.free)
    requires Tile(g1, a, i - 1) in g1.fl && g == Unlisted(g1, Tile(g1, a, i - 1))
    requires var prev := Tile(g1, a, i - 1);
      && Seat(g, prev, a, i - 1) && Seat(g, c, a, i) && prev != c && prev in h.chunks && a in h.arenas
      && MergeView(g, a, i - 1).xs == {prev} && Seat(MergeView(g, a, i - 1), prev, a, i - 1)
    ensures var prev := Tile(g1, a, i - 1);
      Freeing(h0, MergeHeap(h, prev, a + h.arenas[a].totalSize), MergeView(g, a, i - 1), c, prev, a, i - 1)
  {
    var prev := Tile(g1, a, i - 1);
    var h' := MergeHeap(h, prev, a + h.arenas[a].totalSize);
    Seated(h, g, prev, a, i - 1);
    FreeMeansListed(h, g);
    MergeFlags(h.chunks, prev, a + h.arenas[a].totalSize);
    MergeKeeps(h, prev, a + h.arenas[a].totalSize);
    KeepsFree(h, h', prev, c);
    KeepsSame(h1, h, c);
    KeepsTrans(h0, h1, h, c);
    KeepsTrans(h0, h, h', c);
    hide Inv, Keeps, MergeAt, MergeView, Seat;
  }

  /** When no chunk of an arena is allocated, the coalesced chunk is the whole arena. */
  lemma WholeArena(h: Heap, g: View, c: nat, a: nat, i: nat)
    requires Inv(h, g) && Seat(g, c, a, i) && g.xs == {c} && QuietNext(g, a, i) && QuietPrev(g, a, i)
    requires a in h.arenas && h.arenas[a].activeChunks == 0
    ensures g.layout[a] == [c] && i == 0
  {
    var cs := g.layout[a];
    FreeMeansListed(h, g);
    assert ArenaOk(h.chunks, h.arenas, g, a);
    Spread(h.chunks, cs, a, h.arenas[a].totalSize);
    forall k | 0 <= k < |cs| && k != i ensures cs[k] in g.fl {
      assert cs[k] !in InUse(h.chunks, cs);
      assert cs[k] != cs[i];
    }
    hide Inv;
  }

  lemma RetireFacts(h0: Heap, h: Heap, g: View, c0: nat, c: nat, a: nat, i: nat)
    requires Inv(h, g) && Freeing(h0, h, g, c0, c, a, i) && QuietNext(g, a, i) && QuietPrev(g, a, i)
    ensures Seat(g, c, a, i) && c in g.xs && c in h.chunks && h.chunks[c].arena == a && a in h.arenas && a in h0.arenas
    ensures h.arenaCount == h0.arenaCount && h.arenas[a].activeChunks + 1 == h0.arenas[a].activeChunks
    ensures h.arenas.Keys == h0.arenas.Keys
    ensures h.arenas[a].activeChunks == 0 ==>
      h.chunks[c].prevPhys == 0 && EndOf(h.chunks, c) == a + h.arenas[a].totalSize
    ensures Enlisted(g, c).xs == {}
    ensures Keeps(h0, h, c0) && !Live(h, c0) && !Live(h, c)
  {
    Seated(h, g, c, a, i);
    FreeMeansListed(h, g);
    if h.arenas[a].activeChunks == 0 {
      WholeArena(h, g, c, a, i);
      assert ArenaOk(h.chunks, h.arenas, g, a);
      assert TileAt(h.chunks, g.layout[a], a, h.arenas[a].totalSize, 0);
    }
    hide Inv, Keeps;
  }

  /** Nothing but its own chunk lives in an arena that is one chunk. */
  lemma LoneArena(h: Heap, g: View, c: nat, a: nat)
    requires Inv(h, g) && a in h.arenas && a in g.layout && g.layout[a] == [c]
    ensures forall q: nat :: IsRoot(h.chunks, h.arenas, q) && q != a ==>
      q + Len(h.chunks, h.arenas, q) <= a || a + h.arenas[a].totalSize <= q
    ensures forall d :: d in h.chunks && d != c ==> RootOf(h.chunks, d) != a
  {
    hide ArenasOk, ArenaListOk, FreeOk, BytesOk, Aligned;
    assert IsRoot(h.chunks, h.arenas, a);
    assert Len(h.chunks, h.arenas, a) == h.arenas[a].totalSize;
  }

  lemma RetireDrop(h0: Heap, h: Heap, g: View, c0: nat, c: nat, a: nat, i: nat)
    requires Inv(h, g) && Freeing(h0, h, g, c0, c, a, i) && QuietNext(g, a, i) && QuietPrev(g, a, i)
    requires a in h.arenas && h.arenas[a].activeChunks == 0
    ensures c in h.chunks && a in g.al && h.arenaCount > 0 && Inv(DropHeap(h, c, a), DropView(g, c, a))
    ensures DropView(g, c, a).xs == {}
    ensures Keeps(h0, DropHeap(h, c, a), c0) && !Live(DropHeap(h, c, a), c0)
  {
    hide Inv, Keeps, Live, QuietNext, QuietPrev;
    RetireFacts(h0, h, g, c0, c, a, i);
    WholeArena(h, g, c, a, i);
    Seated(h, g, c, a, i);
    hide Sits;
    DropArenaInv(h, g, c, a);
    DropKeeps(h0, h, g, c0, c, a);
  }

  lemma DropKeeps(h0: Heap, h: Heap, g: View, c0: nat, c: nat, a: nat)
    requires Inv(h, g) && Keeps(h0, h, c0) && !Live(h, c0) && !Live(h, c) && a in h.arenas && h.arenaCount > 0
    requires a in g.layout && g.layout[a] == [c]
    ensures Keeps(h0, DropHeap(h, c, a), c0) && !Live(DropHeap(h, c, a), c0)
  {
    var h' := DropHeap(h, c, a);
    LoneArena(h, g, c, a);
    hide Inv;
    RegionKeeps(h, h', g, c, a, h.arenas[a].totalSize);
    KeepsFree(h, h', c, c0);
    KeepsTrans(h0, h, h', c0);
    hide Keeps;
  }

  lemma RetireList(h0: Heap, h1: Heap, h: Heap, c0: nat, c: nat)
    requires Keeps(h0, h1, c0) && !Live(h1, c0) && h == h1.(free := h.free)
    ensures Keeps(h0, h, c0) && !Live(h, c0)
  {
    KeepsSame(h1, h, c0);
    KeepsTrans(h0, h1, h, c0);
  }

  lemma KeepsSame(h: Heap, h': Heap, c: nat)
    requires h'.chunks == h.chunks && h'.bytes == h.bytes
    ensures Keeps(h, h', c)
  {
  }

  /** What exempts a chunk that is free before and after exempts nothing. */
  lemma KeepsFree(h: Heap, h': Heap, s: nat, c: nat)
    requires Keeps(h, h', s) && !Live(h, s) && !Live(h', s)
    ensures Keeps(h, h', c)
    ensures Live(h, c) ==>
      SizeOf(h'.chunks, c) == SizeOf(h.chunks, c) && Prefix(h, h', c, SizeOf(h.chunks, c)) && Live(h', c)
  {
  }

  lemma TakeQuiet(h: Heap, g: View, c: nat, a: nat, i: nat)
    requires Inv(h, g) && c in g.fl && Seat(g, c, a, i)
    ensures QuietNext(Unlisted(g, c), a, i) && Seat(Unlisted(g, c), c, a, i) && c !in Unlisted(g, c).fl
  {
    FreeMeansListed(h, g);
    L.WithoutElems(g.fl, L.IndexOf(g.fl, c));
    if i + 1 < |g.layout[a]| { assert !(g.layout[a][i] in g.fl && g.layout[a][i + 1] in g.fl); }
  }

  lemma CutInv(h: Heap, g: View, c: nat, a: nat, i: nat, size: nat)
    requires Inv(h, g) && CutReady(h, g, c, a, i, size)
    ensures c in h.chunks && a in h.arenas && h.chunks[c].size >= size + HDR && h.chunks[c].arena == a
    ensures Seat(g, c, a, i)
    ensures Inv(SplitHeap(h, c, size, a + h.arenas[a].totalSize), SplitView(g, a, i, c + HDR + size))
    ensures var s := c + HDR + size; s !in h.chunks && s != 0 && s !in g.xs && s !in g.layout[a] && c != 0
  {
    Seated(h, g, c, a, i);
    FreeMeansListed(h, g);
    assert ArenaOk(h.chunks, h.arenas, g, a);
    Spread(h.chunks, g.layout[a], a, h.arenas[a].totalSize);
    hide Inv;
    SplitInv(h, g, c, a, i, size);
  }

  lemma CutSeatsStart(g: View, c: nat, a: nat, i: nat, s: nat)
    requires Seat(g, c, a, i) && c !in g.fl && c != 0 && s != 0 && s !in g.xs && s !in g.layout[a]
    ensures CutSeats(g, SplitView(g, a, i, s), c, a, i, s) && SplitView(g, a, i, s).fl == g.fl
    ensures Tile(SplitView(g, a, i, s), a, i + 2) == Tile(g, a, i + 1)
  {
    var g1 := SplitView(g, a, i, s);
    L.AtWith(g.layout[a], i + 1, s);
    hide L.With;
    assert g1.layout[a] == L.With(g.layout[a], i + 1, s);
    assert L.At(g1.layout[a], i + 1) == s && L.At(g1.layout[a], i) == c;
  }

  lemma CutStart(h: Heap, g: View, c: nat, a: nat, i: nat, size: nat)
    requires Inv(h, g) && CutReady(h, g, c, a, i, size)
    ensures c in h.chunks && a in h.arenas && h.chunks[c].size >= size + HDR && h.chunks[c].arena == a
    ensures Seat(g, c, a, i)
    ensures var h', g' := SplitHeap(h, c, size, a + h.arenas[a].totalSize), SplitView(g, a, i, c + HDR + size);
      Inv(h', g') && Cutting(h, g, h', g', c, a, i, size) && g'.fl == g.fl && Tile(g', a, i + 2) == Tile(g, a, i + 1)
  {
    hide Inv, CutSeats, Keeps, Prefix, SplitView, SplitAt, Erase;
    var s := c + HDR + size;
    CutInv(h, g, c, a, i, size);
    CutSeatsStart(g, c, a, i, s);
    SplitKeeps(h, g, c, size, a + h.arenas[a].totalSize);
    SplitFlags(h.chunks, c, size, a + h.arenas[a].totalSize);
  }

  lemma CutSeat(h0: Heap, g0: View, h: Heap, g: View, c: nat, a: nat, i: nat, size: nat)
    requires Inv(h, g) && Cutting(h0, g0, h, g, c, a, i, size)
    ensures var s := c + HDR + size; Seat(g, s, a, i + 1) && s in g.xs && QuietPrev(g, a, i + 1)
  {
    hide Inv, Keeps, Prefix;
  }

  lemma CutNext(h0: Heap, g0: View, h: Heap, g: View, c: nat, a: nat, i: nat, size: nat)
    requires Inv(h, g) && Cutting(h0, g0, h, g, c, a, i, size) && g0.xs == {}
    ensures var s := c + HDR + size; Seat(g, s, a, i + 1) && s !in g.fl && NextKnown(h, g, s, a, i + 1)
  {
    hide Inv, Keeps, Prefix, NextKnown;
    NextIs(h, g, c + HDR + size, a, i + 1);
  }

  lemma CutAbsorb(h0: Heap, g0: View, h1: Heap, g1: View, h: Heap, g: View, c: nat, a: nat, i: nat, size: nat, n: nat)
    requires Cutting(h0, g0, h1, g1, c, a, i, size) && Resized(h1, g1, h, g, c + HDR + size, a, i + 1, n) && Live(h0, c)
    ensures Cutting(h0, g0, h, g, c, a, i, size)
  {
    var s := c + HDR + size;
    KeepsFree(h1, h, s, c);
    KeepsTrans(h0, h1, h, c);
    hide Keeps;
    assert Tile(g, a, i) == Tile(g1, a, i);
  }

  lemma CutFinish(h0: Heap, g0: View, h1: Heap, g1: View, h: Heap, g: View, c: nat, a: nat, i: nat, size: nat)
    requires Cutting(h0, g0, h1, g1, c, a, i, size) && h == h1.(free := h.free) && g == Enlisted(g1, c + HDR + size)
    ensures Resized(h0, g0, h, g, c, a, i, size)
  {
    KeepsSame(h1, h, c);
    KeepsTrans(h0, h1, h, c);
    hide Keeps;
    assert Tile(g, a, i) == c;
  }

  lemma CutTransit(h0: Heap, g0: View, h1: Heap, g1: View, h: Heap, g: View, c: nat, a: nat, i: nat, size: nat)
    requires Cutting(h0, g0, h1, g1, c, a, i, size) && g == Enlisted(g1, c + HDR + size) && g0.xs == {}
    ensures g.xs == {}
  {
  }

  lemma MergeTransit(h: Heap, g: View, c: nat, a: nat, i: nat)
    requires Inv(h, g) && Seat(g, c, a, i) && c !in g.fl && i + 1 < |g.layout[a]| && g.layout[a][i + 1] in g.xs
    ensures c in h.chunks && a in h.arenas && Inv(MergeHeap(h, c, a + h.arenas[a].totalSize), MergeView(g, a, i))
  {
    Seated(h, g, c, a, i);
    FreeMeansListed(h, g);
    hide Inv;
    MergeInv(h, g, c, a, i);
  }

  lemma NothingUntidy(h: Heap, g: View, size: nat, mem: nat)
    ensures size == 0 ==> !Untidy(h, g, size, mem)
  {
  }

  lemma MaxRounds(size0: nat)
    requires size0 < U64
    ensures size0 <= MAX_REQUEST ==> Round16(size0) <= MAX_REQUEST
  {
    RoundFits(size0);
  }

  /** Above 2^64 - 16 a chunk of an arena stays where it is and is cut down to nothing. */
  lemma CutToNothing(h: Heap, c: nat, size0: nat)
    requires U64 - 16 < size0 < U64 && c in h.chunks && !h.chunks[c].isMmap
    ensures Round16(size0) == 0 && Stays(h, c, Round16(size0))
  {
    RoundWraps(size0);
  }

  /** A heap whose only live chunk is c, without arenas, has no other mapping. */
  lemma OnlyMapping(h0: Heap, h: Heap, g: View, c: nat, r: nat, n: nat)
    requires Inv(h, g) && h.arenas == map[] && h0.chunks == map[] && Keeps(h0, h, c) && c in h.chunks
    requires Aligned(r) && n > 0 && EndOf(h.chunks, c) <= r && r + n <= SPACE
    ensures Fresh(h, r, n)
  {
    forall q: nat | IsRoot(h.chunks, h.arenas, q) ensures q == c { assert Live(h, q); }
    InsideRoot(h, g, c);
    hide Inv;
  }

  /** When the copy of realloc leaves the new chunk: exactly in the case Spills. */
  lemma MoveSizes(h: Heap, g: View, c: nat, size0: nat, mem: nat)
    requires Inv(h, g) && Live(h, c) && 0 < size0 < U64
    requires Round16(size0) > 0 && MmapOk(mem) ==> Fresh(h, mem, MapSize(Round16(size0)))
    ensures SizeOf(h.chunks, c) < SPACE && Round16(Round16(size0)) == Round16(size0) < U64
    ensures Spills(h, c, size0, mem) ==> Round16(size0) > MAX_REQUEST && LargePages(Round16(size0)) == PAGE
    ensures Round16(size0) > MAX_REQUEST && MmapOk(mem) ==>
      LargePages(Round16(size0)) == PAGE && (Spills(h, c, size0, mem) <==> SizeOf(h.chunks, c) > PAGE - HDR)
  {
    InSpace(h, g, c);
    RoundFits(size0);
    RoundWraps(size0);
    RoundAgain(Round16(size0));
    if MAX_REQUEST < size0 <= U64 - 16 { OnePage(size0); }
    hide Inv, Round16, LargePages;
  }

  class Allocator {
    var h: Heap
    ghost var g: View

    ghost predicate Valid()
      reads this
    {
      Inv(h, g) && g.xs == {}
    }

    constructor ()
      ensures Valid() && h.chunks == map[] && h.arenas == map[]
    {
      h := Heap(map[], L.List(map[], 0), map[], L.List(map[], 0), 0, map[]);
      g := View(map[], [], [], {});
    }

    method RemoveFromFreeList(c: nat)
      requires Inv(h, g) && c in g.fl
      modifies this
      ensures Inv(h, g) && h == old(h).(free := h.free) && g == Unlisted(old(g), c)
    {
      UnlistInv(h, g, c);
      hide Inv;
      h := h.(free := L.Remove(h.free, c));
      g := Unlisted(g, c);
    }

    method AddToFreeList(c: nat, ghost a: nat, ghost i: nat)
      requires Inv(h, g) && c in g.xs && Seat(g, c, a, i) && QuietNext(g, a, i) && QuietPrev(g, a, i)
      modifies this
      ensures Inv(h, g) && h == old(h).(free := h.free) && g == Enlisted(old(g), c)
    {
      ListAll(h, g, c, a, i);
      hide Inv;
      h := h.(free := L.PushFront(h.free, c));
      g := Enlisted(g, c);
    }

    /** The chunk absorbs its physical successor, which is free: unlist it, add up the sizes, and
        repair prevPhys of the chunk after it. */
    method AbsorbNext(c: nat, ghost a: nat, ghost i: nat)
      requires Inv(h, g) && Seat(g, c, a, i) && c !in g.fl && i + 1 < |g.layout[a]| && g.layout[a][i + 1] in g.fl
      requires c in h.chunks && a in h.arenas
      modifies this
      ensures Inv(h, g)
      ensures Resized(old(h), old(g), h, g, c, a, i,
                      old(h.chunks[c].size) + HDR + SizeOf(old(h.chunks), old(g).layout[a][i + 1]))
      ensures QuietNext(g, a, i)
    {
      hide Inv, MergeAt, Resized, QuietNext, ArenaOk;
      ghost var h0, g0 := h, g;
      Seated(h, g, c, a, i);
      var next := EndOf(h.chunks, c);
      RemoveFromFreeList(next);
      ghost var h1, g1 := h, g;
      Seated(h, g, c, a, i);
      MergeTransit(h, g, c, a, i);
      var end := h.chunks[c].arena + h.arenas[h.chunks[c].arena].totalSize;
      h := h.(chunks := MergeAt(h.chunks, c, end));
      g := MergeView(g, a, i);
      AbsorbResized(h0, g0, h1, g1, h, g, c, a, i);
    }

    /** The header writes of a split: the rest of chunk c becomes a free chunk in transit. */
    method Split(c: nat, size: nat, ghost a: nat, ghost i: nat)
      requires Inv(h, g) && CutReady(h, g, c, a, i, size)
      modifies this
      ensures Inv(h, g) && Cutting(old(h), old(g), h, g, c, a, i, size)
      ensures g.fl == old(g).fl && Tile(g, a, i + 2) == Tile(old(g), a, i + 1)
    {
      hide Inv, SplitAt, Erase, Cutting, CutReady, SplitView;
      CutStart(h, g, c, a, i, size);
      var s := c + HDR + size;
      var end := h.chunks[c].arena + h.arenas[h.chunks[c].arena].totalSize;
      h := h.(chunks := SplitAt(h.chunks, c, size, end), bytes := Erase(h.bytes, s, HDR));
      g := SplitView(g, a, i, s);
    }

    /** Cut chunk c down to size and put the rest on the free list; no free chunk follows c. */
    method Carve(c: nat, size: nat, ghost a: nat, ghost i: nat)
      requires Inv(h, g) && CutReady(h, g, c, a, i, size) && QuietNext(g, a, i)
      modifies this
      ensures Inv(h, g) && Resized(old(h), old(g), h, g, c, a, i, size)
    {
      hide Inv, CutReady, Resized, Cutting, Enlisted;
      ghost var h0, g0 := h, g;
      Split(c, size, a, i);
      CutSeat(h0, g0, h, g, c, a, i, size);
      ghost var h1, g1 := h, g;
      AddToFreeList(c + HDR + size, a, i + 1);
      CutFinish(h0, g0, h1, g1, h, g, c, a, i, size);
    }

    /** The shrinking branch of realloc: the cut-off rest also absorbs a free chunk that follows. */
    method Shrink(c: nat, size: nat, ghost a: nat, ghost i: nat)
      requires Valid() && CutReady(h, g, c, a, i, size) && Live(h, c)
      modifies this
      ensures Valid() && Resized(old(h), old(g), h, g, c, a, i, size)
    {
      hide Inv, CutReady, Resized, Cutting, Enlisted, Seat, QuietNext, QuietPrev;
      ghost var h0, g0 := h, g;
      Split(c, size, a, i);
      AbsorbAfterCut(h0, g0, c, size, a, i);
      CutSeat(h0, g0, h, g, c, a, i, size);
      ghost var h1, g1 := h, g;
      AddToFreeList(c + HDR + size, a, i + 1);
      CutFinish(h0, g0, h1, g1, h, g, c, a, i, size);
      CutTransit(h0, g0, h1, g1, h, g, c, a, i, size);
    }

    method AbsorbAfterCut(ghost h0: Heap, ghost g0: View, c: nat, size: nat, ghost a: nat, ghost i: nat)
      requires Inv(h, g) && Cutting(h0, g0, h, g, c, a, i, size) && g0.xs == {} && Live(h0, c)
      modifies this
      ensures Inv(h, g) && Cutting(h0, g0, h, g, c, a, i, size) && QuietNext(g, a, i + 1)
    {
      hide Inv, Cutting, Resized, QuietNext, Live;
      var s := c + HDR + size;
      CutNext(h0, g0, h, g, c, a, i, size);
      var next := EndOf(h.chunks, s);
      if next < h.chunks[s].arena + h.arenas[h.chunks[s].arena].totalSize && h.chunks[next].free {
        ghost var h1, g1 := h, g;
        AbsorbNext(s, a, i + 1);
        CutAbsorb(h0, g0, h1, g1, h, g, c, a, i, size,
          h1.chunks[s].size + HDR + SizeOf(h1.chunks, g1.layout[a][i + 2]));
      }
    }

    /** A chunk in transit is handed out. */
    method Take(c: nat)
      requires Inv(h, g) && c in g.xs
      modifies this
      ensures Inv(h, g) && g == old(g).(xs := old(g).xs - {c})
      ensures h == old(h).(chunks := SetFree(old(h.chunks), c, false), arenas := h.arenas) && Keeps(old(h), h, c)
      ensures h.arenas.Keys == old(h.arenas.Keys)
    {
      FreeMeansListed(h, g);
      ghost var a, i := WhereIs(h, g, c);
      TakeInv(h, g, c, a, i);
      hide Inv;
      ghost var h0 := h;
      h := h.(chunks := SetFree(h.chunks, c, false), arenas := AddActive(h.arenas, h.chunks[c].arena, 1));
      g := g.(xs := g.xs - {c});
      KeepsFlip(h0, h, c, false);
    }

    /** malloc takes chunk c off the free list, splits it if the rest can be a chunk, hands it out. */
    method TakeFrom(c: nat, size: nat)
      requires Valid() && c in g.fl && size % 16 == 0 && SizeOf(h.chunks, c) >= size
      modifies this
      ensures Valid() && Live(h, c) && !Live(old(h), c) && Keeps(old(h), h, c)
      ensures var n := SizeOf(old(h).chunks, c); SizeOf(h.chunks, c) == if n >= size + HDR + 16 then size else n
      ensures h.arenas.Keys == old(h.arenas.Keys)
    {
      hide Inv, Keeps;
      ghost var h0, g0 := h, g;
      FreeMeansListed(h, g);
      ghost var a, i := WhereIs(h, g, c);
      assert Seat(g, c, a, i);
      hide ArenaOk;
      TakeQuiet(h, g, c, a, i);
      RemoveFromFreeList(c);
      ghost var h1 := h;
      KeepsSame(h0, h1, c);
      if h.chunks[c].size >= size + HDR + 16 {
        Carve(c, size, a, i);
      } else {
        KeepsSame(h1, h, c);
      }
      KeepsTrans(h0, h1, h, c);
      ghost var h2 := h;
      Take(c);
      KeepsTrans(h0, h2, h, c);
    }

    /** The search of malloc: the first chunk of the free list that is large enough, or NULL. */
    method FirstFit(size: nat) returns (c: nat)
      requires Inv(h, g)
      ensures if c == 0 then NothingFits(h, g, size) else IsFirstFit(h, g, size, c)
    {
      assert L.Listed(h.free, g.fl);
      hide Inv;
      ghost var k := 0;
      c := h.free.head;
      while c != 0
        invariant 0 <= k <= |g.fl| && c == L.At(g.fl, k)
        invariant forall j :: 0 <= j < k ==> SizeOf(h.chunks, g.fl[j]) < size
        decreases |g.fl| - k
      {
        if SizeOf(h.chunks, c) >= size {
          return;
        }
        assert L.Get(h.free.links, g.fl[k]) == L.Link(L.At(g.fl, k + 1), L.At(g.fl, k - 1));
        c := L.Get(h.free.links, c).next;
        k := k + 1;
      }
    }

    /** An allocated chunk is marked free and counted off. */
    method Give(c: nat, ghost a: nat, ghost i: nat)
      requires Valid() && Live(h, c) && Seat(g, c, a, i)
      modifies this
      ensures Inv(h, g) && Freeing(old(h), h, g, c, c, a, i) && g.fl == old(g).fl && g.layout == old(g).layout
    {
      ghost var h0 := h;
      Seated(h, g, c, a, i);
      GiveInv(h, g, c, a, i);
      hide Inv;
      h := h.(chunks := SetFree(h.chunks, c, true), arenas := AddActive(h.arenas, h.chunks[c].arena, -1));
      g := g.(xs := g.xs + {c});
      KeepsFlip(h0, h, c, true);
      hide Keeps;
    }

    /** free: coalesce with a free physical successor. */
    method CoalesceNext(ghost h0: Heap, c: nat, ghost a: nat, ghost i: nat)
      requires Inv(h, g) && Freeing(h0, h, g, c, c, a, i)
      modifies this
      ensures Inv(h, g) && Freeing(h0, h, g, c, c, a, i) && QuietNext(g, a, i)
    {
      FreeingNext(h0, h, g, c, a, i);
      hide Inv, Freeing, Resized;
      var next := EndOf(h.chunks, c);
      if next < h.chunks[c].arena + h.arenas[h.chunks[c].arena].totalSize && h.chunks[next].free {
        ghost var h1, g1 := h, g;
        AbsorbNext(c, a, i);
        FreeingGrown(h0, h1, g1, h, g, c, a, i, h1.chunks[c].size + HDR + SizeOf(h1.chunks, g1.layout[a][i + 1]));
      }
    }

    /** free: coalesce with a free physical predecessor, which then stands for the chunk. */
    method CoalescePrev(ghost h0: Heap, c0: nat, ghost a: nat, ghost i: nat) returns (c: nat, ghost j: nat)
      requires Inv(h, g) && Freeing(h0, h, g, c0, c0, a, i) && QuietNext(g, a, i)
      modifies this
      ensures Inv(h, g) && Freeing(h0, h, g, c0, c, a, j) && QuietNext(g, a, j) && QuietPrev(g, a, j)
    {
      hide Inv, Freeing, MergeAt, MergeView, Unlisted, QuietNext, QuietPrev, Seat;
      FreeingPrev(h0, h, g, c0, a, i);
      c, j := c0, i;
      var prev := h.chunks[c0].prevPhys;
      if prev != 0 && h.chunks[prev].free {
        ghost var h1, g1 := h, g;
        RemoveFromFreeList(prev);
        PrevMerge(h0, h1, g1, h, g, c0, a, i);
        var end := h.chunks[c0].arena + h.arenas[h.chunks[c0].arena].totalSize;
        h := h.(chunks := MergeAt(h.chunks, prev, end));
        g := MergeView(g, a, i - 1);
        c, j := prev, i - 1;
      }
    }

    /** The end of free: an arena whose last chunk went is unmapped unless it is the only one;
        otherwise the coalesced chunk goes on the free list. */
    method Retire(ghost h0: Heap, ghost c0: nat, c: nat, ghost a: nat, ghost i: nat)
      requires Inv(h, g) && Freeing(h0, h, g, c0, c, a, i) && QuietNext(g, a, i) && QuietPrev(g, a, i)
      modifies this
      ensures Valid() && Keeps(h0, h, c0) && !Live(h, c0)
      ensures h.arenas.Keys ==
        if h0.arenas[a].activeChunks == 1 && h0.arenaCount > 1 then h0.arenas.Keys - {a} else h0.arenas.Keys
    {
      RetireFacts(h0, h, g, c0, c, a, i);
      hide Inv, Freeing, QuietNext, QuietPrev;
      ghost var h1 := h;
      var arena := h.chunks[c].arena;
      if h.arenas[arena].activeChunks == 0 && h.arenaCount > 1
         && h.chunks[c].prevPhys == 0 && EndOf(h.chunks, c) == arena + h.arenas[arena].totalSize {
        RetireDrop(h0, h, g, c0, c, a, i);
        h := Heap(h.chunks - {c}, h.free, h.arenas - {arena}, L.Remove(h.arenaList, arena), h.arenaCount - 1,
                  Erase(h.bytes, arena, h.arenas[arena].totalSize));
        g := DropView(g, c, a);
      } else {
        AddToFreeList(c, a, i);
        RetireList(h0, h1, h, c0, c);
      }
    }

    method FreeSmall(c0: nat)
      requires Valid() && Live(h, c0) && !h.chunks[c0].isMmap
      modifies this
      ensures Valid() && Keeps(old(h), h, c0) && !Live(h, c0)
      ensures var a := old(h.chunks[c0].arena);
        && a in old(h.arenas)
        && h.arenas.Keys == if old(h.arenas[a].activeChunks) == 1 && old(h.arenaCount) > 1
                            then old(h.arenas.Keys) - {a} else old(h.arenas.Keys)
    {
      ghost var h0 := h;
      ghost var a, i := WhereIs(h, g, c0);
      assert Seat(g, c0, a, i) && a in h.arenas;
      hide Inv, Freeing, ArenaOk;
      Give(c0, a, i);
      CoalesceNext(h0, c0, a, i);
      var c, j := CoalescePrev(h0, c0, a, i);
      Retire(h0, c0, c, a, j);
    }

    /** munmap of a large chunk. */
    method FreeLarge(c: nat)
      requires Valid() && c in h.chunks && h.chunks[c].isMmap
      modifies this
      ensures Valid() && Keeps(old(h), h, c) && !Live(h, c) && h.arenas == old(h.arenas)
    {
      MunmapInv(h, g, c);
      MunmapKeeps(h, g, c);
      hide Inv, Keeps;
      h := h.(chunks := h.chunks - {c}, bytes := Erase(h.bytes, c, HDR + SizeOf(h.chunks, c)));
    }

    /** free: NULL and a pointer whose chunk is already free are ignored. */
    method Free(ptr: nat)
      requires Valid() && (ptr == 0 || (ptr >= HDR && ptr - HDR in h.chunks))
      modifies this
      ensures Valid()
      ensures ptr == 0 || !Live(old(h), ptr - HDR) ==> h == old(h)
      ensures ptr != 0 ==> Keeps(old(h), h, ptr - HDR) && !Live(h, ptr - HDR)
    {
      if ptr == 0 { return; }
      var c := ptr - HDR;
      hide Inv;
      if h.chunks[c].free {
        KeepsSame(h, h, c);
        return;
      }
      hide Keeps;
      if h.chunks[c].isMmap { FreeLarge(c); } else { FreeSmall(c); }
    }

    /** The last part of malloc: a new arena of ArenaSize(size) bytes at mem. */
    method NewArena(size: nat, mem: nat) returns (c: nat)
      requires Valid() && size < LARGE && size % 16 == 0 && Fresh(h, mem, ArenaSize(size))
      modifies this
      ensures c == mem + AHDR && Live(h, c) && !Live(old(h), c) && SizeOf(h.chunks, c) == size
      ensures h.arenas == old(h).arenas[mem := Arena(ArenaSize(size), 1)] && h.arenaCount == old(h).arenaCount + 1
      ensures NoTail(size) ==> Valid() && Keeps(old(h), h, c)
      ensures !NoTail(size) ==> forall g' :: !Inv(h, g')
    {
      hide Inv, Keeps, Fresh, Resized, Enlisted, Cutting, SplitView, Erase, L.PushFront;
      ghost var h0, g0 := h, g;
      var total := ArenaSize(size);
      var remainder := total - AHDR - HDR - size;
      c := mem + AHDR;
      h := BareArena(h, mem, total, size);
      if remainder < HDR + 16 {
        if remainder == 0 {
          WholeChunk(h0, g0, mem, total);
          g := ArenaView(g, mem);
        } else {
          Untiled(h0, g0, mem, total, size);
        }
        return;
      }
      var rest := c + HDR + size;
      RestChunk(h0, g0, mem, total, size);
      h := h.(chunks := h.chunks[rest := Chunk(true, false, remainder - HDR, c, mem)]);
      g := SplitView(ArenaView(g, mem), mem, 0, rest);
      ghost var h1, g1 := h, g;
      AddToFreeList(rest, mem, 1);
      ArenaCut(h0, g0, h1, g1, h, g, mem, total, size);
    }

    /** The large branch of malloc: one mapping for one chunk. */
    method MapLarge(size: nat, mem: nat) returns (c: nat)
      requires Valid() && LARGE <= size < U64 && Fresh(h, mem, LargePages(size))
      modifies this
      ensures Valid() && c == mem && Live(h, c) && !Live(old(h), c) && Keeps(old(h), h, c)
      ensures SizeOf(h.chunks, c) == LargePages(size) - HDR && h.arenas == old(h.arenas)
    {
      var pages := LargePages(size);
      WholePages(size);
      MmapInv(h, g, mem, pages);
      MmapKeeps(h, g, mem, pages);
      hide Inv, Keeps, Fresh;
      c := mem;
      h := h.(chunks := h.chunks[c := Chunk(false, true, pages - HDR, 0, 0)], bytes := Erase(h.bytes, c, pages));
    }

    /** malloc; mem is what mmap would return, which refuses zero bytes. The chunk is as large as the
        request exactly if the request is at most MAX_REQUEST: above, the sums wrap. */
    method Malloc(size0: nat, mem: nat) returns (ptr: nat)
      requires Valid() && size0 < U64
      requires size0 > 0 && MmapOk(mem) ==> Fresh(h, mem, MapSize(Round16(size0)))
      modifies this
      ensures ptr == 0 <==> size0 == 0 || (NeedsMap(old(h), old(g), Round16(size0)) && !MmapOk(mem))
      ensures ptr == 0 ==> h == old(h) && g == old(g)
      ensures ptr != 0 ==> Handed(old(h), h, ptr) && (SizeOf(h.chunks, ptr - HDR) >= size0 <==> size0 <= MAX_REQUEST)
      ensures ptr != 0 && Round16(size0) >= LARGE ==>
        ptr == mem + HDR && SizeOf(h.chunks, mem) == LargePages(Round16(size0)) - HDR && h.arenas == old(h.arenas)
      ensures ptr != 0 && !NeedsMap(old(h), old(g), Round16(size0)) ==>
        IsFirstFit(old(h), old(g), Round16(size0), ptr - HDR) && h.arenas.Keys == old(h.arenas.Keys)
      ensures ptr != 0 && NeedsMap(old(h), old(g), Round16(size0)) && Round16(size0) < LARGE ==>
        ptr == mem + AHDR + HDR && h.arenas == old(h).arenas[mem := Arena(ArenaSize(Round16(size0)), 1)]
      ensures Untidy(old(h), old(g), Round16(size0), mem) ==> forall g' :: !Inv(h, g')
      ensures !Untidy(old(h), old(g), Round16(size0), mem) ==>
        Valid() && (ptr != 0 ==> Keeps(old(h), h, ptr - HDR) && Aligned(ptr))
    {
      hide Inv, Keeps, Fresh;
      if size0 == 0 { return 0; }
      var size := Round16(size0);
      RoundFits(size0);
      var c: nat;
      if size >= LARGE {
        if !MmapOk(mem) { return 0; }
        c := MapLarge(size, mem);
        AskedFor(size0, SizeOf(h.chunks, c));
        ChunkAligned(h, g, c);
        return c + HDR;
      }
      c := FirstFit(size);
      if c != 0 {
        TakeFrom(c, size);
        AskedFor(size0, SizeOf(h.chunks, c));
        ChunkAligned(h, g, c);
        return c + HDR;
      }
      if !MmapOk(mem) { return 0; }
      c := NewArena(size, mem);
      AskedFor(size0, size);
      if NoTail(size) { ChunkAligned(h, g, c); }
      ptr := c + HDR;
    }

    /** A client writes byte k of a chunk it holds. */
    method Store(c: nat, k: nat, v: nat)
      requires Valid() && Live(h, c) && k < SizeOf(h.chunks, c)
      modifies this
      ensures Valid() && h == old(h).(bytes := h.bytes) && Keeps(old(h), h, c)
      ensures Byte(h, c, k) == v && forall j: nat :: j != k ==> Byte(h, c, j) == Byte(old(h), c, j)
    {
      PokeInv(h, g, c, k, v);
      hide Inv, Keeps;
      h := h.(bytes := h.bytes[c + HDR + k := v]);
    }

    /** memcpy between the payloads of two chunks. */
    method CopyPayload(d: nat, c: nat, n: nat)
      requires Valid() && Live(h, d) && c in h.chunks && c != d && n <= SizeOf(h.chunks, c) && n <= SizeOf(h.chunks, d)
      modifies this
      ensures Valid() && h == old(h).(bytes := h.bytes) && g == old(g)
      ensures Keeps(old(h), h, d) && Copied(old(h), c, h, d, n)
    {
      Apart(h, g, c, d);
      hide Inv;
      ghost var h0 := h;
      var bytes: map<nat, nat> := h.bytes;
      for k := 0 to n
        invariant h == h0 && g == old(g) && CopiedUpTo(h0.bytes, bytes, c + HDR, d + HDR, k)
      {
        CopyStep(h0.bytes, bytes, c + HDR, d + HDR, k);
        bytes := PutByte(bytes, c + HDR + k, d + HDR + k);
      }
      h := h.(bytes := bytes);
      StoreInv(h0, g, bytes, c, d, n);
    }

    /** The last part of realloc: a new chunk, the contents copied, the old chunk freed. If the copy
        would leave the new chunk, stray is set and the state is the one before it. */
    method Move(c: nat, size0: nat, size: nat, mem: nat) returns (ptr: nat, stray: bool)
      requires Valid() && Live(h, c) && 0 < size0 < U64 && size == Round16(size0)
      requires size > 0 && MmapOk(mem) ==> Fresh(h, mem, MapSize(size))
      requires !Untidy(h, g, size, mem)
      modifies this
      ensures Valid() && (ptr == 0 <==> size == 0 || (NeedsMap(old(h), old(g), size) && !MmapOk(mem)))
      ensures ptr == 0 ==> h == old(h)
      ensures stray <==> Spills(old(h), c, size0, mem)
      ensures ptr != 0 ==>
        ptr >= HDR && ptr - HDR in h.chunks && (size <= MAX_REQUEST ==> SizeOf(h.chunks, ptr - HDR) >= size)
      ensures ptr != 0 && !stray ==> Moved(old(h), h, c, ptr - HDR, size)
      ensures stray ==> ptr != 0 && Handed(old(h), h, ptr) && SizeOf(h.chunks, ptr - HDR) == PAGE - HDR
      ensures stray ==> Keeps(old(h), h, ptr - HDR)
    {
      hide Inv, Keeps, Fresh, Copied, Round16, MapSize, Untidy;
      ghost var h0 := h;
      stray := false;
      MoveSizes(h, g, c, size0, mem);
      ptr := Malloc(size, mem);
      if ptr == 0 { return; }
      ghost var h1, d := h, ptr - HDR;
      StillLive(h0, h, c, d);
      var copyLen := if h.chunks[c].size < size then h.chunks[c].size else size;
      if copyLen > h.chunks[ptr - HDR].size {
        stray := true;
        return;
      }
      CopyPayload(ptr - HDR, c, copyLen);
      ghost var h2 := h;
      Free(c + HDR);
      MovedThrough(h0, h1, h2, h, c, d, size, copyLen);
    }

    /** realloc in place, for a chunk of an arena: shrink, or absorb a free chunk that follows. */
    method ResizeInPlace(c: nat, size: nat) returns (ok: bool)
      requires Valid() && Live(h, c) && !h.chunks[c].isMmap && size % 16 == 0
      modifies this
      ensures Valid() && (ok ==> Moved(old(h), h, c, c, size)) && (!ok ==> h == old(h) && g == old(g))
      ensures ok <==> RoomFor(old(h), c, size)
      ensures ok ==> c in h.chunks && size <= SizeOf(h.chunks, c) < size + HDR + 16
    {
      ghost var h0, g0 := h, g;
      ghost var a, i := WhereIs(h, g, c);
      assert Seat(g, c, a, i) && a in h.arenas;
      hide Inv, Resized, Moved, CutReady, QuietNext, ArenaOk;
      FreeMeansListed(h, g);
      if h.chunks[c].size >= size {
        if h.chunks[c].size >= size + HDR + 16 {
          CutReadyLive(h, g, c, a, i, size);
          Shrink(c, size, a, i);
          ResizedMoves(h0, g0, h, g, c, a, i, size, size);
        } else {
          SameMoves(h, c, size);
        }
        return true;
      }
      NextOf(h, g, c, a, i);
      var next := EndOf(h.chunks, c);
      if next < h.chunks[c].arena + h.arenas[h.chunks[c].arena].totalSize && h.chunks[next].free
         && h.chunks[c].size + HDR + h.chunks[next].size >= size {
        AbsorbNext(c, a, i);
        ghost var h1, g1 := h, g;
        GrownReady(h0, g0, h, g, c, a, i, size);
        if h.chunks[c].size >= size + HDR + 16 {
          Carve(c, size, a, i);
          ResizedTwice(h0, g0, h1, g1, h, g, c, a, i, h1.chunks[c].size, size);
        } else {
          ResizedMoves(h0, g0, h, g, c, a, i, h1.chunks[c].size, size);
        }
        return true;
      }
      ok := false;
    }

    /** realloc of a live chunk to a rounded size. */
    method Resize(c: nat, size0: nat, size: nat, mem: nat) returns (p: nat, stray: bool)
      requires Valid() && Live(h, c) && 0 < size0 < U64 && size == Round16(size0) && size % 16 == 0
      requires Moves(h, c + HDR, size) && MmapOk(mem) ==> Fresh(h, mem, MapSize(size))
      requires Moves(h, c + HDR, size) ==> !Untidy(h, g, size, mem)
      modifies this
      ensures Valid() && (p == 0 ==> h == old(h))
      ensures Stays(old(h), c, size) ==> p == c + HDR && !stray
      ensures !Stays(old(h), c, size) ==> (stray <==> Spills(old(h), c, size0, mem))
      ensures !Stays(old(h), c, size) ==> (p == 0 <==> size == 0 || (NeedsMap(old(h), old(g), size) && !MmapOk(mem)))
      ensures p != 0 ==> p >= HDR && p - HDR in h.chunks && (size <= MAX_REQUEST ==> SizeOf(h.chunks, p - HDR) >= size)
      ensures p != 0 && !stray ==> Moved(old(h), h, c, p - HDR, size)
      ensures Stays(old(h), c, size) && !old(h).chunks[c].isMmap ==> SizeOf(h.chunks, c) < size + HDR + 16
      ensures stray ==>
        p != 0 && Handed(old(h), h, p) && Keeps(old(h), h, p - HDR) && SizeOf(h.chunks, p - HDR) == PAGE - HDR
    {
      hide Inv, Keeps, Fresh, Moved, Round16, MapSize, NoTail, NeedsMap, RoomFor, Untidy, Spills;
      stray := false;
      if h.chunks[c].isMmap {
        if h.chunks[c].size >= size && h.chunks[c].size - size < 4096 {
          SameMoves(h, c, size);
          return c + HDR, false;
        }
      } else {
        var ok := ResizeInPlace(c, size);
        if ok { return c + HDR, false; }
      }
      NothingUntidy(h, g, size, mem);
      p, stray := Move(c, size0, size, mem);
    }

    /** realloc, for every 64-bit size; mem is what mmap would return. The chunk is as large as the
        request exactly if the request is at most MAX_REQUEST. stray says that the copy of the contents
        leaves the new chunk, which then has PAGE - HDR bytes; the state is the one before the copy. */
    method Realloc(ptr: nat, size0: nat, mem: nat) returns (p: nat, stray: bool)
      requires Valid() && size0 < U64 && (ptr == 0 || (ptr >= HDR && ptr - HDR in h.chunks))
      requires Moves(h, ptr, Round16(size0)) && size0 > 0 && MmapOk(mem) ==> Fresh(h, mem, MapSize(Round16(size0)))
      requires Moves(h, ptr, Round16(size0)) ==> !Untidy(h, g, Round16(size0), mem)
      modifies this
      ensures Valid() && (size0 > 0 && p == 0 ==> h == old(h))
      ensures p != 0 ==>
        p >= HDR && p - HDR in h.chunks && (SizeOf(h.chunks, p - HDR) >= size0 <==> size0 <= MAX_REQUEST)
      ensures ptr == 0 ==> (p == 0 <==> size0 == 0 || (NeedsMap(old(h), old(g), Round16(size0)) && !MmapOk(mem)))
      ensures ptr == 0 && p != 0 ==> Handed(old(h), h, p) && Keeps(old(h), h, p - HDR)
      ensures ptr != 0 && size0 == 0 ==> p == 0 && Keeps(old(h), h, ptr - HDR) && !Live(h, ptr - HDR)
      ensures ptr != 0 && size0 > 0 && !Live(old(h), ptr - HDR) ==> p == 0
      ensures stray <==> Moves(old(h), ptr, Round16(size0)) && ptr != 0 && Spills(old(h), ptr - HDR, size0, mem)
      ensures ptr != 0 && size0 > 0 && Live(old(h), ptr - HDR) ==>
        && (p != 0 && !stray ==> Moved(old(h), h, ptr - HDR, p - HDR, Round16(size0)))
        && (stray ==>
              p != 0 && Handed(old(h), h, p) && Keeps(old(h), h, p - HDR) && SizeOf(h.chunks, p - HDR) == PAGE - HDR)
        && (Stays(old(h), ptr - HDR, Round16(size0)) ==> p == ptr)
        && (Stays(old(h), ptr - HDR, Round16(size0)) && !old(h).chunks[ptr - HDR].isMmap ==>
              SizeOf(h.chunks, p - HDR) < Round16(size0) + HDR + 16)
        && (!Stays(old(h), ptr - HDR, Round16(size0)) ==>
              (p == 0 <==> Round16(size0) == 0 || (NeedsMap(old(h), old(g), Round16(size0)) && !MmapOk(mem))))
    {
      hide Inv, Keeps, Fresh, Moved, Round16, MapSize, NoTail, NeedsMap, Stays, LargePages, Untidy;
      p, stray := 0, false;
      if ptr == 0 {
        p := Malloc(size0, mem);
        return;
      }
      if size0 == 0 {
        Free(ptr);
        return;
      }
      if h.chunks[ptr - HDR].free { return; }
      RoundFits(size0);
      p, stray := Resize(ptr - HDR, size0, Round16(size0), mem);
      if p != 0 {
        InSpace(h, g, p - HDR);
        MaxRounds(size0);
        HoldsRequest(size0, SizeOf(h.chunks, p - HDR));
      }
    }
  }

  lemma SpillSizes(h: Heap)
    requires h.chunks == map[] && h.arenas == map[]
    ensures Round16(0x2_0000) == 0x2_0000 && LargePages(0x2_0000) == 0x2_1000 && Fresh(h, 0x10_0000, 0x2_1000)
    ensures Round16(U64 - 32) == U64 - 32 && LargePages(U64 - 32) == PAGE && Aligned(0x100_0000)
  {
  }

  /** No chunk of user space stays for a request of that size. */
  lemma NeverStays(h: Heap, g: View, c: nat, size: nat)
    requires Inv(h, g) && c in h.chunks && size > 2 * SPACE + HDR
    ensures !Stays(h, c, size)
  {
    InSpace(h, g, c);
    if EndOf(h.chunks, c) in h.chunks { InSpace(h, g, EndOf(h.chunks, c)); }
    hide Inv;
  }

  /** One such call: a chunk of more than 128 KiB is to grow to 2^64 - 32 bytes. */
  method SpilledRealloc() returns (a: Allocator, p: nat, stray: bool)
    ensures stray && p >= HDR && p - HDR in a.h.chunks && SizeOf(a.h.chunks, p - HDR) == 4048
  {
    a := new Allocator();
    ghost var h0, c := a.h, 0x10_0000;
    SpillSizes(a.h);
    hide Inv, Keeps, Fresh, Round16, LargePages, Stays, Moved, NothingFits, IsFirstFit, Aligned, Copied, NoTail;
    p := a.Malloc(0x2_0000, 0x10_0000);
    OnlyMapping(h0, a.h, a.g, c, 0x100_0000, PAGE);
    NeverStays(a.h, a.g, c, U64 - 32);
    p, stray := a.Realloc(p, U64 - 32, 0x100_0000);
  }
}

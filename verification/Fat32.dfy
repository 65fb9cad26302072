/** Reading cluster chains of a FAT32 volume (src/kernel/krdrivers/fs/fat32/fat32.c): the file
    allocation table behind a cache of one sector, the walk along a chain that gives up on cycles,
    and reading a slice of a file. A sector of the table is modelled as its 32-bit words. A read of
    the device either always succeeds at an address or always fails. */
module Fat32 {
  import opened Machine
  import L = DList

  const BAD: nat := 0x0FFF_FFF7
  const EOC: nat := 0x0FFF_FFF8
  const MASK: nat := 0x1000_0000   // one more than FAT32_CLUSTER_MASK

  datatype Option<T> = None | Some(value: T)

  /** sectors: the readable sectors of the table by address; data: the readable clusters. */
  datatype Volume = Volume(
    totalClusters: nat,
    bytesPerSector: nat,
    fatSize: nat,
    fatStart: nat,
    clusterSize: nat,
    sectors: map<nat, seq<nat>>,
    data: map<nat, seq<nat>>)

  ghost predicate VolumeOk(v: Volume) {
    && v.totalClusters < U32 && v.bytesPerSector > 0 && v.bytesPerSector % 4 == 0 && v.clusterSize > 0
    && (forall a :: a in v.sectors ==> |v.sectors[a]| * 4 == v.bytesPerSector)
    && (forall c :: c in v.data ==> 2 <= c < Limit(v) && |v.data[c]| == v.clusterSize)
  }

  // ---- the table as one sequence of words

  function Width(v: Volume): nat { v.bytesPerSector / 4 }

  ghost function SectorWords(v: Volume, a: nat): seq<nat> {
    if a in v.sectors then v.sectors[a] else seq(Width(v), i => 0)
  }

  /** The first n sectors of the table, one behind the other; a sector that cannot be read counts as
      zeros. */
  ghost function Table(v: Volume, n: nat): seq<nat> {
    if n == 0 then [] else Table(v, n - 1) + SectorWords(v, v.fatStart + n - 1)
  }

  lemma {:induction false} TableAt(v: Volume, n: nat, k: nat, j: nat)
    requires VolumeOk(v) && k < n && j < Width(v)
    ensures |Table(v, n)| == n * Width(v) && k * Width(v) + j < |Table(v, n)|
    ensures Table(v, n)[k * Width(v) + j] == SectorWords(v, v.fatStart + k)[j]
    decreases n
  {
    TableSize(v, n - 1);
    assert n * Width(v) == (n - 1) * Width(v) + Width(v);
    if k < n - 1 {
      TableAt(v, n - 1, k, j);
    }
  }

  lemma {:induction false} TableSize(v: Volume, n: nat)
    requires VolumeOk(v)
    ensures |Table(v, n)| == n * Width(v)
  {
    if n > 0 {
      TableSize(v, n - 1);
      assert n * Width(v) == (n - 1) * Width(v) + Width(v);
    }
  }

  /** The word of the table that stands for cluster c: its own below 2^30, where four times c fits into
      32 bits. */
  function WordOf(c: nat): nat { c % 0x4000_0000 }

  /** The sector that holds it. */
  ghost function SectorOf(v: Volume, c: nat): nat
    requires VolumeOk(v)
  {
    v.fatStart + WordOf(c) / Width(v)
  }

  /** The table entry of cluster c, without a cache. */
  ghost function Next(v: Volume, c: nat): Option<nat>
    requires VolumeOk(v)
  {
    TableSize(v, v.fatSize);
    if c < 2 || c >= (v.totalClusters + 2) % 0x1_0000_0000 || WordOf(c) >= |Table(v, v.fatSize)|
       || SectorOf(v, c) !in v.sectors then None
    else Some(Table(v, v.fatSize)[WordOf(c)] % 0x1000_0000)
  }

  /** In every chain the entry is the cluster's own word. */
  lemma OwnWord(c: nat)
    ensures WordOf(c) == c <==> c < 0x4000_0000
    ensures !End(c) ==> WordOf(c) == c
  {
  }

  // ---- where the driver looks it up

  /** The bound on cluster numbers, in 32-bit arithmetic. */
  function Limit(v: Volume): (n: nat)
    ensures n <= v.totalClusters + 2
  {
    (v.totalClusters + 2) % U32
  }

  function FatOffset(c: nat): nat { c * 4 % U32 }

  lemma OffsetIs(c: nat)
    ensures FatOffset(c) == 4 * WordOf(c)
  {
    DivUnique(c * 4, U32, c / 0x4000_0000, 4 * (c % 0x4000_0000));
  }

  /** The driver's sector and byte offset lead to that word. */
  lemma Located(v: Volume, c: nat)
    requires VolumeOk(v)
    ensures var o, i, w := FatOffset(c), WordOf(c), Width(v);
      && w > 0 && o / v.bytesPerSector == i / w && o % v.bytesPerSector / 4 == i % w < w
      && (i / w >= v.fatSize <==> i >= v.fatSize * w)
  {
    var i, w := WordOf(c), Width(v);
    OffsetIs(c);
    hide WordOf, FatOffset;
    DivMod(i, w);
    var q, r := i / w, i % w;
    assert 4 * i == q * v.bytesPerSector + 4 * r by { assert q * (4 * w) == 4 * (q * w); }
    DivUnique(4 * i, v.bytesPerSector, q, 4 * r);
    InTable(i, q, r, w, v.fatSize);
  }

  lemma InTable(i: nat, q: nat, r: nat, w: nat, n: nat)
    requires i == q * w + r && r < w
    ensures q >= n <==> i >= n * w
  {
    if q >= n { Times(n, q, w); } else { Times(q + 1, n, w); assert (q + 1) * w == q * w + w; }
  }

  lemma WordIn(v: Volume, n: nat, i: nat)
    requires VolumeOk(v) && Width(v) > 0 && i / Width(v) < n
    ensures i < |Table(v, n)| && Table(v, n)[i] == SectorWords(v, v.fatStart + i / Width(v))[i % Width(v)]
  {
    var w := Width(v);
    hide Table, SectorWords, VolumeOk;
    assert i == i / w * w + i % w;
    TableAt(v, n, i / w, i % w);
  }

  /** So the word found in the sector is the one of the table. */
  lemma Looked(v: Volume, c: nat, words: seq<nat>)
    requires VolumeOk(v) && 2 <= c < Limit(v)
    requires var k := FatOffset(c) / v.bytesPerSector;
      k < v.fatSize && v.fatStart + k in v.sectors && words == v.sectors[v.fatStart + k]
    ensures var j := FatOffset(c) % v.bytesPerSector / 4;
      j < |words| && Next(v, c) == Some(words[j] % MASK)
  {
    Located(v, c);
    assert |words| == Width(v);
    hide WordOf, FatOffset, Width, Table, VolumeOk;
    WordIn(v, v.fatSize, WordOf(c));
  }

  /** A value that ends a chain; entries 0 and 1 do so as well. */
  predicate End(c: nat) { c < 2 || c >= 0x0FFF_FFF8 }

  /** cs are the clusters of the chain that starts at c, up to an end marker. */
  ghost predicate IsChain(v: Volume, c: nat, cs: seq<nat>)
    requires VolumeOk(v)
    decreases |cs|
  {
    if cs == [] then End(c)
    else !End(c) && cs[0] == c && Next(v, c).Some? && IsChain(v, Next(v, c).value, cs[1..])
  }

  /** There is a chain that avoids the marker for bad clusters, which on a volume with enough clusters
      is also the number of one. */
  ghost predicate HasChain(v: Volume, c: nat)
    requires VolumeOk(v)
  {
    exists cs :: IsChain(v, c, cs) && 0x0FFF_FFF7 !in cs
  }

  lemma {:induction false} ChainUnique(v: Volume, c: nat, a: seq<nat>, b: seq<nat>)
    requires VolumeOk(v) && IsChain(v, c, a) && IsChain(v, c, b)
    ensures a == b
    decreases |a|
  {
    hide Next;
    if a != [] {
      ChainUnique(v, Next(v, c).value, a[1..], b[1..]);
      assert a == [a[0]] + a[1..] && b == [b[0]] + b[1..];
    }
  }

  lemma {:induction false} ChainTail(v: Volume, c: nat, cs: seq<nat>, i: nat)
    requires VolumeOk(v) && IsChain(v, c, cs) && i < |cs|
    ensures IsChain(v, cs[i], cs[i..]) && 2 <= cs[i] < v.totalClusters + 2
    decreases i
  {
    hide Next;
    if i > 0 {
      ChainTail(v, Next(v, c).value, cs[1..], i - 1);
      assert cs[1..][i - 1..] == cs[i..];
    } else {
      NextBound(v, c);
    }
  }

  lemma NextBound(v: Volume, c: nat)
    requires VolumeOk(v) && Next(v, c).Some?
    ensures 2 <= c < v.totalClusters + 2
  {
  }

  /** A chain that ends has no cycle. */
  lemma ChainDistinct(v: Volume, c: nat, cs: seq<nat>, i: nat, j: nat)
    requires VolumeOk(v) && IsChain(v, c, cs) && i < j < |cs|
    ensures cs[i] != cs[j]
  {
    if cs[i] == cs[j] {
      ChainTail(v, c, cs, i);
      ChainTail(v, c, cs, j);
      ChainUnique(v, cs[i], cs[i..], cs[j..]);
    }
  }

  /** So the bound on the number of clusters turns away no chain that ends. */
  lemma ChainFits(v: Volume, c: nat, cs: seq<nat>)
    requires VolumeOk(v) && IsChain(v, c, cs)
    ensures |cs| <= v.totalClusters
  {
    forall i, j | 0 <= i < j < |cs| ensures cs[i] != cs[j] { ChainDistinct(v, c, cs, i, j); }
    forall i | 0 <= i < |cs| ensures 2 <= cs[i] < 2 + v.totalClusters { ChainTail(v, c, cs, i); }
    L.Pigeonhole(cs, 2, v.totalClusters);
  }

  /** Following the table from c visits the clusters w and arrives at d. */
  ghost predicate Path(v: Volume, c: nat, w: seq<nat>, d: nat)
    requires VolumeOk(v)
    decreases |w|
  {
    if w == [] then c == d
    else !End(c) && w[0] == c && Next(v, c).Some? && Path(v, Next(v, c).value, w[1..], d)
  }

  lemma {:induction false} PathStep(v: Volume, c: nat, w: seq<nat>, d: nat)
    requires VolumeOk(v) && Path(v, c, w, d) && !End(d) && Next(v, d).Some?
    ensures Path(v, c, w + [d], Next(v, d).value)
    decreases |w|
  {
    hide Next;
    if w != [] {
      PathStep(v, Next(v, c).value, w[1..], d);
      assert (w + [d])[1..] == w[1..] + [d];
    }
  }

  /** A path runs along the chain, and a chain from its end completes it. */
  lemma {:induction false} PathInChain(v: Volume, c: nat, w: seq<nat>, d: nat, cs: seq<nat>)
    requires VolumeOk(v) && Path(v, c, w, d) && IsChain(v, c, cs)
    ensures |w| <= |cs| && cs[..|w|] == w && IsChain(v, d, cs[|w|..])
    decreases |w|
  {
    hide Next;
    if w != [] {
      PathInChain(v, Next(v, c).value, w[1..], d, cs[1..]);
      assert cs[1..][|w| - 1..] == cs[|w|..];
      assert cs[..|w|] == [cs[0]] + cs[1..][..|w| - 1];
    }
  }

  lemma {:induction false} PathIsChain(v: Volume, c: nat, w: seq<nat>, d: nat)
    requires VolumeOk(v) && Path(v, c, w, d) && End(d)
    ensures IsChain(v, c, w)
    decreases |w|
  {
    hide Next;
    if w != [] { PathIsChain(v, Next(v, c).value, w[1..], d); }
  }

  /** The bytes of the clusters, one after the other. */
  ghost function Content(v: Volume, cs: seq<nat>): seq<nat> {
    if cs == [] then [] else ClusterData(v, cs[0]) + Content(v, cs[1..])
  }

  ghost predicate Readable(v: Volume, cs: seq<nat>) { forall c :: c in cs ==> c in v.data }

  lemma {:induction false} ContentJoin(v: Volume, a: seq<nat>, b: seq<nat>)
    ensures Content(v, a + b) == Content(v, a) + Content(v, b)
  {
    if a == [] {
      assert a + b == b;
    } else {
      ContentJoin(v, a[1..], b);
      ContentHead(v, a);
      ContentHead(v, a + b);
      assert (a + b)[0] == a[0] && (a + b)[1..] == a[1..] + b;
      hide Content;
      Associate(ClusterData(v, a[0]), Content(v, a[1..]), Content(v, b));
    }
  }

  ghost function ClusterData(v: Volume, c: nat): seq<nat> { if c in v.data then v.data[c] else [] }

  lemma ContentHead(v: Volume, cs: seq<nat>)
    requires cs != []
    ensures Content(v, cs) == ClusterData(v, cs[0]) + Content(v, cs[1..])
  {
  }

  lemma ContentOne(v: Volume, c: nat)
    ensures Content(v, [c]) == ClusterData(v, c)
  {
    assert Content(v, [c][1..]) == [];
  }

  lemma Associate(x: seq<nat>, y: seq<nat>, z: seq<nat>)
    ensures x + (y + z) == x + y + z
  {
  }

  function ClusterIndex(v: Volume, offset: nat): nat
    requires v.clusterSize > 0
  {
    offset / v.clusterSize
  }

  function ClusterOffset(v: Volume, offset: nat): (r: nat)
    requires v.clusterSize > 0
    ensures r < v.clusterSize
  {
    offset % v.clusterSize
  }

  ghost predicate Good(v: Volume, start: nat, cs: seq<nat>)
    requires VolumeOk(v)
  {
    IsChain(v, start, cs) && Readable(v, cs)
  }

  function Chunk(clusterSize: nat, off: nat, left: nat): nat
    requires off < clusterSize
  {
    if clusterSize - off > left then left else clusterSize - off
  }

  /** The bytes from o on, n of them or as many as there are. */
  ghost function Slice(s: seq<nat>, o: nat, n: nat): seq<nat> {
    if o >= |s| then [] else if o + n >= |s| then s[o..] else s[o..o + n]
  }

  /** The number of bytes that fat32_read sets out to read, in 64-bit arithmetic. */
  function Clip(offset: nat, size: nat, fileSize: nat): nat
    requires offset < fileSize
  {
    if Wrap64(offset + size) > fileSize then fileSize - offset else size
  }

  /** It is cut off at the file size exactly if the sum does not wrap. */
  lemma ClipExact(offset: nat, size: nat, fileSize: nat)
    requires offset < fileSize < U32 && size < U64
    ensures offset + size < U64 <==>
      Clip(offset, size, fileSize) == if size < fileSize - offset then size else fileSize - offset
  {
  }

  /** Where cluster number i of a file starts. */
  ghost function Edge(v: Volume, i: nat): nat { i * v.clusterSize }

  lemma EdgeNext(v: Volume, i: nat)
    ensures Edge(v, i + 1) == Edge(v, i) + v.clusterSize && Edge(v, 0) == 0
  {
  }

  lemma {:induction false} ContentLength(v: Volume, cs: seq<nat>)
    requires VolumeOk(v) && Readable(v, cs)
    ensures |Content(v, cs)| == Edge(v, |cs|)
  {
    hide Edge;
    EdgeNext(v, if cs == [] then 0 else |cs| - 1);
    if cs != [] {
      assert cs[0] in cs;
      ContentLength(v, cs[1..]);
    }
  }

  // ---- what fat32_read reads

  /** The number of clusters that hold the bytes from skip on, want of them. */
  ghost function Need(v: Volume, skip: nat, want: nat): nat
    requires v.clusterSize > 0
  {
    (skip + want + v.clusterSize - 1) / v.clusterSize
  }

  lemma NeedIs(v: Volume, skip: nat, want: nat)
    requires v.clusterSize > 0 && want > 0
    ensures Need(v, skip, want) >= 1 && Edge(v, Need(v, skip, want) - 1) < skip + want <= Edge(v, Need(v, skip, want))
  {
    var x, q := skip + want + v.clusterSize - 1, Need(v, skip, want);
    DivMod(x, v.clusterSize);
    assert q * v.clusterSize == (q - 1) * v.clusterSize + v.clusterSize;
    assert q * v.clusterSize > 0;
  }

  /** n clusters are enough exactly from Need on. */
  lemma NeedLeast(v: Volume, skip: nat, want: nat, n: nat)
    requires v.clusterSize > 0 && want > 0
    ensures n >= Need(v, skip, want) <==> skip + want <= Edge(v, n)
  {
    NeedIs(v, skip, want);
    var q := Need(v, skip, want);
    hide Need;
    if n >= q { EdgeMono(v, q, n); } else { EdgeMono(v, n, q - 1); }
  }

  lemma EdgeMono(v: Volume, i: nat, j: nat)
    requires i <= j
    ensures Edge(v, i) <= Edge(v, j)
  {
    assert j * v.clusterSize == i * v.clusterSize + (j - i) * v.clusterSize;
  }

  /** From cluster c on, ds are the clusters to read: n of them, or fewer if the chain ends. */
  ghost predicate Reads(v: Volume, c: nat, ds: seq<nat>, n: nat)
    requires VolumeOk(v)
  {
    || (|ds| < n && exists e :: Path(v, c, ds, e) && End(e))
    || (|ds| == n > 0 && !End(ds[n - 1]) && Path(v, c, ds[..n - 1], ds[n - 1]))
  }

  /** A cluster is read in part, which takes a buffer. */
  ghost predicate Partial(v: Volume, ds: seq<nat>, skip: nat, want: nat)
    requires v.clusterSize > 0
  {
    (ds != [] && skip != 0) || (|ds| == Need(v, skip, want) && skip + want != Edge(v, |ds|))
  }

  ghost predicate Readily(v: Volume, c: nat, ds: seq<nat>, skip: nat, want: nat, mem: bool)
    requires VolumeOk(v)
  {
    Reads(v, c, ds, Need(v, skip, want)) && Readable(v, ds) && (mem || !Partial(v, ds, skip, want))
  }

  ghost predicate CanRead(v: Volume, c: nat, skip: nat, want: nat, mem: bool)
    requires VolumeOk(v)
  {
    exists ds :: Readily(v, c, ds, skip, want, mem)
  }

  /** Any such clusters run along the path, as long as it does not end and more are needed. */
  lemma {:induction false} PathInReads(v: Volume, c: nat, w: seq<nat>, d: nat, ds: seq<nat>, n: nat)
    requires VolumeOk(v) && Path(v, c, w, d) && !End(d) && |w| < n && Reads(v, c, ds, n)
    ensures |w| < |ds| && ds[|w|] == d && (|w| + 1 < n ==> Next(v, d).Some?)
    decreases |w|
  {
    hide Next;
    if ds != [] {
      ReadsTail(v, c, ds, n);
      if w != [] { PathInReads(v, Next(v, c).value, w[1..], d, ds[1..], n - 1); }
    }
  }

  lemma ReadsTail(v: Volume, c: nat, ds: seq<nat>, n: nat)
    requires VolumeOk(v) && Reads(v, c, ds, n) && ds != []
    ensures n > 0 && ds[0] == c && !End(c)
    ensures n > 1 ==> Next(v, c).Some? && Reads(v, Next(v, c).value, ds[1..], n - 1)
  {
    hide Next;
    if |ds| == n > 1 { assert ds[..n - 1][1..] == ds[1..][..n - 2]; }
  }

  /** The copying loop has read the clusters ds and is at cluster c with left bytes to go. */
  ghost predicate Copying(v: Volume, first: nat, ds: seq<nat>, c: nat, off: nat, left: nat, skip: nat, want: nat,
                          mem: bool, out: seq<nat>) {
    && VolumeOk(v) && skip < v.clusterSize && left <= want && Readable(v, ds)
    && out == Slice(Content(v, ds), skip, want)
    && if left == 0 then Readily(v, first, ds, skip, want, mem)
       else
         && Path(v, first, ds, c) && off == (if ds == [] then skip else 0)
         && Edge(v, |ds|) + off + left == skip + want && (mem || ds == [] || skip == 0)
  }

  lemma CopyStart(v: Volume, first: nat, skip: nat, want: nat, mem: bool)
    requires VolumeOk(v) && skip < v.clusterSize && want > 0
    ensures Copying(v, first, [], first, skip, want, skip, want, mem, [])
  {
    hide Next;
    EdgeNext(v, 0);
  }

  lemma CopyFacts(v: Volume, first: nat, ds: seq<nat>, c: nat, off: nat, left: nat, skip: nat, want: nat, mem: bool,
                  out: seq<nat>)
    requires Copying(v, first, ds, c, off, left, skip, want, mem, out) && left > 0 && off < v.clusterSize
    ensures VolumeOk(v) && (c in v.data ==> |v.data[c]| == v.clusterSize)
    ensures 0 < Chunk(v.clusterSize, off, left) <= left && off + Chunk(v.clusterSize, off, left) <= v.clusterSize
  {
    hide Path, Readily, Content, Slice, Edge;
  }

  /** The cluster cannot be read: then nothing can. */
  lemma CopyStuck(v: Volume, first: nat, ds: seq<nat>, c: nat, off: nat, left: nat, skip: nat, want: nat, mem: bool,
                  out: seq<nat>)
    requires Copying(v, first, ds, c, off, left, skip, want, mem, out) && left > 0 && !End(c) && off < v.clusterSize
    requires c !in v.data || (!mem && Chunk(v.clusterSize, off, left) < v.clusterSize)
             || (Next(v, c).None? && left > Chunk(v.clusterSize, off, left))
    ensures !CanRead(v, first, skip, want, mem)
  {
    hide Next;
    EdgeNext(v, |ds|);
    NeedLeast(v, skip, want, |ds|);
    NeedLeast(v, skip, want, |ds| + 1);
    hide Edge, Need, Next, Path;
    forall es ensures !Readily(v, first, es, skip, want, mem) {
      if Reads(v, first, es, Need(v, skip, want)) {
        PathInReads(v, first, ds, c, es, Need(v, skip, want));
        assert c in es;
      }
    }
  }

  /** The cluster is copied. */
  lemma CopyData(v: Volume, ds: seq<nat>, c: nat, off: nat, left: nat, skip: nat, want: nat)
    requires VolumeOk(v) && Readable(v, ds) && c in v.data && left > 0 && skip < v.clusterSize
    requires off == (if ds == [] then skip else 0) && Edge(v, |ds|) + off + left == skip + want
    ensures var k := Chunk(v.clusterSize, off, left);
      && off + k <= |v.data[c]|
      && Slice(Content(v, ds + [c]), skip, want) == Slice(Content(v, ds), skip, want) + v.data[c][off..off + k]
    ensures Readable(v, ds + [c])
  {
    EdgeNext(v, |ds|);
    EdgeMono(v, 1, if ds == [] then 1 else |ds|);
    EdgeNext(v, 0);
    ContentLength(v, ds);
    ContentJoin(v, ds, [c]);
    ContentOne(v, c);
    hide Edge, Content;
    SliceGrows(Content(v, ds), v.data[c], skip, want, off, left);
  }

  lemma SliceGrows(s: seq<nat>, t: seq<nat>, skip: nat, want: nat, off: nat, left: nat)
    requires |s| + off + left == skip + want && left > 0 && |t| > off && (s == [] ==> off == skip)
    requires s != [] ==> off == 0 && skip <= |s|
    ensures Slice(s + t, skip, want) == Slice(s, skip, want) + t[off..off + Chunk(|t|, off, left)]
  {
    var k := Chunk(|t|, off, left);
    if s == [] {
      assert s + t == t;
      assert Slice(t, skip, want) == t[off..off + k];
    } else {
      assert Slice(s, skip, want) == s[skip..];
      assert Slice(s + t, skip, want) == (s + t)[skip..|s| + k];
    }
  }

  lemma CopyStep(v: Volume, first: nat, ds: seq<nat>, c: nat, off: nat, left: nat, skip: nat, want: nat, mem: bool,
                 out: seq<nat>)
    requires Copying(v, first, ds, c, off, left, skip, want, mem, out) && left > 0 && !End(c) && off < v.clusterSize
    requires c in v.data && (mem || Chunk(v.clusterSize, off, left) == v.clusterSize)
    requires left > Chunk(v.clusterSize, off, left) ==> Next(v, c).Some?
    ensures var k := Chunk(v.clusterSize, off, left);
      && off + k <= |v.data[c]| && k <= left
      && Copying(v, first, ds + [c], if left > k then Next(v, c).value else c, 0, left - k, skip, want, mem,
                 out + v.data[c][off..off + k])
  {
    hide Next;
    CopyData(v, ds, c, off, left, skip, want);
    EdgeNext(v, |ds|);
    if left > Chunk(v.clusterSize, off, left) {
      PathStep(v, first, ds, c);
      hide Edge, Next, Content, Slice, VolumeOk, Path;
    } else {
      NeedLeast(v, skip, want, |ds|);
      NeedLeast(v, skip, want, |ds| + 1);
      hide Edge, Need, Next, Content, Slice, VolumeOk, Path;
      assert (ds + [c])[..|ds|] == ds;
    }
  }

  /** The chain ends: what has been copied is all there is. */
  lemma CopyEnd(v: Volume, first: nat, ds: seq<nat>, c: nat, off: nat, left: nat, skip: nat, want: nat, mem: bool,
                out: seq<nat>)
    requires Copying(v, first, ds, c, off, left, skip, want, mem, out) && (left == 0 || End(c)) && want > 0
    ensures Readily(v, first, ds, skip, want, mem) && CanRead(v, first, skip, want, mem)
    ensures out == Slice(Content(v, ds), skip, want)
  {
    hide Next;
    if left > 0 {
      NeedLeast(v, skip, want, |ds|);
      hide Edge, Need, Content, Slice;
    }
    assert Readily(v, first, ds, skip, want, mem);
  }

  // ---- files with a chain that ends

  /** The first i clusters of a chain are a path. */
  lemma {:induction false} ChainPath(v: Volume, c: nat, cs: seq<nat>, i: nat) returns (d: nat)
    requires VolumeOk(v) && IsChain(v, c, cs) && i <= |cs|
    ensures Path(v, c, cs[..i], d) && IsChain(v, d, cs[i..]) && (i < |cs| ==> d == cs[i])
    decreases i
  {
    hide Next;
    if i == 0 {
      d := c;
      assert cs[0..] == cs;
    } else {
      d := ChainPath(v, Next(v, c).value, cs[1..], i - 1);
      assert cs[..i][1..] == cs[1..][..i - 1] && cs[1..][i - 1..] == cs[i..];
    }
  }

  /** What is read from a chain is a prefix of it. */
  lemma ReadsChain(v: Volume, c: nat, cs: seq<nat>, n: nat)
    requires VolumeOk(v) && IsChain(v, c, cs) && n > 0
    ensures Reads(v, c, if |cs| < n then cs else cs[..n], n)
    ensures forall ds :: Reads(v, c, ds, n) ==> ds == if |cs| < n then cs else cs[..n]
  {
    hide Next;
    if |cs| < n {
      var e := ChainPath(v, c, cs, |cs|);
      assert cs[..|cs|] == cs;
    } else {
      var e := ChainPath(v, c, cs, n - 1);
      assert cs[..n][..n - 1] == cs[..n - 1];
    }
    forall ds | Reads(v, c, ds, n) ensures ds == if |cs| < n then cs else cs[..n] { ReadsOnce(v, c, cs, ds, n); }
  }

  lemma ReadsOnce(v: Volume, c: nat, cs: seq<nat>, ds: seq<nat>, n: nat)
    requires VolumeOk(v) && IsChain(v, c, cs) && n > 0 && Reads(v, c, ds, n)
    ensures ds == if |cs| < n then cs else cs[..n]
  {
    hide Next;
    if |ds| < n {
      var e :| Path(v, c, ds, e) && End(e);
      PathInChain(v, c, ds, e, cs);
      assert cs[|ds|..] == [];
    } else {
      PathInChain(v, c, ds[..n - 1], ds[n - 1], cs);
      assert ds == ds[..n - 1] + [ds[n - 1]] && cs[..n] == cs[..n - 1] + [cs[n - 1]];
    }
  }

  /** If the file has a chain of readable clusters, what is read is the slice of its content. */
  lemma GoodFile(v: Volume, start: nat, cs: seq<nat>, w: seq<nat>, c: nat, ds: seq<nat>, skip: nat, want: nat)
    requires VolumeOk(v) && Good(v, start, cs) && skip < v.clusterSize && want > 0
    requires Path(v, start, w, c) && Reads(v, c, ds, Need(v, skip, want))
    ensures |w| <= |cs| && Slice(Content(v, ds), skip, want) == Slice(Content(v, cs), Edge(v, |w|) + skip, want)
  {
    var n := Need(v, skip, want);
    NeedIs(v, skip, want);
    hide *;
    var more := ThreeParts(v, start, cs, w, c, ds, n);
    PartsLength(cs, w, ds + more);
    FileSlice(v, w, ds, more, skip, want);
  }

  lemma PartsLength(s: seq<nat>, x: seq<nat>, y: seq<nat>)
    requires s == x + y
    ensures |x| <= |s|
  {
  }

  lemma FileSlice(v: Volume, w: seq<nat>, ds: seq<nat>, more: seq<nat>, skip: nat, want: nat)
    requires VolumeOk(v) && Readable(v, w) && Readable(v, ds) && (more == [] || skip + want <= Edge(v, |ds|))
    ensures Slice(Content(v, ds), skip, want) == Slice(Content(v, w + (ds + more)), Edge(v, |w|) + skip, want)
  {
    ContentJoin(v, w, ds + more);
    ContentJoin(v, ds, more);
    ContentLength(v, w);
    ContentLength(v, ds);
    assert more == [] ==> Content(v, more) == [];
    hide *;
    SliceInside(Content(v, w), Content(v, ds), Content(v, more), skip, want);
  }

  /** A chain is what is walked, what is read, and the rest. */
  lemma ThreeParts(v: Volume, start: nat, cs: seq<nat>, w: seq<nat>, c: nat, ds: seq<nat>, n: nat)
    returns (more: seq<nat>)
    requires VolumeOk(v) && Good(v, start, cs) && Path(v, start, w, c) && Reads(v, c, ds, n) && n > 0
    ensures cs == w + (ds + more) && (more == [] || |ds| == n) && Readable(v, w) && Readable(v, ds)
  {
    hide Next;
    PathInChain(v, start, w, c, cs);
    ReadsOnce(v, c, cs[|w|..], ds, n);
    hide IsChain, Path, Reads;
    more := if |cs| - |w| < n then [] else cs[|w| + n..];
  }

  lemma SliceInside(x: seq<nat>, y: seq<nat>, z: seq<nat>, skip: nat, want: nat)
    requires z == [] || skip + want <= |y|
    ensures Slice(y, skip, want) == Slice(x + (y + z), |x| + skip, want)
  {
  }

  /** And it can be read, if the offset is not behind the chain. */
  lemma GoodReads(v: Volume, start: nat, cs: seq<nat>, index: nat, skip: nat, want: nat) returns (c: nat)
    requires VolumeOk(v) && Good(v, start, cs) && skip < v.clusterSize && want > 0 && index <= |cs|
    ensures Path(v, start, cs[..index], c) && CanRead(v, c, skip, want, true)
  {
    hide Next;
    c := ChainPath(v, start, cs, index);
    var n, rest := Need(v, skip, want), cs[index..];
    NeedIs(v, skip, want);
    hide Need, Edge;
    ReadsChain(v, c, rest, n);
    var ds := if |rest| < n then rest else rest[..n];
    assert Readily(v, c, ds, skip, want, true);
  }

  /** The offset lies in cluster number index, skip bytes from its start. */
  lemma SkipLands(v: Volume, offset: nat)
    requires v.clusterSize > 0
    ensures Edge(v, ClusterIndex(v, offset)) + ClusterOffset(v, offset) == offset
  {
  }

  /** index clusters from start on, and then the rest, can be read. */
  ghost predicate FileReads(v: Volume, start: nat, index: nat, skip: nat, want: nat, mem: bool)
    requires VolumeOk(v)
  {
    exists w, c :: |w| == index && Path(v, start, w, c) && CanRead(v, c, skip, want, mem)
  }

  lemma {:induction false} PathOnce(v: Volume, c: nat, w: seq<nat>, d: nat, x: seq<nat>, e: nat)
    requires VolumeOk(v) && Path(v, c, w, d) && Path(v, c, x, e) && |w| == |x|
    ensures w == x && d == e
    decreases |w|
  {
    hide Next;
    if w != [] {
      PathOnce(v, Next(v, c).value, w[1..], d, x[1..], e);
      assert w == [w[0]] + w[1..] && x == [x[0]] + x[1..];
    }
  }

  /** A walk that stops early makes a longer one impossible. */
  lemma {:induction false} PathStops(v: Volume, c: nat, w: seq<nat>, d: nat, x: seq<nat>, e: nat)
    requires VolumeOk(v) && Path(v, c, w, d) && (End(d) || Next(v, d).None?) && |w| < |x|
    ensures !Path(v, c, x, e)
    decreases |w|
  {
    hide Next;
    if w != [] && x[0] == c { PathStops(v, Next(v, c).value, w[1..], d, x[1..], e); }
  }

  lemma NoChain(v: Volume, c: nat, w: seq<nat>, d: nat)
    requires VolumeOk(v) && Path(v, c, w, d) && !End(d) && (Next(v, d).None? || d == BAD)
    ensures !HasChain(v, c)
  {
    hide Next;
    forall cs | IsChain(v, c, cs) ensures BAD in cs {
      PathInChain(v, c, w, d, cs);
      assert cs[|w|..][0] == cs[|w|];
    }
  }

  lemma TooLong(v: Volume, c: nat, w: seq<nat>, d: nat)
    requires VolumeOk(v) && Path(v, c, w, d) && !End(d) && |w| >= v.totalClusters
    ensures !HasChain(v, c)
  {
    forall cs | IsChain(v, c, cs) ensures false {
      PathInChain(v, c, w, d, cs);
      ChainFits(v, c, cs);
    }
  }

  lemma OnlyChain(v: Volume, c: nat, cs: seq<nat>, mem: bool)
    requires VolumeOk(v) && IsChain(v, c, cs)
    ensures (exists ds :: IsChain(v, c, ds) && BAD !in ds && (ds == [] || (mem && Readable(v, ds)))) <==>
      BAD !in cs && (cs == [] || (mem && Readable(v, cs)))
  {
    hide Next;
    forall ds | IsChain(v, c, ds) ensures ds == cs { ChainUnique(v, c, cs, ds); }
  }

  lemma AtIndex(v: Volume, start: nat, cs: seq<nat>, i: nat, c: nat)
    requires VolumeOk(v) && IsChain(v, start, cs) && i < |cs| && Path(v, start, cs[..i], c)
    ensures c == cs[i] && !End(c) && Next(v, c).Some?
  {
    hide Next;
    PathInChain(v, start, cs[..i], c, cs);
  }

  lemma AllRead(v: Volume, start: nat, cs: seq<nat>, i: nat, c: nat)
    requires VolumeOk(v) && IsChain(v, start, cs) && i <= |cs| && Path(v, start, cs[..i], c) && (End(c) || i >= |cs|)
    ensures i == |cs|
  {
    hide Next;
    PathInChain(v, start, cs[..i], c, cs);
  }

  lemma EndIs(c: nat)
    ensures End(c) <==> !(2 <= c < EOC)
  {
  }

  lemma FileDone(v: Volume, start: nat, offset: nat, want: nat, mem: bool, cs: seq<nat>, ok: bool, w: seq<nat>, c: nat,
                 ds: seq<nat>)
    requires VolumeOk(v) && want > 0 && Path(v, start, w, c)
    requires var index, skip := ClusterIndex(v, offset), ClusterOffset(v, offset);
      if |w| == index then (ok <==> CanRead(v, c, skip, want, mem)) && (ok ==> Readily(v, c, ds, skip, want, mem))
      else !ok && |w| < index && (End(c) || Next(v, c).None?)
    ensures var index, skip := ClusterIndex(v, offset), ClusterOffset(v, offset);
      && (ok <==> FileReads(v, start, index, skip, want, mem))
      && (Good(v, start, cs) ==> (mem ==> (ok <==> index <= |cs|))
                                 && (ok ==> Slice(Content(v, ds), skip, want) == Slice(Content(v, cs), offset, want)))
  {
    var index, skip := ClusterIndex(v, offset), ClusterOffset(v, offset);
    SkipLands(v, offset);
    hide Edge, ClusterIndex, Slice, Content, CanRead, Next, Need;
    forall x, e | |x| == index && Path(v, start, x, e) ensures |w| == index && w == x && c == e {
      if |w| < index { PathStops(v, start, w, c, x, e); } else { PathOnce(v, start, w, c, x, e); }
    }
    if Good(v, start, cs) {
      if ok { GoodFile(v, start, cs, w, c, ds, skip, want); }
      if mem && index <= |cs| { var e := GoodReads(v, start, cs, index, skip, want); }
    }
  }

  class Reader {
    const v: Volume
    var cacheLba: Option<nat>
    var cache: seq<nat>

    ghost predicate Valid()
      reads this
    {
      VolumeOk(v) && (cacheLba.Some? ==> cacheLba.value in v.sectors && cache == v.sectors[cacheLba.value])
    }

    constructor (volume: Volume)
      requires VolumeOk(volume)
      ensures Valid() && v == volume
    {
      v := volume;
      cacheLba, cache := None, [];
    }

    /** get_next_cluster: with the cache, sector by sector, the word of the table that stands for the
        cluster. */
    method GetNext(c: nat) returns (r: Option<nat>)
      requires Valid()
      modifies this
      ensures Valid() && r == Next(v, c)
      ensures r.Some? ==> cacheLba == Some(SectorOf(v, c))
    {
      if c < 2 || c >= Limit(v) { return None; }
      Located(v, c);
      TableSize(v, v.fatSize);
      hide Table, WordOf, FatOffset, Width;
      var sector := FatOffset(c) / v.bytesPerSector;
      if sector >= v.fatSize { return None; }
      var lba := v.fatStart + sector;
      if cacheLba != Some(lba) {
        if lba !in v.sectors {
          cacheLba := None;
          return None;
        }
        cache := v.sectors[lba];
        cacheLba := Some(lba);
      }
      Looked(v, c, cache);
      r := Some(cache[FatOffset(c) % v.bytesPerSector / 4] % MASK);
    }

    /** The first walk of read_cluster_chain: the length of the chain. */
    method CountClusters(start: nat) returns (ok: bool, n: nat, ghost cs: seq<nat>)
      requires Valid()
      modifies this
      ensures Valid() && (ok <==> HasChain(v, start))
      ensures (ok ==> IsChain(v, start, cs) && 0x0FFF_FFF7 !in cs && n == |cs|)
    {
      hide Next;
      ok, n, cs := false, 0, [];
      var c: nat := start;
      while 2 <= c < EOC
        invariant Valid() && Path(v, start, cs, c) && n == |cs| <= v.totalClusters && BAD !in cs
        decreases v.totalClusters + 1 - n
      {
        if c == BAD {
          NoChain(v, start, cs, c);
          return;
        }
        n := n + 1;
        if n > v.totalClusters {
          TooLong(v, start, cs, c);
          return;
        }
        var next := GetNext(c);
        if next.None? {
          NoChain(v, start, cs, c);
          return;
        }
        PathStep(v, start, cs, c);
        cs, c := cs + [c], next.value;
      }
      PathIsChain(v, start, cs, c);
      ok := true;
    }

    /** read_cluster_chain; mem says whether kmalloc has room for the buffer. */
    method ReadChain(start: nat, mem: bool) returns (ok: bool, out: seq<nat>, ghost cs: seq<nat>)
      requires Valid()
      modifies this
      ensures Valid() && (ok ==> start >= 2 && IsChain(v, start, cs) && out == Content(v, cs))
      ensures ok <==>
        start >= 2
        && exists ds :: IsChain(v, start, ds) && 0x0FFF_FFF7 !in ds && (ds == [] || (mem && Readable(v, ds)))
    {
      hide Next;
      out, cs := [], [];
      if start < 2 { return false, [], []; }
      var n: nat;
      ok, n, cs := CountClusters(start);
      if !ok { return; }
      OnlyChain(v, start, cs, mem);
      if n == 0 { return; }
      if !mem { return false, [], cs; }
      ok, out := ReadClusters(start, n, cs);
    }

    /** The second walk: read the clusters. */
    method ReadClusters(start: nat, n: nat, ghost cs: seq<nat>) returns (ok: bool, out: seq<nat>)
      requires Valid() && IsChain(v, start, cs) && n == |cs|
      modifies this
      ensures Valid() && (ok <==> Readable(v, cs)) && (ok ==> out == Content(v, cs))
    {
      hide Next;
      out := [];
      var c: nat, i := start, 0;
      assert cs[..0] == [];
      while 2 <= c < EOC && i < n
        invariant Valid() && i <= n && Path(v, start, cs[..i], c) && out == Content(v, cs[..i]) && Readable(v, cs[..i])
        decreases n - i
      {
        AtIndex(v, start, cs, i, c);
        if c !in v.data { return false, []; }
        out := out + v.data[c];
        ContentJoin(v, cs[..i], [c]);
        assert cs[..i + 1] == cs[..i] + [c];
        i := i + 1;
        var next := GetNext(c);
        if next.None? { assert false; }
        PathStep(v, start, cs[..i - 1], c);
        c := next.value;
      }
      AllRead(v, start, cs, i, c);
      assert cs[..i] == cs;
      ok := true;
    }

    /** fat32_read, for a file whose directory entry has been found; mem says whether kmalloc has room
        for a cluster. It walks index clusters w, then reads the clusters ds, and copies what was asked
        for, cut off at the file size and where the chain ends. cs is the chain of a file that has one. */
    method ReadFile(start: nat, fileSize: nat, offset: nat, size: nat, mem: bool, ghost cs: seq<nat>)
      returns (ok: bool, out: seq<nat>, ghost w: seq<nat>, ghost c: nat, ghost ds: seq<nat>)
      requires Valid()
      modifies this
      ensures Valid() && (offset >= fileSize || size == 0 ==> ok && out == [])
      ensures offset < fileSize && size > 0 ==>
        var index, skip, want := ClusterIndex(v, offset), ClusterOffset(v, offset), Clip(offset, size, fileSize);
        && (ok <==> FileReads(v, start, index, skip, want, mem))
        && (ok ==> |w| == index && Path(v, start, w, c))
        && (ok ==> Readily(v, c, ds, skip, want, mem) && out == Slice(Content(v, ds), skip, want))
      ensures Good(v, start, cs) && offset < fileSize && size > 0 ==>
        && (mem ==> (ok <==> ClusterIndex(v, offset) <= |cs|))
        && (ok ==> out == Slice(Content(v, cs), offset, Clip(offset, size, fileSize)))
    {
      hide Next;
      assert v.clusterSize > 0;
      hide ClusterIndex, ClusterOffset, Slice, Content, Edge, Readily, Path, CanRead, IsChain, Readable, VolumeOk;
      ok, out, w, c, ds := true, [], [], start, [];
      if offset >= fileSize || size == 0 { return; }
      var want := Clip(offset, size, fileSize);
      assert want > 0;
      hide Clip;
      var index, skip := ClusterIndex(v, offset), ClusterOffset(v, offset);
      var d: nat;
      ok, d, w := Skip(start, index);
      c := d;
      if ok { ok, out, ds := ReadFrom(d, skip, want, mem); }
      FileDone(v, start, offset, want, mem, cs, ok, w, c, ds);
    }

    /** The walk to the cluster that holds the offset. */
    method Skip(start: nat, index: nat) returns (ok: bool, c: nat, ghost w: seq<nat>)
      requires Valid()
      modifies this
      ensures Valid() && Path(v, start, w, c) && (ok ==> |w| == index)
      ensures !ok ==> |w| < index && (End(c) || Next(v, c).None?)
    {
      hide Next;
      ok, c, w := false, start, [];
      var i := 0;
      while i < index
        invariant Valid() && i == |w| <= index && Path(v, start, w, c)
      {
        if c < 2 || c >= EOC { return; }
        var next := GetNext(c);
        if next.None? { return; }
        PathStep(v, start, w, c);
        w, c, i := w + [c], next.value, i + 1;
      }
      ok := true;
    }

    /** The loop that copies the clusters from the first one on. */
    method ReadFrom(first: nat, skip: nat, want: nat, mem: bool) returns (ok: bool, out: seq<nat>, ghost ds: seq<nat>)
      requires Valid() && skip < v.clusterSize && want > 0
      modifies this
      ensures Valid() && (ok <==> CanRead(v, first, skip, want, mem))
      ensures ok ==> Readily(v, first, ds, skip, want, mem) && out == Slice(Content(v, ds), skip, want)
    {
      ok, out, ds := true, [], [];
      var c: nat, left: nat, off: nat := first, want, skip;
      CopyStart(v, first, skip, want, mem);
      hide *;
      while left > 0 && 2 <= c < EOC
        invariant Valid() && off < v.clusterSize && Copying(v, first, ds, c, off, left, skip, want, mem, out)
        decreases left
      {
        ok, out, c, left, ds := CopyOne(first, c, off, left, skip, want, mem, out, ds);
        if !ok { return; }
        off := 0;
      }
      EndIs(c);
      CopyEnd(v, first, ds, c, off, left, skip, want, mem, out);
    }

    /** The loop body: copy from one cluster and go on to the next. */
    method CopyOne(ghost first: nat, c: nat, off: nat, left: nat, ghost skip: nat, ghost want: nat, mem: bool,
                   out: seq<nat>, ghost ds: seq<nat>)
      returns (ok: bool, out': seq<nat>, c': nat, left': nat, ghost ds': seq<nat>)
      requires Valid() && left > 0 && 2 <= c < EOC && off < v.clusterSize
      requires Copying(v, first, ds, c, off, left, skip, want, mem, out)
      modifies this
      ensures Valid() && left' < left && 0 < v.clusterSize
      ensures if ok then Copying(v, first, ds', c', 0, left', skip, want, mem, out')
        else !CanRead(v, first, skip, want, mem)
    {
      hide *;
      CopyFacts(v, first, ds, c, off, left, skip, want, mem, out);
      EndIs(c);
      ok, out', c', left', ds' := false, out, c, 0, ds + [c];
      var chunk := Chunk(v.clusterSize, off, left);
      if (chunk < v.clusterSize && !mem) || c !in v.data {
        CopyStuck(v, first, ds, c, off, left, skip, want, mem, out);
        return;
      }
      out' := out + v.data[c][off..off + chunk];
      left' := left - chunk;
      ok, c' := Follow(c, left' > 0);
      if ok {
        CopyStep(v, first, ds, c, off, left, skip, want, mem, out);
      } else {
        CopyStuck(v, first, ds, c, off, left, skip, want, mem, out);
      }
    }

    /** The next cluster, as long as more is wanted. */
    method Follow(c: nat, more: bool) returns (ok: bool, c': nat)
      requires Valid()
      modifies this
      ensures Valid() && (ok <==> !more || Next(v, c).Some?) && (ok ==> c' == if more then Next(v, c).value else c)
    {
      ok, c' := true, c;
      if more {
        var next := GetNext(c);
        ok := next.Some?;
        if ok { c' := next.value; }
      }
    }
  }
}

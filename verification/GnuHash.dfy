/** Symbol lookup through a GNU hash section (src/lib/ldso/rtld.c): a Bloom filter, buckets and
    hash chains, as an index over the symbol table. The 64 bits of a Bloom word are modelled as
    the set of the bits that are set. */
module GnuHash {
  import opened Machine

  datatype Symbol = Symbol(name: seq<nat>, defined: bool)

  datatype Section = Section(
    nbuckets: nat,
    symOffset: nat,
    bloomShift: nat,
    bloom: seq<set<nat>>,
    buckets: seq<nat>,
    chains: seq<nat>)

  /** A shift to the right, bit by bit. */
  function Shr(x: nat, n: nat): nat { if n == 0 then x else Shr(x / 2, n - 1) }

  ghost function Power(b: nat, n: nat): (p: nat)
    ensures b > 0 ==> p > 0
  {
    if n == 0 then 1 else b * Power(b, n - 1)
  }

  lemma {:induction false} ShrIs(x: nat, n: nat)
    ensures Shr(x, n) == x / Power(2, n)
  {
    if n > 0 {
      ShrIs(x / 2, n - 1);
      Halved(x, Power(2, n - 1));
    }
  }

  lemma Halved(x: nat, p: nat)
    requires p > 0
    ensures x / (2 * p) == x / 2 / p
  {
    var q, r := x / 2 / p, x / 2 % p;
    assert x / 2 == q * p + r;
    assert x == q * (2 * p) + (2 * r + x % 2) by { assert q * (2 * p) == 2 * (q * p); }
    DivUnique(x, 2 * p, q, 2 * r + x % 2);
  }

  /** The characters as digits of base 33, the first one highest. */
  ghost function Weighted(name: seq<nat>): nat {
    if name == [] then 0 else name[0] * Power(33, |name| - 1) + Weighted(name[1..])
  }

  /** The hash of the format, in closed form. */
  ghost function Hash(name: seq<nat>): nat { (5381 * Power(33, |name|) + Weighted(name)) % U32 }

  lemma {:induction false} WeightedNext(name: seq<nat>, c: nat)
    ensures Weighted(name + [c]) == Weighted(name) * 33 + c
  {
    if name != [] {
      var n := |name| - 1;
      assert (name + [c])[1..] == name[1..] + [c];
      WeightedNext(name[1..], c);
      assert name[0] * (33 * Power(33, n)) == name[0] * Power(33, n) * 33;
    } else {
      assert name + [c] == [c];
    }
  }

  /** One more character: times 33, in 32-bit arithmetic. */
  lemma HashNext(name: seq<nat>, c: nat)
    ensures Hash(name + [c]) == (Hash(name) * 33 + c) % U32
  {
    var x := 5381 * Power(33, |name|) + Weighted(name);
    WeightedNext(name, c);
    assert Power(33, |name + [c]|) == 33 * Power(33, |name|);
    hide Power, Weighted;
    ModNext(x, c);
  }

  lemma ModNext(x: nat, c: nat)
    ensures (x * 33 + c) % U32 == (x % U32 * 33 + c) % U32
  {
    var q, y := x / U32, x % U32 * 33 + c;
    DivUnique(x * 33 + c, U32, 33 * q + y / U32, y % U32);
  }

  /** rtldGnuHash */
  method GnuHash(name: seq<nat>) returns (h: nat)
    requires forall c :: c in name ==> 0 < c < 256
    ensures h == (5381 * Power(33, |name|) + Weighted(name)) % 0x1_0000_0000
  {
    h := 5381;
    var i := 0;
    assert name[..0] == [] && h == Hash([]);
    hide Power, Weighted, Hash;
    while i < |name|
      invariant i <= |name| && h == Hash(name[..i])
    {
      HashNext(name[..i], name[i]);
      assert name[..i + 1] == name[..i] + [name[i]];
      ShiftAdd(h, name[i]);
      h := ((h * 32) % U32 + h + name[i]) % U32;
      i := i + 1;
    }
    assert name[..i] == name;
    HashIs(name);
  }

  lemma HashIs(name: seq<nat>)
    ensures Hash(name) == (5381 * Power(33, |name|) + Weighted(name)) % 0x1_0000_0000
  {
  }

  lemma ShiftAdd(h: nat, c: nat)
    ensures (h * 32 % U32 + h + c) % U32 == (h * 33 + c) % U32
  {
  }

  /** The Bloom filter lets the hash through. */
  ghost predicate Passes(t: Section, h: nat)
    requires |t.bloom| > 0
  {
    var word := t.bloom[h / 64 % |t.bloom|];
    h % 64 in word && h / Power(2, t.bloomShift) % 64 in word
  }

  ghost function BucketOf(t: Section, h: nat): (b: nat)
    requires t.nbuckets > 0
    ensures b < t.nbuckets
  {
    h % t.nbuckets
  }

  ghost function Bucket(t: Section, syms: seq<Symbol>, i: nat): nat
    requires t.nbuckets > 0 && i < |syms|
  {
    BucketOf(t, Hash(syms[i].name))
  }

  ghost predicate InTable(t: Section, syms: seq<Symbol>, i: nat) { t.symOffset <= i < |syms| }

  /** A hash without its lowest bit, and the lowest bit. */
  ghost function Top(v: nat): nat { v / 2 }

  ghost predicate Stop(v: nat) { v % 2 == 1 }

  /** The chain entry of symbol i: its hash without the lowest bit, which marks the last symbol of a
      bucket. */
  ghost predicate ChainAt(t: Section, syms: seq<Symbol>, i: nat)
    requires t.nbuckets > 0 && InTable(t, syms, i) && |t.chains| == |syms| - t.symOffset
  {
    var v := t.chains[i - t.symOffset];
    && Top(v) == Top(Hash(syms[i].name))
    && (Stop(v) <==> i + 1 == |syms| || Bucket(t, syms, i + 1) != Bucket(t, syms, i))
  }

  /** A bucket holds its first symbol, or a number below the first hashed symbol if it is empty. */
  ghost predicate BucketAt(t: Section, syms: seq<Symbol>, b: nat)
    requires t.nbuckets > 0 && b < |t.buckets|
  {
    var f := t.buckets[b];
    if f < t.symOffset then forall i: nat :: InTable(t, syms, i) ==> Bucket(t, syms, i) != b
    else f < |syms| && Bucket(t, syms, f) == b && forall i: nat :: t.symOffset <= i < f ==> Bucket(t, syms, i) != b
  }

  /** The section as a link editor writes it for the symbol table. */
  ghost predicate WellFormed(t: Section, syms: seq<Symbol>) {
    && t.nbuckets > 0 && |t.buckets| == t.nbuckets && |t.bloom| > 0
    && t.symOffset <= |syms| && |t.chains| == |syms| - t.symOffset
    && (forall i: nat, j: nat :: t.symOffset <= i < j < |syms| ==> Bucket(t, syms, i) <= Bucket(t, syms, j))
    && (forall i: nat :: InTable(t, syms, i) ==> ChainAt(t, syms, i) && Passes(t, Hash(syms[i].name)))
    && (forall b: nat :: b < t.nbuckets ==> BucketAt(t, syms, b))
  }

  ghost predicate Matches(syms: seq<Symbol>, i: nat, name: seq<nat>) {
    i < |syms| && syms[i].name == name && syms[i].defined
  }

  /** The first hashed symbol from k on that is defined under the name; |syms| if there is none. */
  ghost function Scan(syms: seq<Symbol>, k: nat, name: seq<nat>): (i: nat)
    requires k <= |syms|
    ensures k <= i <= |syms| && (i < |syms| ==> Matches(syms, i, name))
    ensures forall j :: k <= j < i ==> !Matches(syms, j, name)
    decreases |syms| - k
  {
    if k == |syms| || Matches(syms, k, name) then k else Scan(syms, k + 1, name)
  }

  lemma ScanIs(syms: seq<Symbol>, k: nat, name: seq<nat>, i: nat)
    requires k <= i <= |syms| && (i < |syms| ==> Matches(syms, i, name))
    requires forall j :: k <= j < i ==> !Matches(syms, j, name)
    ensures Scan(syms, k, name) == i
  {
  }

  /** rtldLookupInObject for an object that has a GNU hash section and no other: the symbol that a
      scan of all hashed symbols finds first, or none. */
  method Lookup(t: Section, syms: seq<Symbol>, name: seq<nat>) returns (found: bool, i: nat)
    requires WellFormed(t, syms) && (forall c :: c in name ==> 0 < c < 256)
    ensures found <==> Scan(syms, t.symOffset, name) < |syms|
    ensures found ==> i == Scan(syms, t.symOffset, name)
  {
    var h := GnuHash(name);
    assert h == Hash(name);
    hide Hash, Shr, Power, Weighted;
    found, i := false, 0;
    var word := t.bloom[h / 64 % |t.bloom|];
    ShrIs(h, t.bloomShift);
    if h % 64 !in word || Shr(h, t.bloomShift) % 64 !in word {
      NoneMatch(t, syms, name);
      return;
    }
    var b := h % t.nbuckets;
    assert b == BucketOf(t, h) && BucketAt(t, syms, b);
    hide BucketOf;
    i := t.buckets[b];
    if i < t.symOffset {
      ScanIs(syms, t.symOffset, name, |syms|);
      return;
    }
    found, i := WalkChain(t, syms, name, h, i);
  }

  /** The loop over the chain of a bucket, from its first symbol on. */
  method WalkChain(t: Section, syms: seq<Symbol>, name: seq<nat>, h: nat, first: nat) returns (found: bool, i: nat)
    requires WellFormed(t, syms) && h == Hash(name) && InTable(t, syms, first)
    requires Bucket(t, syms, first) == BucketOf(t, h)
    requires forall j: nat :: t.symOffset <= j < first ==> !Matches(syms, j, name)
    ensures found <==> Scan(syms, t.symOffset, name) < |syms|
    ensures found ==> i == Scan(syms, t.symOffset, name)
  {
    hide WellFormed, BucketOf, Hash, Bucket, Scan;
    i := first;
    while true
      invariant InTable(t, syms, i) && Bucket(t, syms, i) == BucketOf(t, h)
      invariant forall j: nat :: t.symOffset <= j < i ==> !Matches(syms, j, name)
      decreases |syms| - i
    {
      ChainFacts(t, syms, i);
      var v := t.chains[i - t.symOffset];
      if v / 2 == h / 2 && syms[i].name == name && syms[i].defined {
        ScanIs(syms, t.symOffset, name, i);
        found := true;
        return;
      }
      if v % 2 == 1 {
        NoneLeft(t, syms, name, i);
        found := false;
        return;
      }
      i := i + 1;
    }
  }

  /** The filter has no false negatives. */
  lemma NoneMatch(t: Section, syms: seq<Symbol>, name: seq<nat>)
    requires WellFormed(t, syms) && !Passes(t, Hash(name))
    ensures Scan(syms, t.symOffset, name) == |syms|
  {
    forall j | t.symOffset <= j < |syms| ensures !Matches(syms, j, name) { assert InTable(t, syms, j); }
    ScanIs(syms, t.symOffset, name, |syms|);
  }

  lemma ChainFacts(t: Section, syms: seq<Symbol>, i: nat)
    requires WellFormed(t, syms) && InTable(t, syms, i)
    ensures t.nbuckets > 0 && i - t.symOffset < |t.chains| && Top(t.chains[i - t.symOffset]) == Top(Hash(syms[i].name))
    ensures Stop(t.chains[i - t.symOffset]) <==> i + 1 == |syms| || Bucket(t, syms, i + 1) != Bucket(t, syms, i)
  {
    assert ChainAt(t, syms, i);
  }

  lemma NoneLeft(t: Section, syms: seq<Symbol>, name: seq<nat>, i: nat)
    requires WellFormed(t, syms) && InTable(t, syms, i) && Bucket(t, syms, i) == BucketOf(t, Hash(name))
    requires i + 1 < |syms| ==> Bucket(t, syms, i + 1) != Bucket(t, syms, i)
    requires forall j: nat :: t.symOffset <= j <= i ==> !Matches(syms, j, name)
    ensures Scan(syms, t.symOffset, name) == |syms|
  {
    RestOtherBuckets(t, syms, i);
    hide WellFormed, BucketOf, Hash;
    forall j: nat | t.symOffset <= j < |syms| ensures !Matches(syms, j, name) {
      if j > i { assert Bucket(t, syms, j) != Bucket(t, syms, i); }
    }
    ScanIs(syms, t.symOffset, name, |syms|);
  }

  /** Behind the last symbol of a bucket there is no symbol of that bucket. */
  lemma RestOtherBuckets(t: Section, syms: seq<Symbol>, i: nat)
    requires WellFormed(t, syms) && InTable(t, syms, i)
    requires i + 1 < |syms| ==> Bucket(t, syms, i + 1) != Bucket(t, syms, i)
    ensures forall j: nat :: i < j < |syms| ==> Bucket(t, syms, j) != Bucket(t, syms, i)
  {
    hide BucketOf, Hash, Passes, ChainAt, BucketAt;
  }
}

/** The initial stack of a process, section 3.4.1 of the AMD64 System V ABI: written by the kernel
    (src/kernel/sched/sched.c) from the top of the stack downwards, and parsed by the dynamic linker
    (src/lib/ldso/rtld.c) from the stack pointer upwards. The strings lie above all the 64-bit words,
    so the page is modelled as bytes for the former and words for the latter. */
module StartStack {
  import opened Machine

  const AT_PHDR: nat := 3
  const AT_PHENT: nat := 4
  const AT_PHNUM: nat := 5
  const AT_PAGESZ: nat := 6
  const AT_BASE: nat := 7
  const AT_FLAGS: nat := 8
  const AT_ENTRY: nat := 9
  const AT_RANDOM: nat := 25

  type Memory = map<nat, nat>

  datatype Aux = Aux(kind: nat, value: nat)

  function Get(m: Memory, a: nat): nat { if a in m then m[a] else 0 }

  /** A C string at address a. */
  ghost predicate StringAt(bytes: Memory, a: nat, s: seq<nat>) {
    (forall k :: 0 <= k < |s| ==> Get(bytes, a + k) == s[k]) && Get(bytes, a + |s|) == 0
  }

  ghost predicate IsText(s: seq<nat>) { forall c :: c in s ==> 0 < c < 256 }

  /** Consecutive words from address a on. */
  ghost predicate WordsAt(words: Memory, a: nat, vs: seq<nat>) {
    forall k: nat {:trigger vs[k]} :: k < |vs| ==> Get(words, a + 8 * k) == vs[k]
  }

  ghost function Flat(aux: seq<Aux>): seq<nat> {
    if aux == [] then [0, 0] else [aux[0].kind, aux[0].value] + Flat(aux[1..])
  }

  /** The words of the stack from the stack pointer on: the argument count, the argument pointers, the
      environment pointers, the auxiliary vector, each list ended by a null entry. */
  ghost function Vector(argv: seq<nat>, envp: seq<nat>, aux: seq<Aux>): seq<nat> {
    [|argv|] + argv + [0] + envp + [0] + Flat(aux)
  }

  lemma {:induction false} FlatAt(aux: seq<Aux>, i: nat)
    requires i <= |aux|
    ensures |Flat(aux)| == 2 * |aux| + 2
    ensures i < |aux| ==> Flat(aux)[2 * i] == aux[i].kind && Flat(aux)[2 * i + 1] == aux[i].value
    ensures Flat(aux)[2 * |aux|] == 0
  {
    if aux != [] { FlatAt(aux[1..], if i > 0 then i - 1 else 0); }
  }

  // ---- the kernel's side

  /** All stores so far were at or above address a. */
  ghost predicate Above(m: Memory, a: nat) { forall x :: x in m ==> x >= a }

  /** Copy a string with its terminator to address a. */
  method CopyString(bytes: Memory, a: nat, s: seq<nat>) returns (b: Memory)
    requires Above(bytes, a)
    ensures StringAt(b, a, s) && Above(b, a)
    ensures forall x: nat :: !(a <= x <= a + |s|) ==> Get(b, x) == Get(bytes, x)
  {
    b := bytes;
    for k := 0 to |s|
      invariant (forall j :: 0 <= j < k ==> Get(b, a + j) == s[j]) && Above(b, a)
      invariant forall x: nat :: !(a <= x <= a + |s|) ==> Get(b, x) == Get(bytes, x)
    {
      var at: nat, c := a + k, s[k];
      b := b[at := c];
    }
    var at: nat, z: nat := a + |s|, 0;
    b := b[at := z];
  }

  /** The bytes that strings take, with their terminators. */
  function Room(ss: seq<seq<nat>>): nat { if ss == [] then 0 else Room(ss[1..]) + |ss[0]| + 1 }

  /** The strings are in memory at the addresses, all of them at or above floor. */
  ghost predicate Stored(bytes: Memory, ptrs: seq<nat>, ss: seq<seq<nat>>, floor: nat) {
    |ptrs| == |ss| && forall i :: 0 <= i < |ss| ==> ptrs[i] >= floor && StringAt(bytes, ptrs[i], ss[i])
  }

  /** Where string number i starts, or where all of them end. */
  function Edge(ptrs: seq<nat>, i: nat, hi: nat): nat { if i < |ptrs| then ptrs[i] else hi }

  function Low(ptrs: seq<nat>, hi: nat): nat { Edge(ptrs, 0, hi) }

  /** The strings lie one behind the other, each with its terminator, and end at hi. */
  ghost predicate Packed(ptrs: seq<nat>, ss: seq<seq<nat>>, hi: nat) {
    |ptrs| == |ss| && forall i: nat :: i < |ss| ==> Edge(ptrs, i, hi) + |ss[i]| + 1 == Edge(ptrs, i + 1, hi)
  }

  /** Push strings, the last one first. */
  method PushStrings(bytes: Memory, sp0: nat, ss: seq<seq<nat>>) returns (b: Memory, sp: nat, ptrs: seq<nat>)
    requires Room(ss) <= sp0 && Above(bytes, sp0)
    ensures sp == sp0 - Room(ss) && Stored(b, ptrs, ss, sp) && Above(b, sp)
    ensures Packed(ptrs, ss, sp0) && Low(ptrs, sp0) == sp
    ensures forall x: nat :: x >= sp0 ==> Get(b, x) == Get(bytes, x)
  {
    b, sp, ptrs := bytes, sp0, [];
    var i := |ss|;
    assert ss[i..] == [];
    while i > 0
      invariant i <= |ss| && Room(ss[i..]) <= sp0 && sp == sp0 - Room(ss[i..]) && Stored(b, ptrs, ss[i..], sp)
      invariant Above(b, sp) && forall x: nat :: x >= sp0 ==> Get(b, x) == Get(bytes, x)
      invariant Packed(ptrs, ss[i..], sp0) && Low(ptrs, sp0) == sp
    {
      i := i - 1;
      RoomTail(ss, i);
      assert ss[i..][1..] == ss[i + 1..];
      sp := sp - (|ss[i]| + 1);
      ghost var b0 := b;
      b := CopyString(b, sp, ss[i]);
      StoredMore(b0, b, ptrs, ss, i, sp);
      PackedMore(ptrs, ss, i, sp, sp0);
      ptrs := [sp] + ptrs;
    }
    assert ss[0..] == ss;
  }

  lemma {:induction false} RoomTail(ss: seq<seq<nat>>, i: nat)
    requires i <= |ss|
    ensures Room(ss[i..]) <= Room(ss)
  {
    if i > 0 {
      RoomTail(ss[1..], i - 1);
      assert ss[1..][i - 1..] == ss[i..];
    } else {
      assert ss[0..] == ss;
    }
  }

  lemma PackedMore(ptrs: seq<nat>, ss: seq<seq<nat>>, i: nat, sp: nat, hi: nat)
    requires i < |ss| && Packed(ptrs, ss[i + 1..], hi) && Low(ptrs, hi) == sp + |ss[i]| + 1
    ensures Packed([sp] + ptrs, ss[i..], hi)
  {
    var ps, rest, tail := [sp] + ptrs, ss[i..], ss[i + 1..];
    assert rest == [ss[i]] + tail;
    forall j: nat | j < |rest| ensures Edge(ps, j, hi) + |rest[j]| + 1 == Edge(ps, j + 1, hi) {
      assert Edge(ps, j + 1, hi) == Edge(ptrs, j, hi);
      if j > 0 {
        var k := j - 1;
        assert rest[j] == tail[k] && Edge(ptrs, k, hi) + |tail[k]| + 1 == Edge(ptrs, k + 1, hi);
      }
    }
  }

  lemma StoredMore(b0: Memory, b: Memory, ptrs: seq<nat>, ss: seq<seq<nat>>, i: nat, sp: nat)
    requires i < |ss| && Stored(b0, ptrs, ss[i + 1..], sp + |ss[i]| + 1) && StringAt(b, sp, ss[i])
    requires forall x: nat :: !(sp <= x <= sp + |ss[i]|) ==> Get(b, x) == Get(b0, x)
    ensures Stored(b, [sp] + ptrs, ss[i..], sp)
  {
    var ps, rest := [sp] + ptrs, ss[i..];
    forall j | 0 <= j < |rest| ensures ps[j] >= sp && StringAt(b, ps[j], rest[j]) {
      if j > 0 {
        assert rest[j] == ss[i + 1..][j - 1] && StringAt(b0, ptrs[j - 1], ss[i + 1..][j - 1]);
      }
    }
  }

  /** Push words, the last one first. */
  method PushWords(words: Memory, sp0: nat, vs: seq<nat>, ghost above: seq<nat>) returns (w: Memory, sp: nat)
    requires 8 * |vs| <= sp0 && WordsAt(words, sp0, above) && Above(words, sp0)
    ensures sp == sp0 - 8 * |vs| && WordsAt(w, sp, vs + above) && Above(w, sp)
  {
    w, sp := words, sp0;
    var i := |vs|;
    assert vs[i..] + above == above;
    while i > 0
      invariant i <= |vs| && sp == sp0 - 8 * (|vs| - i) && WordsAt(w, sp, vs[i..] + above) && Above(w, sp)
    {
      i := i - 1;
      w, sp := PushWord(w, sp, vs[i], vs[i + 1..] + above);
      assert [vs[i]] + (vs[i + 1..] + above) == vs[i..] + above;
    }
    assert vs[0..] == vs;
  }

  method PushWord(words: Memory, sp0: nat, v: nat, ghost above: seq<nat>) returns (w: Memory, sp: nat)
    requires 8 <= sp0 && WordsAt(words, sp0, above) && Above(words, sp0)
    ensures sp == sp0 - 8 && WordsAt(w, sp, [v] + above) && Above(w, sp) && sp in w
  {
    sp := sp0 - 8;
    w := words[sp := v];
    var vs := [v] + above;
    forall k: nat | k < |vs| ensures Get(w, sp + 8 * k) == vs[k] {
      if k > 0 { assert above[k - 1] == Get(words, sp0 + 8 * (k - 1)); }
    }
  }

  /** Push the auxiliary vector, the last entry first; a null entry ends it. */
  method PushAux(words: Memory, sp0: nat, aux: seq<Aux>) returns (w: Memory, sp: nat)
    requires 16 * (|aux| + 1) <= sp0 && Above(words, sp0)
    ensures sp == sp0 - 16 * (|aux| + 1) && WordsAt(w, sp, Flat(aux)) && Above(w, sp)
  {
    w, sp := PushWord(words, sp0, 0, []);
    assert [0] + [] == [0];
    w, sp := PushWord(w, sp, 0, [0]);
    var i := |aux|;
    assert aux[i..] == [] && [0] + [0] == [0, 0];
    while i > 0
      invariant i <= |aux| && sp == sp0 - 16 * (|aux| - i + 1) && WordsAt(w, sp, Flat(aux[i..])) && Above(w, sp)
    {
      i := i - 1;
      w, sp := PushWord(w, sp, aux[i].value, Flat(aux[i + 1..]));
      w, sp := PushWord(w, sp, aux[i].kind, [aux[i].value] + Flat(aux[i + 1..]));
      assert aux[i..][1..] == aux[i + 1..];
      assert [aux[i].kind] + ([aux[i].value] + Flat(aux[i + 1..])) == [aux[i].kind, aux[i].value] + Flat(aux[i + 1..]);
    }
    assert aux[0..] == aux;
  }

  /** What the kernel tells the linker about the program. */
  datatype Program = Program(phdr: nat, phent: nat, phnum: nat, base: nat, entry: nat)

  function AuxOf(p: Program, randomPtr: nat): seq<Aux> {
    [Aux(AT_PHDR, p.phdr), Aux(AT_PHENT, p.phent), Aux(AT_PHNUM, p.phnum), Aux(AT_PAGESZ, PAGE), Aux(AT_BASE, p.base),
     Aux(AT_FLAGS, 0), Aux(AT_ENTRY, p.entry), Aux(AT_RANDOM, randomPtr)]
  }

  /** What the vector says: AT_PHDR, AT_PHENT, AT_PHNUM, AT_PAGESZ, AT_BASE, AT_FLAGS, AT_ENTRY and
      AT_RANDOM of the System V ABI. */
  ghost predicate Tells(aux: seq<Aux>, p: Program, randomPtr: int) {
    && (forall i :: 0 <= i < |aux| ==> aux[i].kind in {3, 4, 5, 6, 7, 8, 9, 25})
    && Last(aux, 3, 0) == p.phdr && Last(aux, 4, 0) == p.phent && Last(aux, 5, 0) == p.phnum
    && Last(aux, 6, PAGE) == PAGE && Last(aux, 7, 0) == p.base && Last(aux, 8, 1) == 0
    && Last(aux, 9, 0) == p.entry && Last(aux, 25, 0) == randomPtr
  }

  /** The lowest address of the strings and of the random bytes. */
  function TextFloor(argv: seq<seq<nat>>, envp: seq<seq<nat>>, top: int): int { top - Room(argv) - Room(envp) - 16 }

  /** The number of words: auxiliary vector with its end, two null entries, pointers and count. */
  function Words(argc: nat, envc: nat): nat { 9 * 2 + 1 + envc + 1 + argc + 1 }

  /** The final stack pointer. */
  function FinalSp(argv: seq<seq<nat>>, envp: seq<seq<nat>>, top: int): int {
    var s := TextFloor(argv, envp, top) / 16 * 16 - 8 * Words(|argv|, |envp|);
    if s % 16 != 0 then s - 8 else s
  }

  /** All of it fits into the top page of the stack. */
  predicate FitsPage(argv: seq<seq<nat>>, envp: seq<seq<nat>>, top: nat) {
    top > PAGE && FinalSp(argv, envp, top) >= top - PAGE
  }

  datatype Page = Page(bytes: Memory, words: Memory)

  /** Every store was into the top page. */
  ghost predicate InPage(page: Page, top: nat) { forall x :: x in page.bytes || x in page.words ==> x >= top - PAGE }

  /** The part of schedSpawn that fills the top page; random are the 16 random bytes. All stores are
      into that page exactly if the data fits, which the source does not check. */
  method Build(argv: seq<seq<nat>>, envp: seq<seq<nat>>, p: Program, random: seq<nat>, top: nat)
    returns (page: Page, sp: nat, ghost ap: seq<nat>, ghost ep: seq<nat>, ghost aux: seq<Aux>)
    requires FinalSp(argv, envp, top) >= 0 && top > PAGE && |random| == 16
    ensures InPage(page, top) <==> FitsPage(argv, envp, top)
    ensures sp == FinalSp(argv, envp, top) && sp % 16 == 0
    ensures |ap| == |argv| && |ep| == |envp| && 0 <= TextFloor(argv, envp, top)
    ensures Tells(aux, p, TextFloor(argv, envp, top))
    ensures WordsAt(page.words, sp, Vector(ap, ep, aux))
    ensures Stored(page.bytes, ap, argv, TextFloor(argv, envp, top) + 16)
    ensures Stored(page.bytes, ep, envp, TextFloor(argv, envp, top) + 16)
    ensures forall k :: 0 <= k < 16 ==> Get(page.bytes, TextFloor(argv, envp, top) + k) == random[k]
    ensures Packed(ap, argv, top) && Packed(ep, envp, Low(ap, top))
    ensures TextFloor(argv, envp, top) + 16 == Low(ep, Low(ap, top))
    ensures 0 <= TextFloor(argv, envp, top) - (sp + 8 * |Vector(ap, ep, aux)|) < 24
  {
    BuildRoom(argv, envp, top);
    hide FinalSp, Words, Stored, Vector, Above, FitsPage, InPage, WordsAt, Packed, Low, Tells;
    var b, s2, argvPtrs, envpPtrs := BuildText(argv, envp, random, top);
    var w, s3 := Padding(s2, Words(|argv|, |envp|));
    ap, ep, aux := argvPtrs, envpPtrs, AuxOf(p, s2);
    w, sp := PushVector(w, s3, argvPtrs, envpPtrs, AuxOf(p, s2));
    page := Page(b, w);
    EntriesOf(p, s2);
    WhenInPage(page, argv, envp, s2, sp, top);
  }

  /** The strings, and the random bytes below them. */
  method BuildText(argv: seq<seq<nat>>, envp: seq<seq<nat>>, random: seq<nat>, top: nat)
    returns (b: Memory, s2: nat, ap: seq<nat>, ep: seq<nat>)
    requires Room(argv) + Room(envp) + 16 <= top && |random| == 16
    ensures s2 == top - Room(argv) - Room(envp) - 16 && Above(b, s2)
    ensures Stored(b, ap, argv, s2 + 16) && Stored(b, ep, envp, s2 + 16) && |ap| == |argv| && |ep| == |envp|
    ensures forall k :: 0 <= k < 16 ==> Get(b, s2 + k) == random[k]
    ensures Packed(ap, argv, top) && Packed(ep, envp, Low(ap, top)) && s2 + 16 == Low(ep, Low(ap, top))
  {
    hide Above, Packed, Low;
    Empty(map[], top);
    var s0: nat, s1: nat;
    b, s0, ap := PushStrings(map[], top, argv);
    ghost var b0 := b;
    b, s1, ep := PushStrings(b, s0, envp);
    StoredKeeps(b0, b, ap, argv, s0);
    ghost var b1 := b;
    s2 := s1 - 16;
    Lower(b, s1, s2);
    b := CopyBytes(b, s2, random);
    StoredKeeps(b1, b, ap, argv, s1);
    StoredKeeps(b1, b, ep, envp, s1);
  }

  /** The stack pointer is rounded down, and a zero word is pushed if n more words would leave it odd. */
  method Padding(s2: nat, n: nat) returns (w: Memory, sp: nat)
    requires AlignDown(s2, 16) >= 8
    ensures sp == AlignDown(s2, 16) - (if (AlignDown(s2, 16) - 8 * n) % 16 != 0 then 8 else 0) && Above(w, sp)
  {
    sp := AlignDown(s2, 16);
    w := map[];
    Empty(w, sp);
    if (sp - 8 * n) % 16 != 0 {
      sp := sp - 8;
      w := w[sp := 0];
      OneWord(sp);
    }
  }

  lemma Empty(m: Memory, a: nat)
    requires m == map[]
    ensures Above(m, a)
  {
  }

  lemma OneWord(a: nat)
    ensures Above(map[a := 0], a)
  {
  }

  lemma Lower(m: Memory, a: nat, b: nat)
    requires Above(m, a) && b <= a
    ensures Above(m, b)
  {
  }

  /** The stores are in the page exactly if the last one is. */
  lemma WhenInPage(page: Page, argv: seq<seq<nat>>, envp: seq<seq<nat>>, text: nat, sp: nat, top: nat)
    requires Above(page.bytes, text) && Above(page.words, sp) && sp in page.words && sp <= text
    requires sp == FinalSp(argv, envp, top) && top > PAGE
    ensures InPage(page, top) <==> FitsPage(argv, envp, top)
  {
    hide FinalSp;
  }

  method PushVector(words: Memory, sp0: nat, argv: seq<nat>, envp: seq<nat>, aux: seq<Aux>) returns (w: Memory, sp: nat)
    requires 8 * (2 * |aux| + 2 + 1 + |envp| + 1 + |argv| + 1) <= sp0 && Above(words, sp0)
    ensures sp == sp0 - 8 * (2 * |aux| + 2 + 1 + |envp| + 1 + |argv| + 1) && WordsAt(w, sp, Vector(argv, envp, aux))
    ensures |Vector(argv, envp, aux)| == 2 * |aux| + 2 + 1 + |envp| + 1 + |argv| + 1 && Above(w, sp) && sp in w
  {
    FlatAt(aux, 0);
    ghost var x := Flat(aux);
    hide Flat, Above, WordsAt;
    w, sp := PushAux(words, sp0, aux);
    w, sp := PushPointers(w, sp, envp, x);
    ghost var y := envp + ([0] + x);
    w, sp := PushPointers(w, sp, argv, y);
    w, sp := PushWord(w, sp, |argv|, argv + ([0] + y));
    assert [|argv|] + (argv + ([0] + y)) == Vector(argv, envp, aux);
  }

  /** A null word and, below it, the pointers. */
  method PushPointers(words: Memory, sp0: nat, ptrs: seq<nat>, ghost tail: seq<nat>) returns (w: Memory, sp: nat)
    requires 8 * (|ptrs| + 1) <= sp0 && WordsAt(words, sp0, tail) && Above(words, sp0)
    ensures sp == sp0 - 8 * (|ptrs| + 1) && WordsAt(w, sp, ptrs + ([0] + tail)) && Above(w, sp)
  {
    hide Above, WordsAt;
    w, sp := PushWord(words, sp0, 0, tail);
    w, sp := PushWords(w, sp, ptrs, [0] + tail);
  }

  method CopyBytes(bytes: Memory, a: nat, s: seq<nat>) returns (b: Memory)
    requires Above(bytes, a)
    ensures (forall k :: 0 <= k < |s| ==> Get(b, a + k) == s[k]) && Above(b, a)
    ensures forall x: nat :: x >= a + |s| ==> Get(b, x) == Get(bytes, x)
  {
    b := bytes;
    for k := 0 to |s|
      invariant (forall j :: 0 <= j < k ==> Get(b, a + j) == s[j]) && Above(b, a)
      invariant forall x: nat :: x >= a + |s| ==> Get(b, x) == Get(bytes, x)
    {
      var at: nat, c := a + k, s[k];
      b := b[at := c];
    }
  }

  lemma BuildRoom(argv: seq<seq<nat>>, envp: seq<seq<nat>>, top: nat)
    requires FinalSp(argv, envp, top) >= 0
    ensures var s2 := TextFloor(argv, envp, top); var q := 8 * Words(|argv|, |envp|); var f := FinalSp(argv, envp, top);
      && s2 >= 0 && Room(argv) <= top && Room(envp) <= top - Room(argv)
      && f >= 0 && f % 16 == 0 && f == AlignDown(s2, 16) - (if (AlignDown(s2, 16) - q) % 16 != 0 then 8 else 0) - q
    ensures Words(|argv|, |envp|) == 2 * 8 + 2 + 1 + |envp| + 1 + |argv| + 1
  {
    var s, q := TextFloor(argv, envp, top), Words(|argv|, |envp|);
    Align16(s, q);
    hide AlignDown, Words;
  }

  lemma Align16(s: int, q: nat)
    ensures var d := s / 16 * 16; var f := if (d - 8 * q) % 16 != 0 then d - 8 * q - 8 else d - 8 * q;
      d <= s && f % 16 == 0 && f <= s && (s >= 0 ==> d == AlignDown(s, 16))
  {
    var d := s / 16 * 16;
    Down16(s);
    Eights(2 * (s / 16) - q);
    hide AlignDown;
    assert d - 8 * q == 8 * (2 * (s / 16) - q);
  }

  lemma Down16(s: int)
    ensures s / 16 * 16 <= s && (s >= 0 ==> s / 16 * 16 == AlignDown(s, 16))
  {
  }

  lemma Eights(m: int)
    ensures 8 * m % 16 == (if m % 2 == 0 then 0 else 8) && (m % 2 != 0 ==> (8 * m - 8) % 16 == 0)
  {
    var h, r := m / 2, m % 2;
    assert 8 * m == 16 * h + 8 * r;
  }

  lemma StoredKeeps(b0: Memory, b: Memory, ptrs: seq<nat>, ss: seq<seq<nat>>, floor: nat)
    requires Stored(b0, ptrs, ss, floor) && forall x: nat :: x >= floor ==> Get(b, x) == Get(b0, x)
    ensures Stored(b, ptrs, ss, floor)
  {
    forall i | 0 <= i < |ss| ensures StringAt(b, ptrs[i], ss[i]) { assert StringAt(b0, ptrs[i], ss[i]); }
  }

  // ---- the linker's side

  datatype Parsed = Parsed(argc: nat, argv: nat, envp: nat, phdr: nat, phnum: nat, entry: nat, base: nat, pageSize: nat)

  /** The value of the last entry of a kind. */
  ghost function Last(aux: seq<Aux>, kind: nat, default: nat): nat {
    if aux == [] then default
    else if aux[|aux| - 1].kind == kind then aux[|aux| - 1].value
    else Last(aux[..|aux| - 1], kind, default)
  }

  /** What each word of the stack is. */
  lemma VectorAt(words: Memory, sp: nat, ap: seq<nat>, ep: seq<nat>, aux: seq<Aux>)
    requires WordsAt(words, sp, Vector(ap, ep, aux))
    ensures Get(words, sp) == |ap| && WordsAt(words, sp + 8, ap + [0]) && WordsAt(words, sp + 16 + 8 * |ap|, ep + [0])
    ensures WordsAt(words, sp + 24 + 8 * |ap| + 8 * |ep|, Flat(aux))
  {
    var v := Vector(ap, ep, aux);
    FlatAt(aux, 0);
    var x := Flat(aux);
    hide Flat;
    assert v[0] == |ap|;
    forall k: nat | k < |ap + [0]|
      ensures Get(words, sp + 8 + 8 * k) == (ap + [0])[k]
    {
      assert v[1 + k] == (ap + [0])[k];
    }
    forall k: nat | k < |ep + [0]| ensures Get(words, sp + 16 + 8 * |ap| + 8 * k) == (ep + [0])[k] {
      assert v[2 + |ap| + k] == (ep + [0])[k];
    }
    forall k: nat | k < |x|
      ensures Get(words, sp + 24 + 8 * |ap| + 8 * |ep| + 8 * k) == x[k]
    {
      assert v[3 + |ap| + |ep| + k] == x[k];
    }
  }

  /** The loop of ldMain over the auxiliary vector. */
  method ParseAux(words: Memory, start: nat, r0: Parsed, ghost aux: seq<Aux>) returns (r: Parsed)
    requires WordsAt(words, start, Flat(aux)) && forall i :: 0 <= i < |aux| ==> aux[i].kind != 0
    ensures r == Chosen(r0, aux)
  {
    var a := start;
    r := r0;
    ghost var i := 0;
    assert aux[..0] == [];
    AuxAt(words, start, aux, 0);
    while Get(words, a) != 0
      invariant i <= |aux| && a == start + 16 * i && r == Chosen(r0, aux[..i])
      invariant Get(words, a) != 0 ==> i < |aux|
      decreases |aux| - i
    {
      AuxAt(words, start, aux, i);
      var kind, value := Get(words, a), Get(words, a + 8);
      if kind == AT_PHDR { r := r.(phdr := value); }
      else if kind == AT_PHNUM { r := r.(phnum := value); }
      else if kind == AT_ENTRY { r := r.(entry := value); }
      else if kind == AT_BASE { r := r.(base := value); }
      else if kind == AT_PAGESZ { r := r.(pageSize := value); }
      assert aux[..i + 1][..i] == aux[..i];
      a, i := a + 16, i + 1;
      AuxAt(words, start, aux, i);
    }
    AuxAt(words, start, aux, i);
    assert aux[..i] == aux;
  }

  ghost function Chosen(r: Parsed, aux: seq<Aux>): Parsed {
    r.(phdr := Last(aux, AT_PHDR, r.phdr), phnum := Last(aux, AT_PHNUM, r.phnum), entry := Last(aux, AT_ENTRY, r.entry),
       base := Last(aux, AT_BASE, r.base), pageSize := Last(aux, AT_PAGESZ, r.pageSize))
  }

  lemma AuxAt(words: Memory, start: nat, aux: seq<Aux>, i: nat)
    requires WordsAt(words, start, Flat(aux)) && i <= |aux|
    ensures i < |aux| ==> Get(words, start + 16 * i) == aux[i].kind && Get(words, start + 16 * i + 8) == aux[i].value
    ensures i == |aux| ==> Get(words, start + 16 * i) == 0
  {
    hide *;
    FlatAt(aux, i);
    WordAt(words, start, Flat(aux), 2 * i);
    WordAt(words, start, Flat(aux), 2 * i + 1);
    assert 8 * (2 * i) == 16 * i && 8 * (2 * i + 1) == 16 * i + 8;
  }

  lemma WordAt(words: Memory, a: nat, vs: seq<nat>, k: nat)
    requires WordsAt(words, a, vs) && k < |vs|
    ensures Get(words, a + 8 * k) == vs[k]
  {
    var v := vs[k];
    assert v == vs[k];
  }

  /** The beginning of ldMain. */
  method Parse(words: Memory, sp: nat, ghost ap: seq<nat>, ghost ep: seq<nat>, ghost aux: seq<Aux>) returns (r: Parsed)
    requires WordsAt(words, sp, Vector(ap, ep, aux)) && 0 !in ep && forall i :: 0 <= i < |aux| ==> aux[i].kind != 0
    ensures r.argc == |ap| && r.argv == sp + 8 && r.envp == sp + 16 + 8 * |ap|
    ensures r.phdr == Last(aux, AT_PHDR, 0) && r.phnum == Last(aux, AT_PHNUM, 0) && r.entry == Last(aux, AT_ENTRY, 0)
    ensures r.base == Last(aux, AT_BASE, 0) && r.pageSize == Last(aux, AT_PAGESZ, PAGE)
  {
    VectorAt(words, sp, ap, ep, aux);
    hide Vector, Flat, Last;
    var argc := Get(words, sp);
    var argv := sp + 8;
    var envp := argv + 8 * (argc + 1);
    var p := envp;
    ghost var k: nat := 0;
    assert (ep + [0])[0] == Get(words, envp + 8 * 0);
    while Get(words, p) != 0
      invariant k <= |ep| && p == envp + 8 * k && (ep + [0])[k] == Get(words, p)
      decreases |ep| - k
    {
      p, k := p + 8, k + 1;
      assert (ep + [0])[k] == Get(words, envp + 8 * k);
    }
    if k < |ep| { NotNull(ep, k); }
    r := ParseAux(words, p + 8, Parsed(argc, argv, envp, 0, 0, 0, 0, PAGE), aux);
  }

  lemma NotNull(ptrs: seq<nat>, k: nat)
    requires k < |ptrs| && 0 !in ptrs
    ensures (ptrs + [0])[k] != 0
  {
    assert ptrs[k] in ptrs;
  }

  lemma TextAt(bytes: Memory, a: nat, s: seq<nat>, k: nat)
    requires StringAt(bytes, a, s) && IsText(s) && k < |s|
    ensures Get(bytes, a + k) == s[k] != 0
  {
    assert s[k] in s;
  }

  /** Reading a C string. */
  method ReadString(bytes: Memory, a: nat, ghost s: seq<nat>) returns (t: seq<nat>)
    requires StringAt(bytes, a, s) && IsText(s)
    ensures t == s
  {
    t := [];
    while Get(bytes, a + |t|) != 0
      invariant |t| <= |s| && t == s[..|t|]
      decreases |s| - |t|
    {
      assert |t| < |s|;
      t := t + [Get(bytes, a + |t|)];
    }
    if |t| < |s| { TextAt(bytes, a, s, |t|); }
  }

  /** Reading n strings through a list of pointers at address a. */
  method ReadStrings(page: Page, a: nat, n: nat, ghost ptrs: seq<nat>, ghost ss: seq<seq<nat>>, ghost floor: nat)
    returns (ts: seq<seq<nat>>)
    requires WordsAt(page.words, a, ptrs + [0]) && Stored(page.bytes, ptrs, ss, floor) && n == |ss|
    requires forall s :: s in ss ==> IsText(s)
    ensures ts == ss
  {
    ts := [];
    var i := 0;
    while i < n
      invariant i <= n && |ts| == i && ts == ss[..i]
    {
      assert (ptrs + [0])[i] == ptrs[i] && ss[i] in ss;
      var t := ReadString(page.bytes, Get(page.words, a + 8 * i), ss[i]);
      ts := ts + [t];
      i := i + 1;
    }
  }

  /** The linker gets back exactly what the kernel was given. */
  method RoundTrip(argv: seq<seq<nat>>, envp: seq<seq<nat>>, p: Program, random: seq<nat>, top: nat)
    returns (r: Parsed, args: seq<seq<nat>>, env: seq<seq<nat>>)
    requires FitsPage(argv, envp, top) && |random| == 16
    requires (forall s :: s in argv ==> IsText(s)) && forall s :: s in envp ==> IsText(s)
    ensures args == argv && env == envp && r.argc == |argv|
    ensures r.phdr == p.phdr && r.phnum == p.phnum && r.entry == p.entry && r.base == p.base && r.pageSize == PAGE
  {
    var page, sp, ap, ep, aux := Build(argv, envp, p, random, top);
    assert forall i :: 0 <= i < |aux| ==> aux[i].kind != 0;
    NoNull(page.bytes, ep, envp, top);
    VectorAt(page.words, sp, ap, ep, aux);
    hide *;
    r := Parse(page.words, sp, ap, ep, aux);
    args := ReadStrings(page, r.argv, r.argc, ap, argv, top - PAGE);
    env := ReadStrings(page, r.envp, |envp|, ep, envp, top - PAGE);
  }

  lemma NoNull(bytes: Memory, ptrs: seq<nat>, ss: seq<seq<nat>>, top: nat)
    requires top > PAGE && Stored(bytes, ptrs, ss, top - PAGE)
    ensures 0 !in ptrs
  {
  }

  lemma EntriesOf(p: Program, x: nat)
    ensures Tells(AuxOf(p, x), p, x)
  {
    var aux := AuxOf(p, x);
    LastIs(aux, 0, AT_PHDR, 0);
    LastIs(aux, 1, AT_PHENT, 0);
    LastIs(aux, 2, AT_PHNUM, 0);
    LastIs(aux, 3, AT_PAGESZ, PAGE);
    LastIs(aux, 4, AT_BASE, 0);
    LastIs(aux, 5, AT_FLAGS, 1);
    LastIs(aux, 6, AT_ENTRY, 0);
    LastIs(aux, 7, AT_RANDOM, 0);
    hide Last;
  }

  lemma {:induction false} LastIs(aux: seq<Aux>, i: nat, kind: nat, default: nat)
    requires i < |aux| && aux[i].kind == kind && forall j :: i < j < |aux| ==> aux[j].kind != kind
    ensures Last(aux, kind, default) == aux[i].value
    decreases |aux|
  {
    if i + 1 < |aux| {
      assert aux[..|aux| - 1][i] == aux[i];
      LastIs(aux[..|aux| - 1], i, kind, default);
    }
  }
}

/** Fixed-width arithmetic shared by the models: C's unsigned wrap-around and the
    rounding that the sources write with masks. */
module Machine {
  const PAGE: nat := 4096
  const U16: nat := 0x1_0000
  const U32: nat := 0x1_0000_0000
  const U64: nat := 0x1_0000_0000_0000_0000

  /** A 64-bit unsigned result. */
  function Wrap64(x: int): (r: nat)
    ensures r < U64
    ensures 0 <= x < U64 ==> r == x
  {
    x % U64
  }

  /** x & ~(a - 1), for a power of two a. */
  function AlignDown(x: nat, a: nat): (r: nat)
    requires a > 0
    ensures r % a == 0 && r <= x < r + a
  {
    DivMod(x, a);
    x / a * a
  }

  /** (x + a - 1) & ~(a - 1), for a power of two a and without the wrap-around of the sum. */
  function AlignUp(x: nat, a: nat): (r: nat)
    requires a > 0
    ensures r % a == 0 && x <= r < x + a
  {
    AlignDown(x + a - 1, a)
  }

  lemma DivMod(x: nat, a: nat)
    requires a > 0
    ensures x / a * a <= x < x / a * a + a
    ensures x / a * a % a == 0
  {
    var q := x / a;
    assert x == q * a + x % a;
    MulMod(q, a);
  }

  lemma {:induction false} MulMod(q: nat, a: nat)
    requires a > 0
    ensures q * a % a == 0
  {
    if q > 0 {
      MulMod(q - 1, a);
      assert q * a == (q - 1) * a + a;
      assert ((q - 1) * a + a) % a == (q - 1) * a % a by { AddMod((q - 1) * a, a); }
    }
  }

  lemma AddMod(x: nat, a: nat)
    requires a > 0
    ensures (x + a) % a == x % a
  {
    var q, r := x / a, x % a;
    assert x + a == (q + 1) * a + r by { assert (q + 1) * a == q * a + a; }
    DivUnique(x + a, a, q + 1, r);
  }

  lemma DivUnique(x: nat, a: nat, q: int, r: int)
    requires a > 0 && x == q * a + r && 0 <= r < a
    ensures x / a == q && x % a == r
  {
    var d := x / a - q;
    assert d * a == r - x % a by { assert d * a == x / a * a - q * a; }
    assert d * a == -((-d) * a);
    if d >= 1 { MulMono(d, a); }
    if d <= -1 { MulMono(-d, a); }
  }

  lemma MulMono(d: nat, a: nat)
    requires d >= 1
    ensures d * a >= a
  {
    assert d * a == (d - 1) * a + a;
    assert (d - 1) * a >= 0;
  }

  lemma Times(m: nat, n: nat, w: nat)
    requires m <= n
    ensures m * w <= n * w
  {
    assert (n - m) * w >= 0;
    assert n * w == m * w + (n - m) * w;
  }

  lemma MultiplesApart(m: int, q: int, a: nat)
    requires a > 0 && m * a < q * a + a
    ensures m * a <= q * a
  {
    var d := m - q;
    assert d * a == m * a - q * a;
    if d >= 1 { MulMono(d, a); } else { assert (-d) * a >= 0; assert d * a == -((-d) * a); }
  }

  /** Multiples of a are at least a apart, so nothing between x and AlignUp(x, a) is one. */
  lemma AlignUpLeast(x: nat, a: nat, y: nat)
    requires a > 0 && y % a == 0 && x <= y
    ensures AlignUp(x, a) <= y
  {
    DivMod(x + a - 1, a);
    MultiplesApart((x + a - 1) / a, y / a, a);
  }
}

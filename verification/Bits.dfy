/** Powers of two and the bits of a natural number, least significant first. */
module Bits {
  import opened Prelude

  function Pow2(i: nat): (p: nat)
    ensures p > 0
  {
    if i == 0 then 1 else 2 * Pow2(i - 1)
  }

  /** Bit `i` of `b`: the program's `b & (1 << i)` as a test. */
  predicate Bit(b: nat, i: nat) {
    (b / Pow2(i)) % 2 == 1
  }

  lemma {:induction false} Pow2Add(a: nat, b: nat)
    ensures Pow2(a + b) == Pow2(a) * Pow2(b)
    decreases a
  {
    if a > 0 { Pow2Add(a - 1, b); }
  }

  /** Adding a higher power of two does not change a bit. */
  lemma HigherBit(x: nat, b: nat, n: nat)
    requires b < n
    ensures Bit(x + Pow2(n), b) == Bit(x, b)
  {
    Pow2Add(b + 1, n - b - 1);
    EvenMultiple(x, Pow2(b), Pow2(n - b - 1));
  }

  lemma EvenMultiple(x: nat, p: nat, m: nat)
    requires p > 0
    ensures ((x + 2 * p * m) / p) % 2 == (x / p) % 2
  {
    var q, r := x / p, x % p;
    assert p * (q + 2 * m) == p * q + 2 * p * m;
    DivIs(x + 2 * p * m, p, q + 2 * m, r);
  }

  /** A number below a power of two has that bit clear, and adding the power sets it. */
  lemma TopBit(x: nat, n: nat)
    requires x < Pow2(n)
    ensures !Bit(x, n) && Bit(x + Pow2(n), n)
  {
    DivIs(x, Pow2(n), 0, x);
    DivIs(x + Pow2(n), Pow2(n), 1, x);
  }

  /** One more weight on top of a sum of lower ones sets its own bit and no other. */
  lemma AddWeight(low: nat, w: nat, n: nat, b: nat)
    requires low < Pow2(n) && (w == 0 || w == Pow2(n)) && b <= n
    ensures Bit(low + w, b) <==> if b == n then w != 0 else Bit(low, b)
  {
    TopBit(low, n);
    if b < n { HigherBit(low, b, n); }
  }

  lemma DivIs(x: int, n: nat, q: int, m: int)
    requires n > 0 && 0 <= m < n && x == n * q + m
    ensures x / n == q && x % n == m
  {
    var d := x / n - q;
    assert n * d + (x % n - m) == 0;
    assert d >= 1 ==> n * d >= n;
    assert d <= -1 ==> n * d <= n * -1;
  }
}

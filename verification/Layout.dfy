/** Headers as bit strings: every field most significant bit first, one after the other. */
module Layout {
  import opened Bits
  import opened Prelude

  /** The low `n` bits of a number, most significant bit first. */
  function MsbFirst(v: nat, n: nat): (s: seq<bool>)
    ensures |s| == n
  {
    if n == 0 then [] else MsbFirst(v / 2, n - 1) + [v % 2 == 1]
  }

  /** The bits of a byte string. */
  function Octets(w: bytes): (s: seq<bool>)
    ensures |s| == 8 * |w|
  {
    if w == [] then [] else MsbFirst(w[0], 8) + Octets(w[1..])
  }

  lemma {:induction false} OctetsJoin(a: bytes, b: bytes)
    ensures Octets(a + b) == Octets(a) + Octets(b)
    decreases |a|
  {
    if a == [] {
      assert a + b == b;
    } else {
      OctetsJoin(a[1..], b);
      assert (a + b)[1..] == a[1..] + b;
    }
  }

  lemma OneOctet(v: byte)
    ensures Octets([v]) == MsbFirst(v, 8)
  {
    assert [v][1..] == [];
  }

  lemma {:induction false} TwoOctets(v: byte, w: byte)
    ensures Octets([v, w]) == MsbFirst(v, 8) + MsbFirst(w, 8)
  {
    OctetsJoin([v], [w]);
    OneOctet(v);
    OneOctet(w);
    assert [v, w] == [v] + [w];
  }

  /** One more bit at the low end. */
  lemma Push(v: nat, n: nat, b: nat)
    requires b <= 1
    ensures MsbFirst(2 * v + b, n + 1) == MsbFirst(v, n) + [b == 1]
  {
    assert (2 * v + b) / 2 == v && (2 * v + b) % 2 == b;
  }

  /** A number put together from a high and a low part has their bits, one after the other. */
  lemma {:induction false} Joined(hi: nat, m: nat, lo: nat, n: nat)
    requires lo < Pow2(n)
    ensures MsbFirst(hi * Pow2(n) + lo, m + n) == MsbFirst(hi, m) + MsbFirst(lo, n)
    decreases n
  {
    if n == 0 {
      assert MsbFirst(lo, 0) == [];
    } else {
      var p, l, b := hi * Pow2(n - 1), lo / 2, lo % 2;
      TwiceAs(hi, Pow2(n), Pow2(n - 1));
      Joined(hi, m, l, n - 1);
      hide MsbFirst;
      Push(p + l, m + n - 1, b);
      Push(l, n - 1, b);
      assert lo == 2 * l + b && hi * Pow2(n) + lo == 2 * (p + l) + b;
    }
  }

  lemma TwiceAs(h: nat, x: nat, y: nat)
    requires x == 2 * y
    ensures h * x == 2 * (h * y)
  {
  }

  lemma PowersOfTwo()
    ensures Pow2(2) == 4 && Pow2(4) == 16 && Pow2(5) == 32 && Pow2(8) == 256
  {
    assert Pow2(3) == 8 && Pow2(6) == 64 && Pow2(7) == 128;
  }

  /** A number of two parts, the low one an octet. */
  lemma CutOctet(hi: nat, n: nat, lo: nat)
    requires lo < 256
    ensures MsbFirst(256 * hi + lo, n + 8) == MsbFirst(hi, n) + MsbFirst(lo, 8)
  {
    hide MsbFirst;
    PowersOfTwo();
    Joined(hi, n, lo, 8);
  }

  /** A number of two parts, the low one a nibble. */
  lemma CutNibble(hi: nat, n: nat, lo: nat)
    requires lo < 16
    ensures MsbFirst(16 * hi + lo, n + 4) == MsbFirst(hi, n) + MsbFirst(lo, 4)
  {
    hide MsbFirst;
    PowersOfTwo();
    Joined(hi, n, lo, 4);
  }

  lemma OneFlag(b: nat)
    requires b <= 1
    ensures MsbFirst(b, 1) == [b == 1]
  {
    assert MsbFirst(b / 2, 0) == [];
  }

  /** A nibble put together from four flags. */
  lemma FourFlags(b3: nat, b2: nat, b1: nat, b0: nat)
    requires b3 <= 1 && b2 <= 1 && b1 <= 1 && b0 <= 1
    ensures MsbFirst(8 * b3 + 4 * b2 + 2 * b1 + b0, 4) == [b3 == 1, b2 == 1, b1 == 1, b0 == 1]
  {
    hide MsbFirst;
    OneFlag(b3);
    Push(b3, 1, b2);
    Push(2 * b3 + b2, 2, b1);
    Push(4 * b3 + 2 * b2 + b1, 3, b0);
  }
}

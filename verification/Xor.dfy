/** Exclusive-or of natural numbers, bit by bit, and the numbers that bit strings stand for. */
module Xor {
  import opened Bits
  import opened Prelude

  /** The program's `a ^ b`. */
  function XorNat(a: nat, b: nat): (r: nat)
    decreases a + b
  {
    if a == 0 && b == 0 then 0
    else (if a % 2 != b % 2 then 1 else 0) + 2 * XorNat(a / 2, b / 2)
  }

  /** Unfolds one bit of an exclusive-or, also at zero. */
  lemma XorBit(a: nat, b: nat)
    ensures XorNat(a, b) % 2 == (if a % 2 != b % 2 then 1 else 0)
    ensures XorNat(a, b) / 2 == XorNat(a / 2, b / 2)
  {
  }

  lemma {:induction false} XorAssoc(a: nat, b: nat, c: nat)
    ensures XorNat(XorNat(a, b), c) == XorNat(a, XorNat(b, c))
    decreases a + b + c
  {
    if a + b + c > 0 {
      XorAssoc(a / 2, b / 2, c / 2);
      XorBit(a, b);
      XorBit(b, c);
      XorBit(XorNat(a, b), c);
      XorBit(a, XorNat(b, c));
    }
  }

  lemma {:induction false} XorComm(a: nat, b: nat)
    ensures XorNat(a, b) == XorNat(b, a)
    decreases a + b
  {
    if a + b > 0 { XorComm(a / 2, b / 2); }
  }

  lemma {:induction false} XorSelf(a: nat)
    ensures XorNat(a, a) == 0 && XorNat(a, 0) == a
    decreases a
  {
    if a > 0 { XorSelf(a / 2); }
  }

  lemma {:induction false} XorFits(a: nat, b: nat, n: nat)
    requires a < Pow2(n) && b < Pow2(n)
    ensures XorNat(a, b) < Pow2(n)
    decreases n
  {
    if n > 0 && a + b > 0 { XorFits(a / 2, b / 2, n - 1); }
  }

  /** A bit that only one operand has, above all others, survives. */
  lemma {:induction false} XorTop(a: nat, b: nat, n: nat)
    requires a < Pow2(n) <= b < 2 * Pow2(n)
    ensures Pow2(n) <= XorNat(a, b)
    decreases n
  {
    if n > 0 { XorTop(a / 2, b / 2, n - 1); }
  }

  /** Whether an odd number of bits is set. */
  function Parity(a: nat): bool {
    if a == 0 then false else (a % 2 == 1) != Parity(a / 2)
  }

  lemma {:induction false} ParityXor(a: nat, b: nat)
    ensures Parity(XorNat(a, b)) == (Parity(a) != Parity(b))
    decreases a + b
  {
    if a + b > 0 {
      ParityXor(a / 2, b / 2);
      XorBit(a, b);
      ParityStep(a);
      ParityStep(b);
      ParityStep(XorNat(a, b));
    }
  }

  lemma ParityStep(a: nat)
    ensures Parity(a) == ((a % 2 == 1) != Parity(a / 2))
  {
  }

  // ---- Bit strings --------------------------------------------------------

  /** The number whose bits are the given ones, least significant first. */
  function Pack(bits: seq<bool>): nat {
    if bits == [] then 0 else (if bits[0] then 1 else 0) + 2 * Pack(bits[1..])
  }

  /** The low `n` bits of a number, least significant first. */
  function LowBits(a: nat, n: nat): (s: seq<bool>)
    ensures |s| == n
  {
    if n == 0 then [] else [a % 2 == 1] + LowBits(a / 2, n - 1)
  }

  lemma {:induction false} PackFits(bits: seq<bool>)
    ensures Pack(bits) < Pow2(|bits|)
    decreases |bits|
  {
    if bits != [] { PackFits(bits[1..]); }
  }

  /** Packing the bits of a number in front of others. */
  lemma {:induction false} PackLowBits(a: nat, n: nat, rest: seq<bool>)
    requires a < Pow2(n)
    ensures Pack(LowBits(a, n) + rest) == a + Pow2(n) * Pack(rest)
    decreases n
  {
    hide *;
    LowBitsStep(a, n);
    if n == 0 {
      assert LowBits(a, 0) + rest == rest;
    } else {
      PackLowBits(a / 2, n - 1, rest);
      var more := LowBits(a / 2, n - 1) + rest;
      assert LowBits(a, n) + rest == [a % 2 == 1] + more;
      PackStep(a % 2 == 1, more);
      assert 2 * (Pow2(n - 1) * Pack(rest)) == Pow2(n) * Pack(rest);
    }
  }

  lemma LowBitsStep(a: nat, n: nat)
    requires a < Pow2(n)
    ensures n == 0 ==> a == 0 && LowBits(a, n) == [] && Pow2(0) == 1
    ensures n > 0 ==>
      a / 2 < Pow2(n - 1) && Pow2(n) == 2 * Pow2(n - 1) && LowBits(a, n) == [a % 2 == 1] + LowBits(a / 2, n - 1)
  {
  }

  lemma PackStep(b: bool, rest: seq<bool>)
    ensures Pack([b] + rest) == (if b then 1 else 0) + 2 * Pack(rest)
  {
    assert ([b] + rest)[1..] == rest;
  }

  /** Bit `i` read with a mask. */
  lemma {:induction false} LowBitAt(a: nat, n: nat, i: nat)
    requires i < n
    ensures LowBits(a, n)[i] == Bit(a, i)
    decreases i
  {
    if i > 0 {
      LowBitAt(a / 2, n - 1, i - 1);
      HalveDiv(a, Pow2(i - 1));
    }
  }

  lemma HalveDiv(a: nat, p: nat)
    requires p > 0
    ensures (a / 2) / p == a / (2 * p)
  {
    var q, m := (a / 2) / p, (a / 2) % p;
    assert a == 2 * (p * q + m) + a % 2;
    assert 2 * (p * q + m) == (2 * p) * q + 2 * m;
    DivIs(a, 2 * p, q, 2 * m + a % 2);
  }
}

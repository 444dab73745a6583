/** The two cyclic redundancy checks of the framing layer, bit by bit. */
module Crc {
  import opened Bits
  import opened Prelude
  import opened Xor

  /** A check: reflected polynomial and register width in bits. */
  datatype Kind = Crc16 | Crc32

  function Poly(k: Kind): nat {
    match k
    case Crc16 => 0x9299
    case Crc32 => 0xF3A4_E550
  }

  function Width(k: Kind): nat {
    match k
    case Crc16 => 16
    case Crc32 => 32
  }

  /** One more than the largest register value. */
  function Size(k: Kind): nat {
    match k
    case Crc16 => 0x1_0000
    case Crc32 => 0x1_0000_0000
  }

  lemma SizeIs(k: Kind)
    ensures Size(k) == Pow2(Width(k)) == 2 * Pow2(Width(k) - 1)
    ensures Pow2(Width(k) - 1) <= Poly(k) < Size(k)
  {
    assert Pow2(8) == 256;
    Pow2Add(8, 8);
    Pow2Add(16, 16);
  }

  /** One message bit: shift the register, and fold the polynomial in when the bit that falls out differs from it. */
  function Step(k: Kind, r: nat, bit: bool): nat {
    if (r % 2 == 1) != bit then XorNat(r / 2, Poly(k)) else r / 2
  }

  function CrcBits(k: Kind, r: nat, bits: seq<bool>): nat
    decreases |bits|
  {
    if bits == [] then r else CrcBits(k, Step(k, r, bits[0]), bits[1..])
  }

  /** The bits of a byte string in the order in which the register takes them. */
  function MessageBits(data: bytes): (s: seq<bool>)
    ensures |s| == 8 * |data|
  {
    if data == [] then [] else LowBits(data[0], 8) + MessageBits(data[1..])
  }

  /** The check of a message, from a given start value. */
  function CrcOf(k: Kind, data: bytes, start: nat): nat {
    CrcBits(k, start % Size(k), MessageBits(data))
  }

  // ---- Chaining -----------------------------------------------------------

  lemma {:induction false} BitsConcat(a: bytes, b: bytes)
    ensures MessageBits(a + b) == MessageBits(a) + MessageBits(b)
    decreases |a|
  {
    if a == [] {
      assert a + b == b;
    } else {
      BitsConcat(a[1..], b);
      assert (a + b)[1..] == a[1..] + b;
      BitsUnfold(a + b);
      BitsUnfold(a);
      JoinAssoc(LowBits(a[0], 8), MessageBits(a[1..]), MessageBits(b));
    }
  }

  lemma BitsUnfold(data: bytes)
    requires data != []
    ensures MessageBits(data) == LowBits(data[0], 8) + MessageBits(data[1..])
  {
  }

  lemma JoinAssoc(a: seq<bool>, b: seq<bool>, c: seq<bool>)
    ensures a + (b + c) == (a + b) + c
  {
  }

  lemma {:induction false} CrcConcat(k: Kind, r: nat, a: seq<bool>, b: seq<bool>)
    ensures CrcBits(k, r, a + b) == CrcBits(k, CrcBits(k, r, a), b)
    decreases |a|
  {
    if a == [] {
      assert a + b == b;
    } else {
      CrcConcat(k, Step(k, r, a[0]), a[1..], b);
      assert (a + b)[1..] == a[1..] + b;
    }
  }

  lemma StepFits(k: Kind, r: nat, bit: bool)
    requires r < Size(k)
    ensures Step(k, r, bit) < Size(k)
  {
    SizeIs(k);
    XorFits(r / 2, Poly(k), Width(k));
  }

  lemma {:induction false} CrcFits(k: Kind, r: nat, bits: seq<bool>)
    requires r < Size(k)
    ensures CrcBits(k, r, bits) < Size(k)
    decreases |bits|
  {
    if bits != [] {
      StepFits(k, r, bits[0]);
      CrcFits(k, Step(k, r, bits[0]), bits[1..]);
    }
  }

  /** The check of a concatenation is the check of the second part started from the check of the first. */
  lemma Chaining(k: Kind, a: bytes, b: bytes, start: nat)
    ensures CrcOf(k, a + b, start) == CrcOf(k, b, CrcOf(k, a, start))
  {
    var r := start % Size(k);
    BitsConcat(a, b);
    CrcConcat(k, r, MessageBits(a), MessageBits(b));
    CrcFits(k, r, MessageBits(a));
    SmallMod(CrcBits(k, r, MessageBits(a)), Size(k));
  }

  lemma SmallMod(x: nat, n: nat)
    requires x < n
    ensures x % n == x
  {
  }

  // ---- Linearity ----------------------------------------------------------

  function XorBits(a: seq<bool>, b: seq<bool>): (s: seq<bool>)
    requires |a| == |b|
    ensures |s| == |a|
  {
    seq(|a|, i requires 0 <= i < |a| => a[i] != b[i])
  }

  lemma StepLinear(k: Kind, r: nat, s: nat, x: bool, y: bool)
    ensures Step(k, XorNat(r, s), x != y) == XorNat(Step(k, r, x), Step(k, s, y))
  {
    var p, a, b := Poly(k), r / 2, s / 2;
    XorBit(r, s);
    if (r % 2 == 1) != x {
      if (s % 2 == 1) != y {
        // (a ^ p) ^ (b ^ p) == a ^ b
        XorComm(b, p);
        XorAssoc(a, p, XorNat(p, b));
        XorAssoc(p, p, b);
        XorSelf(p);
        XorComm(0, b);
        XorSelf(b);
      } else {
        // (a ^ p) ^ b == (a ^ b) ^ p
        XorAssoc(a, p, b);
        XorComm(p, b);
        XorAssoc(a, b, p);
      }
    } else if (s % 2 == 1) != y {
      XorAssoc(a, b, p);
    }
  }

  /** The check is linear over exclusive-or, of messages and of start values. */
  lemma {:induction false} Linear(k: Kind, r: nat, s: nat, a: seq<bool>, b: seq<bool>)
    requires |a| == |b|
    ensures CrcBits(k, XorNat(r, s), XorBits(a, b)) == XorNat(CrcBits(k, r, a), CrcBits(k, s, b))
    decreases |a|
  {
    if a != [] {
      StepLinear(k, r, s, a[0], b[0]);
      Linear(k, Step(k, r, a[0]), Step(k, s, b[0]), a[1..], b[1..]);
      assert XorBits(a, b)[1..] == XorBits(a[1..], b[1..]);
    }
  }

  // ---- Residue and burst errors -------------------------------------------

  /** A result with the top bit clear tells the register it came from, because the polynomial's top bit is set. */
  lemma StepBack(k: Kind, r: nat, bit: bool, p: nat)
    requires r < Size(k) && p < Pow2(Width(k) - 1)
    ensures Step(k, r, bit) == p <==> r == (if bit then 1 else 0) + 2 * p
  {
    SizeIs(k);
    XorTop(r / 2, Poly(k), Width(k) - 1);
  }

  lemma {:induction false} Pow2Grows(m: nat, n: nat)
    requires m <= n
    ensures Pow2(m) <= Pow2(n)
    decreases n - m
  {
    if m < n { Pow2Grows(m, n - 1); }
  }

  /** At most `width` bits drive a register to zero exactly when the register holds those very bits. */
  lemma {:induction false} ZeroIff(k: Kind, r: nat, bits: seq<bool>)
    requires r < Size(k) && |bits| <= Width(k)
    ensures CrcBits(k, r, bits) == 0 <==> r == Pack(bits)
    decreases |bits|
  {
    if bits != [] {
      StepFits(k, r, bits[0]);
      ZeroIff(k, Step(k, r, bits[0]), bits[1..]);
      PackFits(bits[1..]);
      Pow2Grows(|bits| - 1, Width(k) - 1);
      StepBack(k, r, bits[0], Pack(bits[1..]));
    }
  }
}

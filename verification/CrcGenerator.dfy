/** Which checks are computed: the remainders of division by the generator polynomials of the standard. */
module CrcGenerator {
  import opened Bits
  import opened Crc
  import opened CrcDetect
  import opened Prelude
  import opened Xor

  /** The powers of x in the generator polynomials of C.3.2.8 and C.3.2.11. */
  predicate IsTerm(k: Kind, e: int) {
    match k
    case Crc16 => e == 16 || e == 15 || e == 12 || e == 11 || e == 8 || e == 6 || e == 3 || e == 0
    case Crc32 =>
      || e == 32 || e == 27 || e == 25 || e == 23 || e == 21 || e == 18 || e == 17 || e == 16 || e == 13
      || e == 10 || e == 8 || e == 7 || e == 6 || e == 3 || e == 2 || e == 1 || e == 0
  }

  /** The coefficients of the generator, highest power first. */
  function Generator(k: Kind): (g: seq<bool>)
    ensures |g| == Width(k) + 1 && g[0]
  {
    seq(Width(k) + 1, i requires 0 <= i <= Width(k) => IsTerm(k, Width(k) - i))
  }

  function Zeros(n: nat): (s: seq<bool>)
    ensures |s| == n
  {
    seq(n, i => false)
  }

  /** The product of two polynomials over bits: the second one, shifted to every power of the first, and added up. */
  function Product(q: seq<bool>, g: seq<bool>): (s: seq<bool>)
    requires g != []
    ensures |s| == |q| + |g| - 1
  {
    if q == [] then Zeros(|g| - 1)
    else XorBits((if q[0] then g else Zeros(|g|)) + Zeros(|q| - 1), [false] + Product(q[1..], g))
  }

  /** The message is a multiple of the polynomial; one of lower degree is a multiple only if it is zero. */
  ghost predicate Multiple(m: seq<bool>, g: seq<bool>)
    requires g != []
  {
    if |m| < |g| then AllClear(m) else exists q: seq<bool> :: |q| + |g| == |m| + 1 && Product(q, g) == m
  }

  // ---- The register holds the generator -----------------------------------

  /** One more coefficient in front. */
  lemma PackFrom(s: seq<bool>, i: nat, b: bool, rest: nat)
    requires i < |s| && s[i] == b && Pack(s[i + 1..]) == rest
    ensures Pack(s[i..]) == (if b then 1 else 0) + 2 * rest
  {
    assert s[i..][1..] == s[i + 1..];
  }

  lemma Packed16(r: seq<bool>)
    requires |r| == 16 && forall i :: 0 <= i < 16 ==> r[i] == IsTerm(Crc16, 15 - i)
    ensures Pack(r) == Poly(Crc16)
  {
    hide Pack;
    assert Pack(r[16..]) == 0 by { PackNone(r); }
    PackFrom(r, 15, true, 0x0);
    PackFrom(r, 14, false, 0x1);
    PackFrom(r, 13, false, 0x2);
    PackFrom(r, 12, true, 0x4);
    PackFrom(r, 11, false, 0x9);
    PackFrom(r, 10, false, 0x12);
    PackFrom(r, 9, true, 0x24);
    PackFrom(r, 8, false, 0x49);
    PackFrom(r, 7, true, 0x92);
    PackFrom(r, 6, false, 0x125);
    PackFrom(r, 5, false, 0x24A);
    PackFrom(r, 4, true, 0x494);
    PackFrom(r, 3, true, 0x929);
    PackFrom(r, 2, false, 0x1253);
    PackFrom(r, 1, false, 0x24A6);
    PackFrom(r, 0, true, 0x494C);
    assert r[0..] == r;
  }

  lemma LowPowers(r: seq<bool>)
    requires |r| == 32 && forall i :: 0 <= i < 32 ==> r[i] == IsTerm(Crc32, 31 - i)
    ensures Pack(r[22..]) == 0x3CE
  {
    hide Pack;
    assert Pack(r[32..]) == 0 by { PackNone(r); }
    PackFrom(r, 31, true, 0x0);
    PackFrom(r, 30, true, 0x1);
    PackFrom(r, 29, true, 0x3);
    PackFrom(r, 28, true, 0x7);
    PackFrom(r, 27, false, 0xF);
    PackFrom(r, 26, false, 0x1E);
    PackFrom(r, 25, true, 0x3C);
    PackFrom(r, 24, true, 0x79);
    PackFrom(r, 23, true, 0xF3);
    PackFrom(r, 22, false, 0x1E7);
  }

  lemma MiddlePowers(r: seq<bool>)
    requires |r| == 32 && forall i :: 0 <= i < 32 ==> r[i] == IsTerm(Crc32, 31 - i)
    requires Pack(r[22..]) == 0x3CE
    ensures Pack(r[11..]) == 0x1E749C
  {
    hide Pack;
    PackFrom(r, 21, true, 0x3CE);
    PackFrom(r, 20, false, 0x79D);
    PackFrom(r, 19, false, 0xF3A);
    PackFrom(r, 18, true, 0x1E74);
    PackFrom(r, 17, false, 0x3CE9);
    PackFrom(r, 16, false, 0x79D2);
    PackFrom(r, 15, true, 0xF3A4);
    PackFrom(r, 14, true, 0x1E749);
    PackFrom(r, 13, true, 0x3CE93);
    PackFrom(r, 12, false, 0x79D27);
    PackFrom(r, 11, false, 0xF3A4E);
  }

  lemma HighPowers(r: seq<bool>)
    requires |r| == 32 && forall i :: 0 <= i < 32 ==> r[i] == IsTerm(Crc32, 31 - i)
    requires Pack(r[11..]) == 0x1E749C
    ensures Pack(r[0..]) == 0xF3A4E550
  {
    hide Pack;
    PackFrom(r, 10, true, 0x1E749C);
    PackFrom(r, 9, false, 0x3CE939);
    PackFrom(r, 8, true, 0x79D272);
    PackFrom(r, 7, false, 0xF3A4E5);
    PackFrom(r, 6, true, 0x1E749CA);
    PackFrom(r, 5, false, 0x3CE9395);
    PackFrom(r, 4, true, 0x79D272A);
    PackFrom(r, 3, false, 0xF3A4E55);
    PackFrom(r, 2, false, 0x1E749CAA);
    PackFrom(r, 1, false, 0x3CE93954);
    PackFrom(r, 0, false, 0x79D272A8);
  }

  lemma Packed32(r: seq<bool>)
    requires |r| == 32 && forall i :: 0 <= i < 32 ==> r[i] == IsTerm(Crc32, 31 - i)
    ensures Pack(r) == Poly(Crc32)
  {
    hide Pack, IsTerm;
    LowPowers(r);
    MiddlePowers(r);
    HighPowers(r);
    assert r[0..] == r;
  }

  lemma PackNone(r: seq<bool>)
    ensures Pack(r[|r|..]) == 0
  {
  }

  /** The generator itself leaves residue zero. */
  lemma GeneratorResidue(k: Kind)
    ensures CrcBits(k, 0, Generator(k)) == 0
  {
    var g := Generator(k);
    if k.Crc16? { Packed16(g[1..]); } else { Packed32(g[1..]); }
    SizeIs(k);
    XorSelf(Poly(k));
    XorComm(0, Poly(k));
    assert Step(k, 0, true) == Poly(k);
    ZeroIff(k, Poly(k), g[1..]);
  }

  // ---- Residue and divisibility -------------------------------------------

  lemma XorTwice(a: seq<bool>, b: seq<bool>)
    requires |a| == |b|
    ensures XorBits(a, XorBits(a, b)) == b
  {
  }

  /** The residue of a sum, when one part leaves none. */
  lemma ResidueOfSum(k: Kind, a: seq<bool>, b: seq<bool>)
    requires |a| == |b| && CrcBits(k, 0, a) == 0
    ensures CrcBits(k, 0, XorBits(a, b)) == CrcBits(k, 0, b)
  {
    Linear(k, 0, 0, a, b);
    XorSelf(0);
    XorSelf(CrcBits(k, 0, b));
    XorComm(0, CrcBits(k, 0, b));
  }

  /** A leading clear bit, and clear bits at the end, do not matter. */
  lemma LeadingZero(k: Kind, m: seq<bool>)
    ensures CrcBits(k, 0, [false] + m) == CrcBits(k, 0, m)
  {
    assert ([false] + m)[1..] == m;
    assert Step(k, 0, false) == 0;
  }

  lemma ShiftedGenerator(k: Kind, b: bool, n: nat)
    ensures CrcBits(k, 0, (if b then Generator(k) else Zeros(Width(k) + 1)) + Zeros(n)) == 0
  {
    var g := if b then Generator(k) else Zeros(Width(k) + 1);
    SizeIs(k);
    GeneratorResidue(k);
    if !b { ClearBitsKeep(k, 0, g); }
    CrcConcat(k, 0, g, Zeros(n));
    ClearBitsKeep(k, 0, Zeros(n));
  }

  lemma {:induction false} ProductResidue(k: Kind, q: seq<bool>)
    ensures CrcBits(k, 0, Product(q, Generator(k))) == 0
    decreases |q|
  {
    var g := Generator(k);
    SizeIs(k);
    if q == [] {
      ClearBitsKeep(k, 0, Zeros(|g| - 1));
    } else {
      ProductResidue(k, q[1..]);
      ShiftedGenerator(k, q[0], |q| - 1);
      LeadingZero(k, Product(q[1..], g));
      ResidueOfSum(k, (if q[0] then g else Zeros(|g|)) + Zeros(|q| - 1), [false] + Product(q[1..], g));
    }
  }

  /** A message without residue is a multiple: divide it, highest power first. */
  lemma {:induction false} Quotient(k: Kind, m: seq<bool>) returns (q: seq<bool>)
    requires |m| >= Width(k) && CrcBits(k, 0, m) == 0
    ensures |q| + Width(k) == |m| && Product(q, Generator(k)) == m
    decreases |m|
  {
    hide CrcBits, Generator, XorBits, Product;
    var g := Generator(k);
    SizeIs(k);
    if |m| == Width(k) {
      q := [];
      ZeroIff(k, 0, m);
      PackClear(m);
      assert m == Zeros(|g| - 1);
      ProductEmpty(g);
    } else {
      var top := (if m[0] then g else Zeros(|g|)) + Zeros(|m| - |g|);
      var rest := XorBits(top, m);
      ShiftedGenerator(k, m[0], |m| - |g|);
      ResidueOfSum(k, top, m);
      XorBitAt(top, m, 0);
      assert rest == [false] + rest[1..];
      LeadingZero(k, rest[1..]);
      var q1 := Quotient(k, rest[1..]);
      q := [m[0]] + q1;
      ProductCons(m[0], q1, g);
      XorTwice(top, m);
    }
  }

  lemma XorBitAt(a: seq<bool>, b: seq<bool>, i: nat)
    requires |a| == |b| && i < |a|
    ensures XorBits(a, b)[i] == (a[i] != b[i])
  {
  }

  lemma ProductEmpty(g: seq<bool>)
    requires g != []
    ensures Product([], g) == Zeros(|g| - 1)
  {
  }

  lemma ProductCons(b: bool, q: seq<bool>, g: seq<bool>)
    requires g != []
    ensures Product([b] + q, g) == XorBits((if b then g else Zeros(|g|)) + Zeros(|q|), [false] + Product(q, g))
  {
    assert ([b] + q)[1..] == q;
  }

  /** The check of a message, taken as a polynomial over bits, is zero exactly when the generator divides it. */
  lemma ResidueZeroIff(k: Kind, m: seq<bool>)
    ensures CrcBits(k, 0, m) == 0 <==> Multiple(m, Generator(k))
  {
    SizeIs(k);
    if |m| <= Width(k) {
      ZeroIff(k, 0, m);
      if Pack(m) == 0 { PackClear(m); }
      if AllClear(m) { ClearBitsKeep(k, 0, m); }
    } else {
      if CrcBits(k, 0, m) == 0 { var q := Quotient(k, m); }
      if Multiple(m, Generator(k)) {
        var q: seq<bool> :| |q| + |Generator(k)| == |m| + 1 && Product(q, Generator(k)) == m;
        ProductResidue(k, q);
      }
    }
  }

  /**
    * A receiver accepts a pair of data and check exactly when the generator of the standard divides the whole, each
    * byte least significant bit first.
    */
  lemma AcceptedIffMultiple(k: Kind, data: bytes, w: bytes)
    requires |w| == WireLen(k)
    ensures Validate(k, data, FromWire(k, w).value) <==> Multiple(MessageBits(data + w), Generator(k))
  {
    AcceptedIffResidueZero(k, data, w);
    SizeIs(k);
    SmallMod(0, Size(k));
    ResidueZeroIff(k, MessageBits(data + w));
  }
}

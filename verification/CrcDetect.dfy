/** The check on the wire, and the errors it is certain to catch. */
module CrcDetect {
  import opened Bits
  import opened Crc
  import opened Prelude
  import opened Xor

  // ---- Wire form ----------------------------------------------------------

  function WireLen(k: Kind): nat {
    match k
    case Crc16 => 2
    case Crc32 => 4
  }

  /** The low `n` bytes of a number, least significant first. */
  function LittleEndian(v: nat, n: nat): (w: bytes)
    ensures |w| == n
  {
    if n == 0 then [] else [v % 256] + LittleEndian(v / 256, n - 1)
  }

  function FromLittleEndian(w: bytes): nat {
    if w == [] then 0 else w[0] + 256 * FromLittleEndian(w[1..])
  }

  function ToWire(k: Kind, crc: nat): (w: bytes)
    ensures |w| == WireLen(k)
  {
    LittleEndian(crc % Size(k), WireLen(k))
  }

  function FromWire(k: Kind, w: bytes): Result<nat, string> {
    if |w| != WireLen(k) then Err("CRC wire format has the wrong length") else Ok(FromLittleEndian(w))
  }

  /** Recomputing a check and comparing it with the received one. */
  predicate Validate(k: Kind, data: bytes, expected: nat) {
    CrcOf(k, data, 0) == expected % Size(k)
  }

  lemma {:induction false} LittleEndianBack(v: nat, n: nat)
    requires v < Pow2(8 * n)
    ensures FromLittleEndian(LittleEndian(v, n)) == v
    decreases n
  {
    if n > 0 {
      Pow2Add(8, 8 * (n - 1));
      assert Pow2(8) == 256;
      LittleEndianBack(v / 256, n - 1);
    }
  }

  /** The wire bytes of a check value give the value back. */
  lemma WireRoundTrip(k: Kind, crc: nat)
    requires crc < Size(k)
    ensures FromWire(k, ToWire(k, crc)) == Ok(crc)
  {
    SizeIs(k);
    SmallMod(crc, Size(k));
    LittleEndianBack(crc, WireLen(k));
  }

  // ---- Residue ------------------------------------------------------------

  /** Wire bytes, taken as message bits, are the binary digits of the value they stand for. */
  lemma {:induction false} WireBits(w: bytes)
    ensures Pack(MessageBits(w)) == FromLittleEndian(w) < Pow2(8 * |w|)
    decreases |w|
  {
    if w != [] {
      WireBits(w[1..]);
      BitsUnfold(w);
      assert Pow2(8) == 256;
      PackLowBits(w[0], 8, MessageBits(w[1..]));
      PackFits(MessageBits(w));
    }
  }

  /** A received pair of data and check is accepted exactly when the check of the whole is zero. */
  lemma AcceptedIffResidueZero(k: Kind, data: bytes, w: bytes)
    requires |w| == WireLen(k)
    ensures Validate(k, data, FromWire(k, w).value) <==> CrcOf(k, data + w, 0) == 0
  {
    var r := CrcOf(k, data, 0);
    Chaining(k, data, w, 0);
    CrcFits(k, 0, MessageBits(data));
    SmallMod(r, Size(k));
    WireBits(w);
    SizeIs(k);
    SmallMod(FromLittleEndian(w), Size(k));
    ZeroIff(k, r, MessageBits(w));
  }

  /** The check of a message followed by its own check, least significant byte first, is zero. */
  lemma Residue(k: Kind, data: bytes)
    ensures CrcOf(k, data + ToWire(k, CrcOf(k, data, 0)), 0) == 0
  {
    var r := CrcOf(k, data, 0);
    CrcFits(k, 0, MessageBits(data));
    WireRoundTrip(k, r);
    SmallMod(r, Size(k));
    AcceptedIffResidueZero(k, data, ToWire(k, r));
  }

  // ---- Errors -------------------------------------------------------------

  /** Where two messages of the same length differ, bit by bit. */
  function Difference(sent: bytes, received: bytes): (e: seq<bool>)
    requires |sent| == |received|
    ensures |e| == 8 * |sent|
  {
    XorBits(MessageBits(sent), MessageBits(received))
  }

  /** A corrupted frame leaves the residue of its own error pattern. */
  lemma ErrorResidue(k: Kind, sent: bytes, received: bytes)
    requires |sent| == |received| && CrcOf(k, sent, 0) == 0
    ensures CrcOf(k, received, 0) == CrcBits(k, 0, Difference(sent, received))
  {
    var s, r := MessageBits(sent), MessageBits(received);
    Linear(k, 0, 0, s, r);
    XorSelf(0);
    XorSelf(CrcBits(k, 0, r));
    XorComm(0, CrcBits(k, 0, r));
  }

  predicate AllClear(e: seq<bool>) {
    forall i :: 0 <= i < |e| ==> !e[i]
  }

  /** Clear bits never bring a register to or from zero. */
  lemma {:induction false} ClearBitsKeep(k: Kind, r: nat, e: seq<bool>)
    requires r < Size(k) && AllClear(e)
    ensures CrcBits(k, r, e) == 0 <==> r == 0
    decreases |e|
  {
    if e != [] {
      StepFits(k, r, false);
      StepBack(k, r, false, 0);
      ClearBitsKeep(k, Step(k, r, false), e[1..]);
    }
  }

  lemma {:induction false} PackClear(e: seq<bool>)
    requires Pack(e) == 0
    ensures AllClear(e)
    decreases |e|
  {
    if e != [] { PackClear(e[1..]); }
  }

  /** An error pattern of which every set bit lies within one register width is never mistaken for no error. */
  lemma BurstResidue(k: Kind, before: seq<bool>, burst: seq<bool>, after: seq<bool>)
    requires AllClear(before) && AllClear(after) && !AllClear(burst) && |burst| <= Width(k)
    ensures CrcBits(k, 0, before + burst + after) != 0
  {
    var r0 := CrcBits(k, 0, before);
    var r1 := CrcBits(k, r0, burst);
    CrcConcat(k, 0, before + burst, after);
    CrcConcat(k, 0, before, burst);
    CrcFits(k, 0, before);
    CrcFits(k, r0, burst);
    ClearBitsKeep(k, 0, before);
    ZeroIff(k, r0, burst);
    if Pack(burst) == 0 { PackClear(burst); }
    ClearBitsKeep(k, r1, after);
  }

  lemma {:induction false} LowBitsInjective(a: nat, b: nat, n: nat)
    requires a < Pow2(n) && b < Pow2(n) && LowBits(a, n) == LowBits(b, n)
    ensures a == b
    decreases n
  {
    if n > 0 {
      var x, y := LowBits(a, n), LowBits(b, n);
      assert x[0] == y[0] && x[1..] == y[1..];
      assert LowBits(a / 2, n - 1) == LowBits(b / 2, n - 1);
      LowBitsInjective(a / 2, b / 2, n - 1);
    }
  }

  lemma {:induction false} BitsInjective(a: bytes, b: bytes)
    requires |a| == |b| && MessageBits(a) == MessageBits(b)
    ensures a == b
    decreases |a|
  {
    if a != [] {
      var x, y := MessageBits(a), MessageBits(b);
      BitsUnfold(a);
      BitsUnfold(b);
      assert x[..8] == LowBits(a[0], 8) && y[..8] == LowBits(b[0], 8);
      assert x[8..] == MessageBits(a[1..]) && y[8..] == MessageBits(b[1..]);
      assert Pow2(8) == 256;
      LowBitsInjective(a[0], b[0], 8);
      BitsInjective(a[1..], b[1..]);
    }
  }

  lemma DifferenceShows(a: bytes, b: bytes)
    requires |a| == |b| && a != b
    ensures !AllClear(Difference(a, b))
  {
    var x, y := MessageBits(a), MessageBits(b);
    if AllClear(Difference(a, b)) {
      forall i | 0 <= i < |x| ensures x[i] == y[i] {
        assert !Difference(a, b)[i];
      }
      assert x == y;
      BitsInjective(a, b);
    }
  }

  /** All differing bits lie in `[from, from + width)`. */
  predicate InBurst(e: seq<bool>, from: nat, width: nat) {
    forall i :: 0 <= i < |e| && e[i] ==> from <= i < from + width
  }

  /**
    * Any corruption confined to 16 (for CRC-16) or 32 (for CRC-32) consecutive bits, at any position of a
    * frame of any length, is rejected.
    */
  lemma BurstDetected(k: Kind, data: bytes, rdata: bytes, rcrc: bytes, from: nat)
    requires |rdata| == |data| && |rcrc| == WireLen(k)
    requires var sent := data + ToWire(k, CrcOf(k, data, 0));
      rdata + rcrc != sent && InBurst(Difference(sent, rdata + rcrc), from, Width(k))
    ensures !Validate(k, rdata, FromWire(k, rcrc).value)
  {
    var sent, received := data + ToWire(k, CrcOf(k, data, 0)), rdata + rcrc;
    var e := Difference(sent, received);
    Residue(k, data);
    ErrorResidue(k, sent, received);
    AcceptedIffResidueZero(k, rdata, rcrc);
    DifferenceShows(sent, received);
    BurstSplit(k, e, from);
  }

  lemma BurstSplit(k: Kind, e: seq<bool>, from: nat)
    requires InBurst(e, from, Width(k)) && !AllClear(e)
    ensures CrcBits(k, 0, e) != 0
  {
    var end := if from + Width(k) <= |e| then from + Width(k) else |e|;
    BurstParts(e, from, Width(k), end);
    BurstResidue(k, e[..from], e[from..end], e[end..]);
  }

  lemma BurstParts(e: seq<bool>, from: nat, width: nat, end: nat)
    requires InBurst(e, from, width) && !AllClear(e)
    requires end == if from + width <= |e| then from + width else |e|
    ensures from < end <= |e| && end - from <= width
    ensures e == e[..from] + e[from..end] + e[end..]
    ensures AllClear(e[..from]) && !AllClear(e[from..end]) && AllClear(e[end..])
  {
    var i :| 0 <= i < |e| && e[i];
    assert e[from..end][i - from];
    forall j | 0 <= j < |e| - end ensures !e[end..][j] {
      assert e[end..][j] == e[end + j];
    }
  }

  // ---- Odd errors ---------------------------------------------------------

  /** Whether an odd number of bits is set. */
  predicate OddOnes(e: seq<bool>) {
    e != [] && (e[0] != OddOnes(e[1..]))
  }

  lemma ParityDouble(a: nat, h: nat, bit: bool)
    requires a == 2 * h + if bit then 1 else 0
    ensures Parity(a) == (Parity(h) != bit)
  {
    ParityStep(a);
  }

  lemma PolyIsOdd()
    ensures Parity(Poly(Crc16))
  {
    assert !Parity(0);
    ParityDouble(0x1, 0x0, true);
    ParityDouble(0x2, 0x1, false);
    ParityDouble(0x4, 0x2, false);
    ParityDouble(0x9, 0x4, true);
    ParityDouble(0x12, 0x9, false);
    ParityDouble(0x24, 0x12, false);
    ParityDouble(0x49, 0x24, true);
    ParityDouble(0x92, 0x49, false);
    ParityDouble(0x125, 0x92, true);
    ParityDouble(0x24A, 0x125, false);
    ParityDouble(0x494, 0x24A, false);
    ParityDouble(0x929, 0x494, true);
    ParityDouble(0x1253, 0x929, true);
    ParityDouble(0x24A6, 0x1253, false);
    ParityDouble(0x494C, 0x24A6, false);
    ParityDouble(0x9299, 0x494C, true);
  }

  lemma {:induction false} RegisterParity(r: nat, bits: seq<bool>)
    ensures Parity(CrcBits(Crc16, r, bits)) == (Parity(r) != OddOnes(bits))
    decreases |bits|
  {
    if bits != [] {
      PolyIsOdd();
      ParityStep(r);
      ParityXor(r / 2, Poly(Crc16));
      RegisterParity(Step(Crc16, r, bits[0]), bits[1..]);
    }
  }

  /** The 16-bit check catches every odd number of flipped bits, wherever they are. */
  lemma OddErrorsDetected(data: bytes, rdata: bytes, rcrc: bytes)
    requires |rdata| == |data| && |rcrc| == 2
    requires OddOnes(Difference(data + ToWire(Crc16, CrcOf(Crc16, data, 0)), rdata + rcrc))
    ensures !Validate(Crc16, rdata, FromWire(Crc16, rcrc).value)
  {
    var sent, received := data + ToWire(Crc16, CrcOf(Crc16, data, 0)), rdata + rcrc;
    Residue(Crc16, data);
    ErrorResidue(Crc16, sent, received);
    AcceptedIffResidueZero(Crc16, rdata, rcrc);
    RegisterParity(0, Difference(sent, received));
  }
}

/** Non-ARQ bursts: segmentation into D_PDUs whose end-of-transmission fields cover the burst. */
module NonArqBurst {
  import opened Bits
  import opened Chunking
  import opened Dpdu
  import opened DpduCodec
  import opened DpduCodecProof
  import NonArqRuns
  import opened Prelude

  const OVERHEAD := 40

  /** The automatic address size: the fewest nibbles, at least one, that hold a number. */
  function NibbleWidth(v: nat): (n: nat)
    ensures n >= 1 && v < Pow16(n)
    ensures n > 1 ==> v >= Pow16(n - 1)
  {
    if v < 16 then 1 else 1 + NibbleWidth(v / 16)
  }

  function AutoAddress(destination: nat, source: nat): Result<Address, string> {
    var n := NibbleWidth(if destination >= source then destination else source);
    if n > 7 then Err("Address exceeds 28-bit STANAG limit") else Ok(AddressPair(destination, source, n))
  }

  // ---- Transmission times -------------------------------------------------

  /** The estimated time in milliseconds of one D_PDU with `len` bytes of data. */
  function Time(len: nat, rate: nat): nat
    requires rate > 0
  {
    (OVERHEAD + len) * 8 * 1000 / rate
  }

  /** The estimated time of the segments from number `k` on. */
  function Remaining(cs: seq<bytes>, k: nat, rate: nat): nat
    requires rate > 0 && k <= |cs|
    decreases |cs| - k
  {
    if k == |cs| then 0 else Time(|cs[k]|, rate) + Remaining(cs, k + 1, rate)
  }

  /** Half seconds, rounded up and clamped to a byte. */
  function EotField(halfSeconds: int): byte {
    if halfSeconds < 0 then 0 else if halfSeconds <= 0xFF then halfSeconds else 0xFF
  }

  function Eot(remaining: nat): byte {
    EotField((remaining + 499) / 500)
  }

  lemma EotMonotone(a: nat, b: nat)
    requires a <= b
    ensures Eot(a) <= Eot(b)
  {
  }

  /** Later segments never announce more remaining time than earlier ones. */
  lemma {:induction false} EotNeverGrows(cs: seq<bytes>, j: nat, k: nat, rate: nat)
    requires rate > 0 && j <= k <= |cs|
    ensures Remaining(cs, k, rate) <= Remaining(cs, j, rate)
    ensures Eot(Remaining(cs, k, rate)) <= Eot(Remaining(cs, j, rate))
    decreases k - j
  {
    if j < k { EotNeverGrows(cs, j + 1, k, rate); }
    EotMonotone(Remaining(cs, k, rate), Remaining(cs, j, rate));
  }

  // ---- D_PDUs -------------------------------------------------------------

  datatype Request = Request(expedited: bool, destination: nat, payload: bytes, cpduId: u12, window: nat, group: bool)

  /** The conditions of the sending node. */
  datatype Setup = Setup(source: nat, maxData: nat, rate: nat, halfDuplex: bool)

  /** The reasons for which building a burst fails. */
  function BurstProblem(r: Request, s: Setup): Option<string> {
    if s.maxData == 0 || s.rate == 0 then Some("division by zero")
    else if AutoAddress(r.destination, s.source).Err? then Some("Address exceeds 28-bit STANAG limit")
    else if r.payload == [] then Some("Non-ARQ DPDUs require user data")
    else if r.window > 0xFFFF then Some("C_PDU reception window must fit in 16 bits")
    else if |r.payload| > 0xFFFF then Some("C_PDU size must fit in 16 bits")
    else if s.maxData > 1023 && |r.payload| > 1023 then Some("User data exceeds maximum phase 1 DPDU size")
    else None
  }

  function Header(r: Request, start: u16): NonArqHeader
    requires r.window <= 0xFFFF && |r.payload| <= 0xFFFF
  {
    NonArqHeader(r.window, start, |r.payload|, r.group, false, r.cpduId)
  }

  /** One segment: the bytes from `start` to `end`. */
  function MakeSegment(r: Request, s: Setup, start: nat, end: nat, eot: byte): (d: Dpdu)
    requires BurstProblem(r, s).None? && start < end <= |r.payload| && end - start <= s.maxData
    ensures Encodable(d) && IsNonArq(d.kind) && d.userData == r.payload[start..end]
  {
    Dpdu(if r.expedited then ExpeditedNonArq else NonArq, 0, eot,
         AutoAddress(r.destination, s.source).value, None, None, None, None,
         Some(Header(r, start)), None, r.payload[start..end], None, None, None, None)
  }

  /** Segment `k` of a request. */
  function Segment(r: Request, s: Setup, k: nat): (d: Dpdu)
    requires BurstProblem(r, s).None? && k < |Chunks(r.payload, s.maxData)|
    ensures Encodable(d)
  {
    var cs := Chunks(r.payload, s.maxData);
    ChunkAt(r.payload, s.maxData, k);
    ChunksPartition(r.payload, s.maxData);
    var start := k * s.maxData;
    MakeSegment(r, s, start, start + |cs[k]|, if s.halfDuplex then Eot(Remaining(cs, k, s.rate)) else 0)
  }

  function Burst(r: Request, s: Setup): (ds: seq<Dpdu>)
    requires BurstProblem(r, s).None?
    ensures |ds| == |Chunks(r.payload, s.maxData)| > 0
    ensures forall k :: 0 <= k < |ds| ==> Encodable(ds[k])
  {
    ChunksPartition(r.payload, s.maxData);
    seq(|Chunks(r.payload, s.maxData)|, k requires 0 <= k < |Chunks(r.payload, s.maxData)| => Segment(r, s, k))
  }

  /** What a receiver reads from a non-ARQ D_PDU as a segment. */
  function SegOf(d: Dpdu): NonArqRuns.Seg
    requires d.nonArq.Some?
  {
    NonArqRuns.Seg(d.nonArq.value.firstBytePosition, d.userData)
  }

  /** The D_PDUs of a burst, encoded and decoded, are the segments of the C_PDU. */
  lemma BurstIsSegments(r: Request, s: Setup, k: nat)
    requires BurstProblem(r, s).None? && k < |Burst(r, s)|
    ensures var raw := Wire(Burst(r, s)[k]);
      && Decode(raw).Ok? && Decode(raw).value.nonArq.Some?
      && SegOf(Decode(raw).value) == NonArqRuns.BuildSegments(r.payload, s.maxData)[k]
      && Decode(raw).value.nonArq.value.cpduSize == |r.payload|
      && Decode(raw).value.eot == Burst(r, s)[k].eot
  {
    hide EncodeSpecific, Decode, Encode;
    RoundTrip(Burst(r, s)[k]);
    ChunkAt(r.payload, s.maxData, k);
  }

  /** Exactly the requests for which a burst can be built. */
  lemma BuildableIff(r: Request, s: Setup)
    ensures BurstProblem(r, s).None? <==>
      && s.maxData > 0 && s.rate > 0 && r.destination < 0x1000_0000 && s.source < 0x1000_0000
      && 0 < |r.payload| <= 0xFFFF && r.window <= 0xFFFF && (s.maxData <= 1023 || |r.payload| <= 1023)
  {
    AddressableIff(if r.destination >= s.source then r.destination else s.source);
  }

  lemma AddressableIff(v: nat)
    ensures NibbleWidth(v) <= 7 <==> v < 0x1000_0000
  {
    LargestAddress();
    if NibbleWidth(v) <= 7 { WiderHolds(NibbleWidth(v), 7); } else { WiderHolds(7, NibbleWidth(v) - 1); }
  }

  lemma LargestAddress()
    ensures Pow16(7) == 0x1000_0000
  {
    assert Pow16(3) == 0x1000 && Pow16(5) == 0x10_0000;
  }

  lemma {:induction false} WiderHolds(m: nat, n: nat)
    requires m <= n
    ensures Pow16(m) <= Pow16(n)
    decreases n
  {
    if m < n { WiderHolds(m, n - 1); }
  }

  /** The header fields of D_PDU `k`: type, the shortest addresses that hold both numbers, and those of the request. */
  lemma BurstFields(r: Request, s: Setup, k: nat)
    requires BurstProblem(r, s).None? && k < |Burst(r, s)|
    ensures var d := Burst(r, s)[k];
      && (if r.expedited then d.kind.ExpeditedNonArq? else d.kind.NonArq?) && d.eow == 0
      && d.address.destination == r.destination && d.address.source == s.source
      && (d.address.size > 1 ==>
            r.destination >= Pow16(d.address.size - 1) || s.source >= Pow16(d.address.size - 1))
      && k * s.maxData < |r.payload|
      && d.nonArq == Some(NonArqHeader(r.window, k * s.maxData, |r.payload|, r.group, false, r.cpduId))
      && d.userData == Chunks(r.payload, s.maxData)[k]
      && (!s.halfDuplex ==> d.eot == 0)
  {
    ChunkAt(r.payload, s.maxData, k);
    ChunksPartition(r.payload, s.maxData);
  }

  // ---- Airtime ------------------------------------------------------------

  /** The exact length on the wire of a non-ARQ D_PDU. */
  lemma WireLength(d: Dpdu)
    requires IsNonArq(d.kind) && Encodable(d)
    ensures |Wire(d)| == 21 + d.address.size + |d.userData|
  {
    var t := SpecificBytes(d);
    NonArqBytes(d.nonArq.value, |d.userData|);
    assert |Payload(d)| == |d.userData| + 4;
  }

  /** The number of bytes from frame `k` to the end. */
  function BytesFrom(ws: seq<bytes>, k: nat): nat
    requires k <= |ws|
    decreases |ws| - k
  {
    if k == |ws| then 0 else |ws[k]| + BytesFrom(ws, k + 1)
  }

  /** What the floor division of the estimate of one D_PDU drops, in bit-milliseconds. */
  function Dropped(len: nat, rate: nat): nat
    requires rate > 0
  {
    (OVERHEAD + len) * 8000 % rate
  }

  function DroppedFrom(cs: seq<bytes>, k: nat, rate: nat): nat
    requires rate > 0 && k <= |cs|
    decreases |cs| - k
  {
    if k == |cs| then 0 else Dropped(|cs[k]|, rate) + DroppedFrom(cs, k + 1, rate)
  }

  lemma TimeExact(len: nat, rate: nat)
    requires rate > 0
    ensures Time(len, rate) * rate + Dropped(len, rate) == (OVERHEAD + len) * 8000
  {
    var x := (OVERHEAD + len) * 8000;
    assert x == (OVERHEAD + len) * 8 * 1000;
    assert x == rate * (x / rate) + x % rate;
  }

  /**
    * The estimate of one D_PDU covers its airtime exactly when the division drops no more than the margin by which the
    * assumed overhead of 40 bytes exceeds the real one of 21 bytes and the addresses.
    */
  lemma OneCoveredIff(len: nat, size: nat, rate: nat)
    requires rate > 0
    ensures Time(len, rate) * rate >= (21 + size + len) * 8000 <==> Dropped(len, rate) <= (19 - size) * 8000
  {
    TimeExact(len, rate);
  }

  lemma {:induction false} TimesExact(ws: seq<bytes>, cs: seq<bytes>, size: nat, rate: nat, k: nat)
    requires rate > 0 && |ws| == |cs| && k <= |ws|
    requires forall i :: 0 <= i < |ws| ==> |ws[i]| == 21 + size + |cs[i]|
    ensures Remaining(cs, k, rate) * rate + DroppedFrom(cs, k, rate)
         == BytesFrom(ws, k) * 8000 + (|ws| - k) * (19 - size) * 8000
    decreases |ws| - k
  {
    if k < |ws| {
      TimesExact(ws, cs, size, rate, k + 1);
      TimeExact(|cs[k]|, rate);
      Distribute(Time(|cs[k]|, rate), Remaining(cs, k + 1, rate), rate);
      Distribute(1, |ws| - k - 1, (19 - size) * 8000);
    }
  }

  lemma Distribute(a: int, b: int, c: int)
    ensures (a + b) * c == a * c + b * c
  {
  }

  /** The address size of a burst, and with it the length of every frame. */
  function AddressSize(r: Request, s: Setup): (n: nat)
    requires BurstProblem(r, s).None?
    ensures 1 <= n <= 7
  {
    AutoAddress(r.destination, s.source).value.size
  }

  lemma FrameLength(r: Request, s: Setup, k: nat)
    requires BurstProblem(r, s).None? && k < |Burst(r, s)|
    ensures |Encoded(r, s)[k]| == 21 + AddressSize(r, s) + |Chunks(r.payload, s.maxData)[k]|
  {
    SegmentAt(r, s, k);
    var d := Burst(r, s)[k];
    EncodedAt(r, s, k, d);
    WireLength(d);
    assert d == Segment(r, s, k);
  }

  /** What rounding up to half seconds adds, in milliseconds. */
  function Padding(remaining: nat): nat { (500 - remaining % 500) % 500 }

  lemma EotExact(remaining: nat)
    requires remaining <= 127_500
    ensures Eot(remaining) * 500 == remaining + Padding(remaining)
  {
  }

  /** The field of D_PDU `k` announces at least the airtime of the frames from there on, in bit-milliseconds. */
  predicate Announced(r: Request, s: Setup, k: nat)
    requires BurstProblem(r, s).None? && k < |Burst(r, s)|
  {
    Burst(r, s)[k].eot * 500 * s.rate >= BytesFrom(Encoded(r, s), k) * 8000
  }

  /**
    * At any rate, an end-of-transmission field that was not clamped covers the exact airtime of all the encoded D_PDUs
    * from its own to the end of the burst if and only if the divisions drop no more than the margins of those D_PDUs
    * and what rounding up to half seconds adds.
    */
  lemma EotCoversIff(r: Request, s: Setup, k: nat)
    requires BurstProblem(r, s).None? && s.halfDuplex && k < |Burst(r, s)|
    requires Remaining(Chunks(r.payload, s.maxData), k, s.rate) <= 127_500
    ensures var cs := Chunks(r.payload, s.maxData);
      var margins := (|cs| - k) * (19 - AddressSize(r, s)) * 8000;
      DroppedFrom(cs, k, s.rate) <= margins + Padding(Remaining(cs, k, s.rate)) * s.rate <==> Announced(r, s, k)
  {
    hide Remaining, DroppedFrom, BytesFrom, Encoded, Burst, AddressSize, Padding, Eot;
    var ws, cs := Encoded(r, s), Chunks(r.payload, s.maxData);
    var rem := Remaining(cs, k, s.rate);
    forall i | 0 <= i < |ws| ensures |ws[i]| == 21 + AddressSize(r, s) + |cs[i]| {
      FrameLength(r, s, i);
    }
    TimesExact(ws, cs, AddressSize(r, s), s.rate, k);
    SegmentAt(r, s, k);
    EotExact(rem);
    Distribute(rem, Padding(rem), s.rate);
  }

  /**
    * Whatever divides both 8000 and the rate divides what is dropped. So the margin of every D_PDU suffices, and every
    * field that was not clamped covers the airtime, when the rate exceeds the margin by no more than such a divisor: up
    * to 96001 bit/s for all addresses, and at 120000 bit/s for addresses of up to 5 half-bytes.
    */
  lemma EotCoversAirtime(r: Request, s: Setup, k: nat, g: nat)
    requires BurstProblem(r, s).None? && s.halfDuplex && k < |Burst(r, s)|
    requires Remaining(Chunks(r.payload, s.maxData), k, s.rate) <= 127_500
    requires g > 0 && 8000 % g == 0 && s.rate % g == 0 && s.rate <= (19 - AddressSize(r, s)) * 8000 + g
    ensures Announced(r, s, k)
  {
    hide DroppedFrom, Announced, AddressSize, Burst, Remaining, Padding;
    var cs := Chunks(r.payload, s.maxData);
    forall i | 0 <= i < |cs| ensures Dropped(|cs[i]|, s.rate) <= (19 - AddressSize(r, s)) * 8000 {
      DroppedBound(|cs[i]|, s.rate, g);
    }
    DroppedSum(cs, k, s.rate, (19 - AddressSize(r, s)) * 8000);
    EotCoversIff(r, s, k);
    NotNegative(Padding(Remaining(cs, k, s.rate)), s.rate);
  }

  lemma NotNegative(a: nat, b: nat)
    ensures a * b >= 0
  {
  }

  lemma DroppedBound(len: nat, rate: nat, g: nat)
    requires rate > 0 && g > 0 && 8000 % g == 0 && rate % g == 0
    ensures Dropped(len, rate) <= rate - g
  {
    var x := (OVERHEAD + len) * 8000;
    var d, q := x % rate, x / rate;
    var e, f := 8000 / g, rate / g;
    assert 8000 == g * e && rate == g * f;
    assert x == rate * q + d;
    Factored(g, (OVERHEAD + len) * e, f * q, f, d) by {
      assert (OVERHEAD + len) * 8000 == g * ((OVERHEAD + len) * e);
      assert rate * q == g * (f * q);
    }
  }

  /** A multiple of `g` below another multiple is at least `g` less. */
  lemma Factored(g: nat, a: int, b: int, f: int, d: nat)
    requires g > 0 && g * a == g * b + d && d < g * f
    ensures d <= g * f - g
  {
    var c := a - b;
    assert d == g * c;
    assert c >= f ==> g * c >= g * f;
    assert c <= f - 1 ==> g * c <= g * (f - 1) == g * f - g;
  }

  lemma {:induction false} DroppedSum(cs: seq<bytes>, k: nat, rate: nat, m: nat)
    requires rate > 0 && k <= |cs| && forall i :: 0 <= i < |cs| ==> Dropped(|cs[i]|, rate) <= m
    ensures DroppedFrom(cs, k, rate) <= (|cs| - k) * m
    decreases |cs| - k
  {
    if k < |cs| {
      DroppedSum(cs, k + 1, rate, m);
      Distribute(1, |cs| - k - 1, m);
    }
  }

  /** The floor divisions can eat up the margin: at this rate 500 ms are announced for 512 ms. */
  lemma RateBoundNeeded(r: Request, s: Setup)
    requires r == Request(false, 0x100_0000, seq(10_000, i => 7), 0, 4, false)
    requires s == Setup(1, 100, 200_000, true)
    ensures BurstProblem(r, s).None? && Burst(r, s)[0].eot < 0xFF
    ensures Burst(r, s)[0].eot * 500 * s.rate < BytesFrom(Encoded(r, s), 0) * 8 * 1000
  {
    hide Burst, Encoded, Chunks, AddressSize, AutoAddress;
    SevenNibbles(r, s);
    var cs, ws := Chunks(r.payload, s.maxData), Encoded(r, s);
    ChunkCount(r.payload, 100);
    assert (10_000 + 100 - 1) / 100 == 100;
    forall k | 0 <= k < 100 ensures |cs[k]| == 100 && |ws[k]| == 128 {
      NonArqRuns.ChunkLength(r.payload, 100, k);
      FrameLength(r, s, k);
    }
    Uniform(cs, ws, 0);
    SegmentAt(r, s, 0);
  }

  lemma SevenNibbles(r: Request, s: Setup)
    requires r.destination == 0x100_0000 && s.source == 1
    ensures AutoAddress(r.destination, s.source).Ok?
    ensures BurstProblem(r, s).None? ==> AddressSize(r, s) == 7
  {
    WidthSeven();
  }

  lemma WidthSeven()
    ensures NibbleWidth(0x100_0000) == 7
  {
    assert NibbleWidth(0x1) == 1 && NibbleWidth(0x10) == 2 && NibbleWidth(0x100) == 3;
    assert NibbleWidth(0x1000) == 4 && NibbleWidth(0x1_0000) == 5 && NibbleWidth(0x10_0000) == 6;
  }

  lemma {:induction false} Uniform(cs: seq<bytes>, ws: seq<bytes>, k: nat)
    requires |cs| == |ws| == 100 && k <= 100
    requires forall i :: 0 <= i < 100 ==> |cs[i]| == 100 && |ws[i]| == 128
    ensures Remaining(cs, k, 200_000) == (100 - k) * 5 && BytesFrom(ws, k) == (100 - k) * 128
    decreases 100 - k
  {
    if k < 100 {
      Uniform(cs, ws, k + 1);
      assert Time(100, 200_000) == 5;
    }
  }

  // ---- Building the burst -------------------------------------------------

  predicate TimesAre(cs: seq<bytes>, rate: nat, times: seq<nat>)
    requires rate > 0
  {
    |times| == |cs| && forall i :: 0 <= i < |cs| ==> times[i] == Time(|cs[i]|, rate)
  }

  /** The time that has passed before segment `k`. */
  lemma {:induction false} ElapsedAndRemaining(times: seq<nat>, cs: seq<bytes>, rate: nat, k: nat)
    requires rate > 0 && k <= |cs| && TimesAre(cs, rate, times)
    ensures Sum(times) - Sum(times[..k]) == Remaining(cs, k, rate)
    decreases |cs| - k
  {
    if k == |cs| {
      assert times[..k] == times;
    } else {
      ElapsedAndRemaining(times, cs, rate, k + 1);
      assert times[..k + 1][..k] == times[..k];
    }
  }

  function Sum(s: seq<nat>): nat {
    if s == [] then 0 else Sum(s[..|s| - 1]) + s[|s| - 1]
  }

  /** The transmission time of every segment, computed ahead of the burst. */
  method SegmentTimes(payload: bytes, maxData: nat, rate: nat, count: nat) returns (times: seq<nat>)
    requires maxData > 0 && rate > 0 && count == |Chunks(payload, maxData)|
    ensures TimesAre(Chunks(payload, maxData), rate, times)
  {
    hide Chunks;
    times := [];
    for index := 0 to count
      invariant |times| == index
      invariant forall i :: 0 <= i < index ==> times[i] == Time(|Chunks(payload, maxData)[i]|, rate)
    {
      PieceLength(payload, maxData, index);
      var start := index * maxData;
      var end := if start + maxData < |payload| then start + maxData else |payload|;
      times := times + [(OVERHEAD + (end - start)) * 8 * 1000 / rate];
    }
  }

  lemma SegmentAt(r: Request, s: Setup, k: nat)
    requires BurstProblem(r, s).None? && k < |Burst(r, s)|
    ensures var d, cs := Burst(r, s)[k], Chunks(r.payload, s.maxData);
      && IsNonArq(d.kind) && Encodable(d) && d.userData == cs[k]
      && d.eot == if s.halfDuplex then Eot(Remaining(cs, k, s.rate)) else 0
  {
    ChunkAt(r.payload, s.maxData, k);
    assert Burst(r, s)[k] == Segment(r, s, k);
  }

  lemma SegmentIs(r: Request, s: Setup, k: nat, times: seq<nat>)
    requires BurstProblem(r, s).None? && k < |Burst(r, s)|
    requires TimesAre(Chunks(r.payload, s.maxData), s.rate, times)
    ensures var start := k * s.maxData;
      var end := if start + s.maxData < |r.payload| then start + s.maxData else |r.payload|;
      && 0 <= start < end <= |r.payload| && end - start <= s.maxData
      && Burst(r, s)[k] == MakeSegment(r, s, start, end,
           if s.halfDuplex then EotField((Sum(times) - Sum(times[..k]) + 499) / 500) else 0)
  {
    PieceLength(r.payload, s.maxData, k);
    ElapsedAndRemaining(times, Chunks(r.payload, s.maxData), s.rate, k);
    assert Burst(r, s)[k] == Segment(r, s, k);
  }

  method BuildBurst(r: Request, s: Setup) returns (segments: Result<seq<bytes>, string>)
    ensures segments.Ok? <==> BurstProblem(r, s).None?
    ensures segments.Ok? ==> segments.value == Encoded(r, s)
  {
    var problem := BurstProblem(r, s);
    if problem.Some? { return Err(problem.value); }
    var total := |r.payload|;
    ChunkCount(r.payload, s.maxData);
    var whole := (total + s.maxData - 1) / s.maxData;
    var segmentCount := if whole > 1 then whole else 1;
    assert segmentCount == |Burst(r, s)|;
    var times := SegmentTimes(r.payload, s.maxData, s.rate, segmentCount);
    var out := EncodeSegments(r, s, times);
    return Ok(out);
  }

  lemma FrameIs(r: Request, s: Setup, k: nat, times: seq<nat>, start: nat, end: nat, eot: byte)
    requires BurstProblem(r, s).None? && k < |Burst(r, s)|
    requires TimesAre(Chunks(r.payload, s.maxData), s.rate, times)
    requires start == k * s.maxData
    requires end == if start + s.maxData < |r.payload| then start + s.maxData else |r.payload|
    requires eot == if s.halfDuplex then EotField((Sum(times) - Sum(times[..k]) + 499) / 500) else 0
    ensures start < end <= |r.payload| && end - start <= s.maxData
    ensures Encoded(r, s)[k] == Wire(MakeSegment(r, s, start, end, eot))
  {
    SegmentIs(r, s, k, times);
    EncodedAt(r, s, k, MakeSegment(r, s, start, end, eot));
  }

  /** The frames of the burst, each announcing the time that remains from its own start. */
  method EncodeSegments(r: Request, s: Setup, times: seq<nat>) returns (out: seq<bytes>)
    requires BurstProblem(r, s).None?
    requires TimesAre(Chunks(r.payload, s.maxData), s.rate, times)
    ensures out == Encoded(r, s)
  {
    hide Encoded, Burst, BurstProblem, Chunks, Sum;
    var totalBurst := Sum(times);
    out := [];
    for index := 0 to |times|
      invariant |out| == index && forall k :: 0 <= k < index ==> out[k] == Encoded(r, s)[k]
    {
      var w := EncodeSegment(r, s, times, index, totalBurst);
      out := out + [w];
    }
  }

  method EncodeSegment(r: Request, s: Setup, times: seq<nat>, index: nat, totalBurst: nat) returns (w: bytes)
    requires BurstProblem(r, s).None? && index < |Burst(r, s)| && totalBurst == Sum(times)
    requires TimesAre(Chunks(r.payload, s.maxData), s.rate, times)
    ensures w == Encoded(r, s)[index]
  {
    hide Encoded, Burst, Chunks, Wire, Sum;
    var start := index * s.maxData;
    var end := if start + s.maxData < |r.payload| then start + s.maxData else |r.payload|;
    var elapsed := Sum(times[..index]);
    var eot := if s.halfDuplex then EotField((totalBurst - elapsed + 499) / 500) else 0;
    FrameIs(r, s, index, times, start, end, eot);
    w := Wire(MakeSegment(r, s, start, end, eot));
  }

  lemma EncodedAt(r: Request, s: Setup, k: nat, d: Dpdu)
    requires BurstProblem(r, s).None? && k < |Burst(r, s)| && d == Burst(r, s)[k]
    ensures Encodable(d) && Encoded(r, s)[k] == Wire(d)
  {
  }

  /** The burst as it goes to the modem. */
  function Encoded(r: Request, s: Setup): (ws: seq<bytes>)
    requires BurstProblem(r, s).None?
    ensures |ws| == |Burst(r, s)|
  {
    seq(|Burst(r, s)|, k requires 0 <= k < |Burst(r, s)| => Wire(Burst(r, s)[k]))
  }

  lemma PieceLength(p: bytes, n: nat, i: nat)
    requires n > 0 && i < |Chunks(p, n)|
    ensures var start := i * n;
      var end := if start + n < |p| then start + n else |p|;
      0 <= start < |p| && Chunks(p, n)[i] == p[start..end] && 0 < end - start <= n
  {
    NonArqRuns.ChunkLength(p, n, i);
    ChunksPartition(p, n);
  }
}

/** Encoding what was decoded: which received frames come back byte for byte. */
module DpduCanonical {
  import opened Bits
  import opened Crc
  import opened CrcDetect
  import opened Dpdu
  import opened DpduCodec
  import opened DpduCodecProof
  import opened Prelude

  // ---- Addresses and checks -----------------------------------------------

  lemma {:induction false} NibblesForward(s: seq<nibble>)
    ensures Nibbles(FromNibbles(s), |s|) == s
    decreases |s|
  {
    if s != [] {
      var n := |s| - 1;
      NibblesForward(s[..n]);
      var v := FromNibbles(s[..n]);
      assert (v * 16 + s[n]) / 16 == v && (v * 16 + s[n]) % 16 == s[n];
      assert s == s[..n] + [s[n]];
    }
  }

  lemma {:induction false} PairForward(w: bytes)
    ensures Pair(Unpair(w)) == w
    decreases |w|
  {
    if w != [] {
      PairForward(w[1..]);
      var s := Unpair(w);
      assert s[2..] == Unpair(w[1..]);
      assert Hex(w[0] / 16, w[0] % 16) == w[0];
      assert w == [w[0]] + w[1..];
    }
  }

  lemma AddressForward(w: bytes)
    requires 1 <= |w| <= 7
    ensures EncodeAddress(DecodeAddress(w)) == w
  {
    var s, n := Unpair(w), |w|;
    NibblesForward(s[..n]);
    NibblesForward(s[n..2 * n]);
    Halves(s, n);
    PairForward(w);
    var a := DecodeAddress(w);
    assert Nibbles(a.destination, n) == s[..n] && Nibbles(a.source, n) == s[n..2 * n];
  }

  lemma Halves(s: seq<nibble>, n: nat)
    requires |s| == 2 * n
    ensures s[..n] + s[n..2 * n] == s
  {
  }

  lemma {:induction false} LittleEndianForward(w: bytes)
    ensures LittleEndian(FromLittleEndian(w), |w|) == w
    decreases |w|
  {
    if w != [] {
      LittleEndianForward(w[1..]);
      var v := FromLittleEndian(w[1..]);
      assert (w[0] + 256 * v) % 256 == w[0] && (w[0] + 256 * v) / 256 == v;
      assert w == [w[0]] + w[1..];
    }
  }

  /** A check that validates is the one the sender would have appended. */
  lemma CheckForward(k: Kind, data: bytes, w: bytes)
    requires |w| == WireLen(k) && Validate(k, data, FromLittleEndian(w))
    ensures w == ToWire(k, CrcOf(k, data, 0))
  {
    WireBits(w);
    SizeIs(k);
    SmallMod(FromLittleEndian(w), Size(k));
    LittleEndianForward(w);
  }

  // ---- Type-specific headers ----------------------------------------------

  /** A header in which everything that the decoder ignores is clear. */
  predicate CanonicalSpecific(kind: DpduType, t: bytes)
    requires ParseSpecific(kind, t).Ok?
  {
    match kind
    case ExpeditedDataOnly => (t[0] / 4) % 16 == 0 && t[3] < 16
    case ResetWinResync => t[0] % 16 == 0
    case Management => Has(t[0], 4) <==> |t| > 2
    case NonArq | ExpeditedNonArq => Word(t[0] % 4, t[1]) != 0
    case _ => true
  }

  /** A D_PDU built from a parsed header and the user data that came with it. */
  predicate BuiltFrom(d: Dpdu, s: Specific, t: bytes) {
    && d.data == s.data && d.ack == s.ack && d.reset == s.reset && d.nonArq == s.nonArq && d.warning == s.warning
    && (!d.kind.Management? ==> |d.userData| == s.dataLen)
    && (d.kind.Management? && s.management.Some? ==>
          && |t| >= 2 && d.userData == t[2..]
          && d.management == Some(s.management.value.(messageField := d.eow)))
  }

  /** The six flags of a byte add up to it. */
  lemma FlagSum(x: byte)
    ensures x == 128 * B(Has(x, 128)) + 64 * B(Has(x, 64)) + 32 * B(Has(x, 32)) + 16 * B(Has(x, 16))
               + 8 * B(Has(x, 8)) + 4 * B(Has(x, 4)) + x % 4
  {
    hide Has, B;
    Halve(x, 128);
    Halve(x, 64);
    MiddleFlags(x);
    BitParts(x);
  }

  lemma BitParts(x: byte)
    ensures x == 64 * (x / 64) + 4 * ((x / 4) % 16) + x % 4 && x / 256 == 0
  {
  }

  /** The part of a byte above one bit, and above the next. */
  lemma Halve(x: byte, m: byte)
    requires m in [4, 8, 16, 32, 64, 128]
    ensures x / m == 2 * (x / (2 * m)) + B(Has(x, m))
  {
  }

  lemma WordSplit(hi: nat, lo: byte)
    ensures Word(hi, lo) / 256 == hi && Word(hi, lo) % 256 == lo
  {
  }

  lemma DataForward(t: bytes)
    requires |t| >= 3
    ensures DataWire(ParseData(t)) == t[..3]
  {
    FlagSum(t[0]);
    WordSplit(t[0] % 4, t[1]);
  }

  lemma ExpeditedForward(t: bytes)
    requires |t| == 4
    ensures ExpeditedWire(ParseSpecific(ExpeditedDataOnly, t).value.data.value) == t
       <==> CanonicalSpecific(ExpeditedDataOnly, t)
  {
    FlagSum(t[0]);
    WordSplit(t[0] % 4, t[1]);
    MiddleFlags(t[0]);
    var w := ExpeditedWire(ParseSpecific(ExpeditedDataOnly, t).value.data.value);
    assert w[1..3] == t[1..3];
    assert w == t <==> w[0] == t[0] && w[3] == t[3];
  }

  lemma MiddleFlags(x: byte)
    ensures (x / 4) % 16 == 8 * B(Has(x, 32)) + 4 * B(Has(x, 16)) + 2 * B(Has(x, 8)) + B(Has(x, 4))
  {
    hide Has;
    Halve(x, 32);
    Halve(x, 16);
    Halve(x, 8);
    Halve(x, 4);
    LowDigit(x / 64, 8 * B(Has(x, 32)) + 4 * B(Has(x, 16)) + 2 * B(Has(x, 8)) + B(Has(x, 4)));
  }

  lemma LowDigit(high: nat, low: nat)
    requires low < 16
    ensures (16 * high + low) % 16 == low
  {
  }

  lemma ResetParsed(t: bytes)
    requires |t| == 3
    ensures ParseSpecific(ResetWinResync, t).Ok? && ParseSpecific(ResetWinResync, t).value.reset ==
      Some(ResetHeader(Has(t[0], 128), Has(t[0], 64), Has(t[0], 32), Has(t[0], 16), t[1], t[2]))
  {
  }

  lemma ResetForward(t: bytes)
    requires |t| == 3
    ensures ResetWire(ParseSpecific(ResetWinResync, t).value.reset.value) == t <==> CanonicalSpecific(ResetWinResync, t)
  {
    hide ParseSpecific, Has;
    ResetParsed(t);
    Halve(t[0], 128);
    Halve(t[0], 64);
    Halve(t[0], 32);
    Halve(t[0], 16);
    var w := ResetWire(ParseSpecific(ResetWinResync, t).value.reset.value);
    assert w == t <==> w[0] == t[0];
  }

  lemma ManagementForward(t: bytes, field: u12)
    requires ParseSpecific(Management, t).Ok?
    ensures ManagementWire(ParseSpecific(Management, t).value.management.value.(messageField := field), t[2..]) == t
       <==> CanonicalSpecific(Management, t)
  {
    Halve(t[0], 4);
    assert t[0] == 4 * B(Has(t[0], 4)) + 2 * B(Has(t[0], 2)) + B(Has(t[0], 1));
    var w := ManagementWire(ParseSpecific(Management, t).value.management.value.(messageField := field), t[2..]);
    assert t == [t[0], t[1]] + t[2..];
    assert w == t <==> w[0] == t[0];
  }

  lemma NonArqForward(t: bytes)
    requires |t| == 9
    ensures NonArqWire(ParseNonArq(t).value.nonArq.value, Word(t[0] % 4, t[1])) == t
  {
    var h, size := ParseNonArq(t).value.nonArq.value, Word(t[0] % 4, t[1]);
    Halve(t[0], 8);
    Halve(t[0], 4);
    WordSplit(t[0] / 16, t[2]);
    WordSplit(t[0] % 4, t[1]);
    WordSplit(t[3], t[4]);
    WordSplit(t[5], t[6]);
    WordSplit(t[7], t[8]);
    NonArqBytes(h, size);
    assert t[0] == 16 * (t[0] / 16) + 8 * B(Has(t[0], 8)) + 4 * B(Has(t[0], 4)) + t[0] % 4;
  }

  lemma ExpeditedCase(d: Dpdu, t: bytes)
    requires d.kind.ExpeditedDataOnly? && ParseSpecific(d.kind, t).Ok?
    requires d.data == ParseSpecific(d.kind, t).value.data && |d.userData| == ParseSpecific(d.kind, t).value.dataLen
    ensures CheckPayload(d).None? && EncodeSpecific(d) == Ok(t) <==> CanonicalSpecific(d.kind, t)
  {
    ExpeditedForward(t);
  }

  lemma ResetCase(d: Dpdu, t: bytes)
    requires d.kind.ResetWinResync? && ParseSpecific(d.kind, t).Ok? && d.reset == ParseSpecific(d.kind, t).value.reset
    ensures CheckPayload(d).None? && EncodeSpecific(d) == Ok(t) <==> CanonicalSpecific(d.kind, t)
  {
    ResetForward(t);
  }

  lemma ManagementCase(d: Dpdu, t: bytes)
    requires d.kind.Management? && ParseSpecific(d.kind, t).Ok? && BuiltFrom(d, ParseSpecific(d.kind, t).value, t)
    ensures CheckPayload(d).None? && EncodeSpecific(d) == Ok(t) <==> CanonicalSpecific(d.kind, t)
  {
    ManagementForward(t, d.eow);
  }

  lemma NonArqCase(d: Dpdu, t: bytes)
    requires IsNonArq(d.kind) && ParseSpecific(d.kind, t).Ok? && BuiltFrom(d, ParseSpecific(d.kind, t).value, t)
    ensures CheckPayload(d).None? && EncodeSpecific(d) == Ok(t) <==> CanonicalSpecific(d.kind, t)
  {
    NonArqForward(t);
  }

  lemma DataCase(d: Dpdu, t: bytes)
    requires (d.kind.DataAck? || d.kind.DataOnly?) && ParseSpecific(d.kind, t).Ok?
    requires BuiltFrom(d, ParseSpecific(d.kind, t).value, t)
    ensures CheckPayload(d).None? && EncodeSpecific(d) == Ok(t) <==> CanonicalSpecific(d.kind, t)
  {
    hide Word, Has;
    DataForward(t);
    assert if d.kind.DataAck? then t == t[..3] + ([t[3]] + t[4..]) else t == t[..3];
  }

  lemma AckCase(d: Dpdu, t: bytes)
    requires (d.kind.AckOnly? || d.kind.ExpeditedAckOnly? || d.kind.Warning?) && ParseSpecific(d.kind, t).Ok?
    requires BuiltFrom(d, ParseSpecific(d.kind, t).value, t)
    ensures CheckPayload(d).None? && EncodeSpecific(d) == Ok(t) <==> CanonicalSpecific(d.kind, t)
  {
    hide Word, Has;
    if d.kind.Warning? {
      assert Hex(t[0] / 16, t[0] % 16) == t[0];
      assert t == [t[0]];
    } else {
      assert t == [t[0]] + t[1..];
    }
  }

  /** Re-encoding a parsed header gives the same bytes exactly when its spare bits are clear. */
  lemma SpecificForward(d: Dpdu, t: bytes)
    requires ParseSpecific(d.kind, t).Ok? && BuiltFrom(d, ParseSpecific(d.kind, t).value, t)
    ensures CheckPayload(d).None? && EncodeSpecific(d) == Ok(t) <==> CanonicalSpecific(d.kind, t)
  {
    hide ParseSpecific, EncodeSpecific, CheckPayload, CanonicalSpecific;
    match d.kind
    case DataAck | DataOnly => DataCase(d, t);
    case ExpeditedDataOnly => ExpeditedCase(d, t);
    case AckOnly | ExpeditedAckOnly | Warning => AckCase(d, t);
    case ResetWinResync => ResetCase(d, t);
    case Management => ManagementCase(d, t);
    case NonArq | ExpeditedNonArq => NonArqCase(d, t);
  }

  // ---- Frames -------------------------------------------------------------

  /** Both checks of a decoded D_PDU are good. */
  predicate Intact(d: Dpdu) {
    d.headerCrcOk == Some(true) && (d.dataCrcOk.Some? ==> d.dataCrcOk == Some(true))
  }

  function SpecificPart(raw: bytes): bytes
    requires Decode(raw).Ok?
  {
    raw[6 + raw[5] / 32..raw[5] % 32 + raw[5] / 32]
  }

  lemma TypeOfForward(code: nat)
    requires TypeOf(code).Some?
    ensures TypeCode(TypeOf(code).value) == code
  {
  }

  /** What decoding establishes about a frame with these sizes. */
  predicate Explains(d: Dpdu, raw: bytes, adr: nat, hdr: nat) {
    && 1 <= adr <= 7 && 6 <= hdr <= 31 && 2 + hdr + adr <= |raw|
    && TypeOf(raw[2] / 16) == Some(d.kind)
    && d.eow == Word(raw[2] % 16, raw[3]) && d.eot == raw[4] && d.address == DecodeAddress(raw[6..6 + adr])
    && d.headerCrcOk == Some(Validate(Crc16, raw[2..hdr + adr], FromLittleEndian(raw[hdr + adr..hdr + adr + 2])))
  }

  /** What decoding establishes about the payload of a frame whose header and check end at `at`. */
  predicate Carries(d: Dpdu, raw: bytes, at: nat) {
    if HasDataCrc(d.kind) then
      && at + |d.userData| + 4 == |raw| && d.userData == raw[at..at + |d.userData|]
      && d.dataCrcOk == Some(Validate(Crc32, d.userData, FromLittleEndian(raw[at + |d.userData|..])))
    else |raw| == at
  }

  lemma DecodedBody(raw: bytes, kind: DpduType, s: Specific, adr: nat, hdr: nat)
    requires 1 <= adr <= 7 && 6 <= hdr <= 31 && 2 + hdr + adr <= |raw| && TypeOf(raw[2] / 16) == Some(kind)
    requires ParseSpecific(kind, raw[6 + adr..hdr + adr]) == Ok(s) && DecodeBody(raw, kind, s, adr, hdr).Ok?
    ensures var d := DecodeBody(raw, kind, s, adr, hdr).value;
      d.kind == kind && BuiltFrom(d, s, raw[6 + adr..hdr + adr]) && Explains(d, raw, adr, hdr)
      && Carries(d, raw, hdr + adr + 2)
  {
    hide ParseSpecific, TypeOf, Word, DecodeAddress, Validate, FromLittleEndian;
    NoUserData(kind, raw[6 + adr..hdr + adr]);
  }

  /** Only headers of types with a check of their own announce user data. */
  lemma NoUserData(kind: DpduType, t: bytes)
    requires ParseSpecific(kind, t).Ok?
    ensures HasDataCrc(kind) || kind.Management? || ParseSpecific(kind, t).value.dataLen == 0
    ensures kind.Management? ==> |t| >= 2
  {
  }

  /** A frame that decodes has passed every check up to its type-specific header. */
  lemma Opened(raw: bytes)
    requires Decode(raw).Ok?
    ensures |raw| >= 8 && raw[..2] == Sync() && 1 <= raw[5] / 32 <= 7 && 6 <= raw[5] % 32
    ensures TypeOf(raw[2] / 16).Some? && 2 + raw[5] % 32 + raw[5] / 32 <= |raw|
  {
    hide ParseSpecific, DecodeBody;
  }

  /** It is then decoded from its sizes, type, and type-specific header. */
  lemma OpenedBody(raw: bytes, kind: DpduType, adr: nat, hdr: nat, t: bytes)
    requires |raw| >= 8 && raw[..2] == Sync() && adr == raw[5] / 32 && hdr == raw[5] % 32
    requires 1 <= adr <= 7 && 6 <= hdr <= 31 && 2 + hdr + adr <= |raw| && t == raw[6 + adr..hdr + adr]
    requires TypeOf(raw[2] / 16) == Some(kind) && Decode(raw).Ok?
    ensures ParseSpecific(kind, t).Ok? && Decode(raw) == DecodeBody(raw, kind, ParseSpecific(kind, t).value, adr, hdr)
  {
    hide ParseSpecific, DecodeBody;
  }

  lemma Decoded(raw: bytes)
    requires Decode(raw).Ok?
    ensures var d, adr, hdr, t := Decode(raw).value, raw[5] / 32, raw[5] % 32, SpecificPart(raw);
      && raw[..2] == Sync() && Explains(d, raw, adr, hdr) && Carries(d, raw, hdr + adr + 2)
      && ParseSpecific(d.kind, t).Ok? && BuiltFrom(d, ParseSpecific(d.kind, t).value, t)
  {
    hide ParseSpecific, DecodeBody;
    Opened(raw);
    var kind := TypeOf(raw[2] / 16).value;
    OpenedBody(raw, kind, raw[5] / 32, raw[5] % 32, SpecificPart(raw));
    DecodedBody(raw, kind, ParseSpecific(kind, SpecificPart(raw)).value, raw[5] / 32, raw[5] % 32);
  }

  /** The header bytes, up to the check, are those of the decoded fields. */
  lemma HeaderForward(raw: bytes, d: Dpdu, adr: nat, hdr: nat)
    requires |raw| >= 8 && adr == raw[5] / 32 && hdr == raw[5] % 32 && Explains(d, raw, adr, hdr)
    ensures Header(d, raw[6 + adr..hdr + adr]) == raw[2..hdr + adr]
  {
    hide TypeCode, Size, DecodeAddress, EncodeAddress, Validate, FromLittleEndian;
    var t := raw[6 + adr..hdr + adr];
    TypeOfForward(raw[2] / 16);
    AddressForward(raw[6..6 + adr]);
    WordSplit(raw[2] % 16, raw[3]);
    CommonForward(raw, d, |t|);
    ThreeParts(raw, 6, 6 + adr, hdr + adr);
  }

  lemma CommonForward(raw: bytes, d: Dpdu, n: nat)
    requires |raw| >= 8 && n <= 25 && raw[5] % 32 == 6 + n && raw[5] / 32 == d.address.size
    requires TypeCode(d.kind) == raw[2] / 16 && d.eow / 256 == raw[2] % 16 && d.eow % 256 == raw[3] && d.eot == raw[4]
    ensures [TypeCode(d.kind) * 16 + d.eow / 256, d.eow % 256, d.eot, d.address.size * 32 + (6 + n)] == raw[2..6]
  {
  }

  lemma ThreeParts(raw: bytes, a: nat, b: nat, c: nat)
    requires 2 <= a <= b <= c <= |raw|
    ensures raw[2..c] == raw[2..a] + raw[a..b] + raw[b..c]
  {
  }

  /** The payload and its check, when that is good, are what the sender would have appended. */
  lemma PayloadForward(raw: bytes, d: Dpdu, at: nat)
    requires at <= |raw| && Carries(d, raw, at) && Intact(d)
    ensures raw[at..] == Payload(d)
  {
    if HasDataCrc(d.kind) {
      var cut := at + |d.userData|;
      CheckForward(Crc32, d.userData, raw[cut..]);
      assert raw[at..] == raw[at..cut] + raw[cut..];
    }
  }

  lemma FourParts(raw: bytes, end: nat)
    requires 2 <= end && end + 2 <= |raw|
    ensures raw == raw[..2] + raw[2..end] + raw[end..end + 2] + raw[end + 2..]
  {
  }

  /** The frame is its header, the check of the header, and its payload with the check of that. */
  lemma FrameForward(raw: bytes)
    requires Decode(raw).Ok? && Intact(Decode(raw).value)
    ensures |SpecificPart(raw)| <= 25
    ensures var d := Decode(raw).value;
      var header := Header(d, SpecificPart(raw));
      raw == Sync() + header + ToWire(Crc16, CrcOf(Crc16, header, 0)) + Payload(d)
  {
    hide Decode, Explains, Carries, Intact, Header, Payload, CrcOf, ParseSpecific, BuiltFrom, TypeOf, ToWire, Sync;
    Opened(raw);
    Decoded(raw);
    FrameFrom(raw, Decode(raw).value, raw[5] / 32, raw[5] % 32);
  }

  lemma FrameFrom(raw: bytes, d: Dpdu, adr: nat, hdr: nat)
    requires |raw| >= 8 && adr == raw[5] / 32 && hdr == raw[5] % 32 && raw[..2] == Sync()
    requires Explains(d, raw, adr, hdr) && Carries(d, raw, hdr + adr + 2) && Intact(d)
    ensures var header := Header(d, raw[6 + adr..hdr + adr]);
      raw == Sync() + header + ToWire(Crc16, CrcOf(Crc16, header, 0)) + Payload(d)
  {
    hide TypeOf;
    HeaderForward(raw, d, adr, hdr);
    CheckForward(Crc16, raw[2..hdr + adr], raw[hdr + adr..hdr + adr + 2]);
    PayloadForward(raw, d, hdr + adr + 2);
    FourParts(raw, hdr + adr);
  }

  /** The type-specific part of an encoded frame is what the header encoder produced. */
  lemma EncodedPart(d: Dpdu)
    requires Encodable(d)
    ensures var raw, t := Wire(d), SpecificBytes(d);
      |raw| >= 8 && raw[5] / 32 + raw[5] % 32 <= |raw| && 6 <= raw[5] % 32
      && raw[6 + raw[5] / 32..raw[5] % 32 + raw[5] / 32] == t
  {
    var raw, t := Wire(d), SpecificBytes(d);
    var c := ToWire(Crc16, CrcOf(Crc16, Header(d, t), 0));
    FrameParts(Common(d, t), EncodeAddress(d.address), t, c, Payload(d), raw);
    CommonBack(d, t);
  }

  lemma EncodeFrom(d: Dpdu, t: bytes)
    requires CheckPayload(d).None? && EncodeSpecific(d) == Ok(t) && |t| <= 25
    requires HasDataCrc(d.kind) || d.kind.Management? || d.userData == []
    ensures Encode(d) == Ok(Sync() + Header(d, t) + ToWire(Crc16, CrcOf(Crc16, Header(d, t), 0)) + Payload(d))
  {
  }

  /**
    * A received frame with good checks, decoded and encoded again, is the same frame exactly when its spare header
    * bits are clear; so no two such frames mean the same D_PDU.
    */
  lemma ReencodedIff(raw: bytes)
    requires Decode(raw).Ok? && Intact(Decode(raw).value)
    ensures ParseSpecific(Decode(raw).value.kind, SpecificPart(raw)).Ok?
    ensures Encode(Decode(raw).value) == Ok(raw) <==> CanonicalSpecific(Decode(raw).value.kind, SpecificPart(raw))
  {
    Decoded(raw);
    FrameForward(raw);
    Reencoded(raw, Decode(raw).value, SpecificPart(raw));
  }

  lemma Reencoded(raw: bytes, d: Dpdu, t: bytes)
    requires |raw| >= 8 && raw[5] / 32 + raw[5] % 32 <= |raw| && 6 <= raw[5] % 32
    requires t == raw[6 + raw[5] / 32..raw[5] % 32 + raw[5] / 32] && |t| <= 25
    requires ParseSpecific(d.kind, t).Ok? && BuiltFrom(d, ParseSpecific(d.kind, t).value, t)
    requires raw == Sync() + Header(d, t) + ToWire(Crc16, CrcOf(Crc16, Header(d, t), 0)) + Payload(d)
    ensures Encode(d) == Ok(raw) <==> CanonicalSpecific(d.kind, t)
  {
    hide ParseSpecific;
    SpecificForward(d, t);
    EncodableIff(d);
    if Encode(d) == Ok(raw) {
      EncodedPart(d);
      assert Wire(d) == raw;
      assert SpecificBytes(d) == t;
    }
    if CanonicalSpecific(d.kind, t) {
      NoStrayData(d, t);
      EncodeFrom(d, t);
    }
  }

  lemma NoStrayData(d: Dpdu, t: bytes)
    requires ParseSpecific(d.kind, t).Ok? && BuiltFrom(d, ParseSpecific(d.kind, t).value, t)
    ensures HasDataCrc(d.kind) || d.kind.Management? || d.userData == []
  {
  }
}

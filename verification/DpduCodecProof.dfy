/** Decoding is the inverse of encoding on everything that travels on the wire. */
module DpduCodecProof {
  import opened Crc
  import opened CrcDetect
  import opened Dpdu
  import opened DpduCodec
  import opened Prelude

  // ---- Addresses ----------------------------------------------------------

  lemma {:induction false} NibblesBack(v: nat, n: nat)
    requires v < Pow16(n)
    ensures FromNibbles(Nibbles(v, n)) == v
    decreases n
  {
    if n > 0 {
      NibblesBack(v / 16, n - 1);
      assert Nibbles(v, n)[..n - 1] == Nibbles(v / 16, n - 1);
    }
  }

  lemma {:induction false} UnpairBack(s: seq<nibble>)
    requires |s| % 2 == 0
    ensures Unpair(Pair(s)) == s
    decreases |s|
  {
    if s != [] {
      UnpairBack(s[2..]);
      HexDigits(s[0], s[1]);
      assert Pair(s)[1..] == Pair(s[2..]);
      assert s == [s[0], s[1]] + s[2..];
    }
  }

  lemma HexDigits(hi: nibble, lo: nibble)
    ensures Hex(hi, lo) / 16 == hi && Hex(hi, lo) % 16 == lo
  {
  }

  /** An address pair of any size from 1 to 7 nibbles survives its packing into bytes. */
  lemma AddressRoundTrip(a: Address)
    ensures DecodeAddress(EncodeAddress(a)) == a
  {
    var d, s := Nibbles(a.destination, a.size), Nibbles(a.source, a.size);
    UnpairBack(d + s);
    assert (d + s)[..a.size] == d && (d + s)[a.size..2 * a.size] == s;
    NibblesBack(a.destination, a.size);
    NibblesBack(a.source, a.size);
  }

  // ---- Type-specific headers ----------------------------------------------

  /** A flag byte holds six flags and the two high bits of a size. */
  lemma SixFlags(b7: bool, b6: bool, b5: bool, b4: bool, b3: bool, b2: bool, low: nat)
    requires low < 4
    ensures var f := 128 * B(b7) + 64 * B(b6) + 32 * B(b5) + 16 * B(b4) + 8 * B(b3) + 4 * B(b2) + low;
      f < 256 && Has(f, 128) == b7 && Has(f, 64) == b6 && Has(f, 32) == b5 && Has(f, 16) == b4
      && Has(f, 8) == b3 && Has(f, 4) == b2 && f % 4 == low
  {
    hide Has;
    var f := 128 * B(b7) + 64 * B(b6) + 32 * B(b5) + 16 * B(b4) + 8 * B(b3) + 4 * B(b2) + low;
    FlagAt(f, 128, 0, B(b7), f - 128 * B(b7));
    FlagAt(f, 64, B(b7), B(b6), f - 128 * B(b7) - 64 * B(b6));
    FlagAt(f, 32, 2 * B(b7) + B(b6), B(b5), 16 * B(b4) + 8 * B(b3) + 4 * B(b2) + low);
    FlagAt(f, 16, 4 * B(b7) + 2 * B(b6) + B(b5), B(b4), 8 * B(b3) + 4 * B(b2) + low);
    FlagAt(f, 8, 8 * B(b7) + 4 * B(b6) + 2 * B(b5) + B(b4), B(b3), 4 * B(b2) + low);
    FlagAt(f, 4, 16 * B(b7) + 8 * B(b6) + 4 * B(b5) + 2 * B(b4) + B(b3), B(b2), low);
  }

  lemma FlagAt(f: nat, m: nat, high: nat, bit: nat, low: nat)
    requires m in [4, 8, 16, 32, 64, 128] && bit <= 1 && low < m && f == 2 * m * high + m * bit + low && f < 256
    ensures Has(f, m) == (bit == 1)
  {
    assert f / m == 2 * high + bit;
  }

  /** Exactly the D_PDUs that can be sent. */
  predicate Encodable(d: Dpdu) {
    match d.kind
    case DataOnly => d.data.Some? && d.data.value.dataSize == |d.userData|
    case DataAck => d.data.Some? && d.data.value.dataSize == |d.userData| && d.ack.Some?
    case ExpeditedDataOnly => d.data.Some? && d.data.value.dataSize == |d.userData| && d.data.value.cpduId <= 15
    case AckOnly | ExpeditedAckOnly => d.ack.Some? && d.userData == []
    case ResetWinResync => d.reset.Some? && d.userData == []
    case Management => d.management.Some? && |d.userData| <= 23
    case NonArq | ExpeditedNonArq => d.nonArq.Some? && d.userData != []
    case Warning => d.warning.Some? && d.userData == []
  }

  /** The type-specific header of a D_PDU that can be sent. */
  function SpecificBytes(d: Dpdu): (t: bytes)
    requires Encodable(d)
    ensures EncodeSpecific(d) == Ok(t) && |t| <= 25 && CheckPayload(d).None?
    ensures HasDataCrc(d.kind) || d.kind.Management? || d.userData == []
  {
    hide EncodeSpecific, CheckPayload, Encodable;
    CheckedIff(d);
    SpecificLength(d);
    EncodeSpecific(d).value
  }

  /** Encoding succeeds for exactly these. */
  lemma EncodableIff(d: Dpdu)
    ensures Encode(d).Ok? <==> Encodable(d)
  {
    hide *;
    CheckedIff(d);
    EncodeIff(d);
    if EncodeSpecific(d).Ok? { SpecificLength(d); }
  }

  /** The three conditions of encoding. */
  lemma EncodeIff(d: Dpdu)
    ensures Encode(d).Ok? <==>
      && CheckPayload(d).None? && EncodeSpecific(d).Ok? && |EncodeSpecific(d).value| <= 25
      && (HasDataCrc(d.kind) || d.kind.Management? || d.userData == [])
  {
    hide EncodeSpecific, CheckPayload;
  }

  /** The length of a type-specific header. */
  lemma SpecificLength(d: Dpdu)
    requires EncodeSpecific(d).Ok?
    ensures var n := |EncodeSpecific(d).value|;
      if d.kind.Management? then n == 2 + |d.userData| else n <= 25
  {
  }

  lemma CheckedIff(d: Dpdu)
    ensures Encodable(d) <==>
      && CheckPayload(d).None? && EncodeSpecific(d).Ok? && (d.kind.Management? ==> |d.userData| <= 23)
      && (HasDataCrc(d.kind) || d.kind.Management? || d.userData == [])
  {
    hide DataWire, ExpeditedWire, AckWire, ResetWire, ManagementWire, NonArqWire, WarningWire;
  }

  /** The bytes of a D_PDU that can be sent. */
  function Wire(d: Dpdu): (w: bytes)
    requires Encodable(d)
    ensures Encode(d) == Ok(w)
  {
    var t := SpecificBytes(d);
    Encode(d).value
  }

  /** What the receiver learns from the header of each type. */
  function SpecificOf(d: Dpdu): Specific
    requires Encodable(d)
  {
    match d.kind
    case DataAck => Specific(Some(d.data.value.(cpduId := 0)), d.ack, None, None, None, None, |d.userData|)
    case DataOnly => Specific(Some(d.data.value.(cpduId := 0)), None, None, None, None, None, |d.userData|)
    case ExpeditedDataOnly =>
      Specific(Some(d.data.value.(inOrder := false, dropPdu := false, txUwe := false, txLwe := false)),
               None, None, None, None, None, |d.userData|)
    case AckOnly | ExpeditedAckOnly => Specific(None, d.ack, None, None, None, None, 0)
    case ResetWinResync => Specific(None, None, d.reset, None, None, None, 0)
    case Management =>
      Specific(None, None, None, Some(d.management.value.(messageField := 0)), None, None, |d.userData|)
    case NonArq | ExpeditedNonArq => Specific(None, None, None, None, d.nonArq, None, |d.userData|)
    case Warning => Specific(None, None, None, None, None, d.warning, 0)
  }

  lemma WordParts(v: u16)
    ensures Word(v / 256, v % 256) == v
  {
  }

  lemma DataBack(h: DataHeader, rest: bytes)
    ensures ParseData(DataWire(h) + rest) == h.(cpduId := 0)
  {
    SixFlags(h.pduStart, h.pduEnd, h.inOrder, h.dropPdu, h.txUwe, h.txLwe, h.dataSize / 256);
    WordParts(h.dataSize);
    var t := DataWire(h) + rest;
    assert t[0] == DataFlags(h) && t[1] == h.dataSize % 256 && t[2] == h.seqNo;
  }

  lemma ExpeditedBack(d: Dpdu)
    requires d.kind.ExpeditedDataOnly? && Encodable(d)
    ensures ParseSpecific(d.kind, ExpeditedWire(d.data.value)) == Ok(SpecificOf(d))
  {
    var h := d.data.value;
    SixFlags(h.pduStart, h.pduEnd, false, false, false, false, h.dataSize / 256);
    WordParts(h.dataSize);
  }

  /** The first byte of a non-ARQ header: the high id bits, two flags and the high size bits. */
  lemma NonArqFirst(c: nibble, inOrder: bool, group: bool, low: nat)
    requires low < 4
    ensures var f := 16 * c + 8 * B(inOrder) + 4 * B(group) + low;
      f < 256 && f / 16 == c && f % 4 == low && Has(f, 8) == inOrder && Has(f, 4) == group
  {
    var f := 16 * c + 8 * B(inOrder) + 4 * B(group) + low;
    FlagAt(f, 8, c, B(inOrder), 4 * B(group) + low);
    FlagAt(f, 4, 2 * c + B(inOrder), B(group), low);
  }

  lemma NonArqBack(h: NonArqHeader, size: u10)
    ensures ParseNonArq(NonArqWire(h, size)) == Ok(Specific(None, None, None, None, Some(h), None, size))
  {
    var t := NonArqWire(h, size);
    NonArqFirst(h.cpduId / 256, h.inOrder, h.groupAddress, size / 256);
    NonArqBytes(h, size);
    WordParts(h.cpduId);
    WordParts(size);
    WordParts(h.cpduSize);
    WordParts(h.firstBytePosition);
    WordParts(h.cpduReceptionWindow);
  }

  lemma NonArqBytes(h: NonArqHeader, size: u10)
    ensures var t := NonArqWire(h, size);
      && |t| == 9 && t[0] == 16 * (h.cpduId / 256) + 8 * B(h.inOrder) + 4 * B(h.groupAddress) + size / 256
      && t[1] == size % 256 && t[2] == h.cpduId % 256
      && t[3] == h.cpduSize / 256 && t[4] == h.cpduSize % 256
      && t[5] == h.firstBytePosition / 256 && t[6] == h.firstBytePosition % 256
      && t[7] == h.cpduReceptionWindow / 256 && t[8] == h.cpduReceptionWindow % 256
  {
  }

  lemma ManagementBack(h: ManagementHeader, payload: bytes)
    ensures ParseSpecific(Management, ManagementWire(h, payload))
         == Ok(Specific(None, None, None, Some(h.(messageField := 0)), None, None, |payload|))
    ensures ManagementWire(h, payload)[2..] == payload
  {
    hide ParseNonArq, ParseAck, Word, Has;
    ThreeFlags(payload != [], h.validMessage, h.messageAck);
    var t := ManagementWire(h, payload);
    assert t[0] == 4 * B(payload != []) + 2 * B(h.validMessage) + B(h.messageAck) && t[1] == h.frameId;
  }

  lemma ThreeFlags(b2: bool, b1: bool, b0: bool)
    ensures var f := 4 * B(b2) + 2 * B(b1) + B(b0);
      f < 8 && Has(f, 4) == b2 && Has(f, 2) == b1 && Has(f, 1) == b0
  {
  }

  lemma ResetBack(h: ResetHeader)
    ensures ParseSpecific(ResetWinResync, ResetWire(h)) == Ok(Specific(None, None, Some(h), None, None, None, 0))
  {
    SixFlags(h.fullResetCmd, h.resetTxWinReq, h.resetRxWinCmd, h.resetAck, false, false, 0);
  }

  lemma DataCaseBack(d: Dpdu)
    requires Encodable(d) && (d.kind.DataAck? || d.kind.DataOnly?)
    ensures ParseSpecific(d.kind, SpecificBytes(d)) == Ok(SpecificOf(d))
  {
    hide Has, Word, DataFlags;
    var t := SpecificBytes(d);
    if d.kind.DataAck? {
      DataBack(d.data.value, AckWire(d.ack.value));
      assert t[4..] == d.ack.value.selAcks;
    } else {
      DataBack(d.data.value, []);
      assert t + [] == t;
    }
  }

  lemma AckCaseBack(d: Dpdu)
    requires Encodable(d) && (d.kind.AckOnly? || d.kind.ExpeditedAckOnly? || d.kind.Warning?)
    ensures ParseSpecific(d.kind, SpecificBytes(d)) == Ok(SpecificOf(d))
  {
    hide Has, Word;
    var t := SpecificBytes(d);
    if d.kind.Warning? {
      HexDigits(d.warning.value.receivedDpduType, d.warning.value.reason);
    } else {
      assert t[1..] == d.ack.value.selAcks;
    }
  }

  lemma OtherCaseBack(d: Dpdu)
    requires Encodable(d)
    requires d.kind.ResetWinResync? || d.kind.Management? || IsNonArq(d.kind) || d.kind.ExpeditedDataOnly?
    ensures ParseSpecific(d.kind, SpecificBytes(d)) == Ok(SpecificOf(d))
  {
    hide Has, Word, ResetWire, ManagementWire, NonArqWire, ExpeditedWire, ParseNonArq;
    if d.kind.ResetWinResync? {
      ResetBack(d.reset.value);
    } else if d.kind.Management? {
      ManagementBack(d.management.value, d.userData);
    } else if d.kind.ExpeditedDataOnly? {
      ExpeditedBack(d);
    } else {
      NonArqBack(d.nonArq.value, |d.userData|);
    }
  }

  /** The type-specific header of every D_PDU that can be sent is read back. */
  lemma SpecificBack(d: Dpdu)
    requires Encodable(d)
    ensures ParseSpecific(d.kind, SpecificBytes(d)) == Ok(SpecificOf(d))
  {
    hide *;
    match d.kind
    case DataAck | DataOnly => DataCaseBack(d);
    case AckOnly | ExpeditedAckOnly | Warning => AckCaseBack(d);
    case ResetWinResync | Management | ExpeditedDataOnly => OtherCaseBack(d);
    case NonArq | ExpeditedNonArq =>
      NonArqKinds(d.kind);
      OtherCaseBack(d);
  }

  lemma NonArqKinds(k: DpduType)
    ensures IsNonArq(k) <==> k.NonArq? || k.ExpeditedNonArq?
  {
  }


  // ---- Frames -------------------------------------------------------------

  /** The fields that travel on the wire, with the check results of an undamaged frame. */
  function Carried(d: Dpdu): Dpdu
    requires Encodable(d)
  {
    var s := SpecificOf(d);
    var m := if d.kind.Management? then Some(d.management.value.(messageField := d.eow)) else None;
    var full := Stamped(d);
    Dpdu(d.kind, d.eow, d.eot, d.address, s.data, s.ack, s.reset, m, s.nonArq, s.warning, d.userData,
         full.headerCrc, full.dataCrc, full.headerCrcOk, full.dataCrcOk)
  }

  lemma TypeCodeBack(t: DpduType)
    ensures TypeOf(TypeCode(t)) == Some(t)
  {
  }

  /** The pieces of a frame sit where the decoder looks for them. */
  lemma FrameParts(a: bytes, w: bytes, t: bytes, c: bytes, p: bytes, raw: bytes)
    requires |a| == 4 && |c| == 2
    requires raw == Sync() + (a + w + t) + c + p
    ensures |raw| == 8 + |w| + |t| + |p|
    ensures raw[..2] == Sync() && raw[2] == a[0] && raw[3] == a[1] && raw[4] == a[2] && raw[5] == a[3]
    ensures raw[6..6 + |w|] == w && raw[6 + |w|..6 + |w| + |t|] == t
    ensures raw[2..6 + |w| + |t|] == a + w + t
    ensures raw[6 + |w| + |t|..8 + |w| + |t|] == c && raw[8 + |w| + |t|..] == p
  {
  }

  function Common(d: Dpdu, specific: bytes): bytes
    requires |specific| <= 25
  {
    [TypeCode(d.kind) * 16 + d.eow / 256, d.eow % 256, d.eot, d.address.size * 32 + (6 + |specific|)]
  }

  lemma CommonBack(d: Dpdu, specific: bytes)
    requires |specific| <= 25
    ensures var a := Common(d, specific);
      a[0] / 16 == TypeCode(d.kind) && Word(a[0] % 16, a[1]) == d.eow && a[2] == d.eot
      && a[3] / 32 == d.address.size && a[3] % 32 == 6 + |specific|
  {
    WordParts(d.eow);
  }

  /** A stored check that was computed over the same bytes validates. */
  lemma CheckBack(k: Kind, data: bytes)
    ensures FromLittleEndian(ToWire(k, CrcOf(k, data, 0))) == CrcOf(k, data, 0)
    ensures Validate(k, data, CrcOf(k, data, 0))
  {
    CrcFits(k, 0, MessageBits(data));
    WireRoundTrip(k, CrcOf(k, data, 0));
    SmallMod(CrcOf(k, data, 0), Size(k));
  }

  /** Decoding an encoded D_PDU gives back every field that travels on the wire, with both checks good. */
  lemma RoundTrip(d: Dpdu)
    requires Encodable(d)
    ensures Decode(Wire(d)) == Ok(Carried(d))
  {
    hide ParseSpecific, DecodeBody, EncodeSpecific, EncodeAddress, SpecificOf, Carried, CrcOf, Word;
    var t := SpecificBytes(d);
    var a, w, header := Common(d, t), EncodeAddress(d.address), Header(d, t);
    var c, p := ToWire(Crc16, CrcOf(Crc16, header, 0)), Payload(d);
    var raw := Wire(d);
    FrameParts(a, w, t, c, p, raw);
    CommonBack(d, t);
    TypeCodeBack(d.kind);
    SpecificBack(d);
    BodyBack(d, t, raw);
  }

  /** The header fields of a received frame, and where its payload starts. */
  predicate Holds(d: Dpdu, t: bytes, raw: bytes)
    requires |t| <= 25
  {
    var w, header := EncodeAddress(d.address), Header(d, t);
    && |raw| == 8 + |w| + |t| + |Payload(d)|
    && raw[6..6 + |w|] == w && raw[6 + |w|..6 + |w| + |t|] == t
    && raw[2..6 + |w| + |t|] == header
    && raw[6 + |w| + |t|..8 + |w| + |t|] == ToWire(Crc16, CrcOf(Crc16, header, 0))
    && raw[8 + |w| + |t|..] == Payload(d)
  }

  lemma HeaderBack(d: Dpdu, t: bytes, raw: bytes)
    requires Encodable(d) && t == SpecificBytes(d) && Holds(d, t, raw)
    ensures var h, s := HeaderOnly(raw, d.kind, SpecificOf(d), d.address.size, 6 + |t|), SpecificOf(d);
      h == Carried(d).(userData := [], management := s.management, dataCrc := None, dataCrcOk := None)
  {
    hide DecodeAddress, EncodeAddress, Word, FromLittleEndian, ToWire, Validate, ParseSpecific, Header, CrcOf;
    EowBack(d, t, raw);
    AddressRoundTrip(d.address);
    CheckBack(Crc16, Header(d, t));
  }

  lemma EowBack(d: Dpdu, t: bytes, raw: bytes)
    requires |t| <= 25 && |raw| >= 6 + d.address.size + |t| && raw[2..6 + d.address.size + |t|] == Header(d, t)
    ensures Word(raw[2] % 16, raw[3]) == d.eow && raw[4] == d.eot
  {
    var part := raw[2..6 + d.address.size + |t|];
    assert raw[2] == part[0] && raw[3] == part[1] && raw[4] == part[2];
    CommonBack(d, t);
  }

  lemma PayloadOpens(raw: bytes, kind: DpduType, s: Specific, adr: nat, hdr: nat, payload: bytes)
    requires 1 <= adr <= 7 && 6 <= hdr <= 31 && 2 + hdr + adr <= |raw| && HasDataCrc(kind)
    requires ParseSpecific(kind, raw[6 + adr..hdr + adr]) == Ok(s) && raw[2 + hdr + adr..] == payload
    requires |payload| == s.dataLen + 4 && s.dataLen <= 1023
    ensures var n := s.dataLen;
      DecodeBody(raw, kind, s, adr, hdr)
      == Ok(HeaderOnly(raw, kind, s, adr, hdr).(userData := payload[..n],
              dataCrc := Some(FromLittleEndian(payload[n..])),
              dataCrcOk := Some(Validate(Crc32, payload[..n], FromLittleEndian(payload[n..])))))
  {
    hide HeaderOnly, ParseSpecific, Validate, FromLittleEndian;
    Slices(raw, 2 + hdr + adr, s.dataLen, payload);
  }

  lemma Slices(raw: bytes, at: nat, n: nat, payload: bytes)
    requires at <= |raw| && raw[at..] == payload && n <= |payload|
    ensures at + n <= |raw| && |raw| == at + |payload|
    ensures raw[at..at + n] == payload[..n] && raw[at + n..] == payload[n..]
  {
  }

  lemma DataBody(d: Dpdu, t: bytes, raw: bytes, s: Specific)
    requires |t| <= 25 && Holds(d, t, raw) && HasDataCrc(d.kind)
    requires ParseSpecific(d.kind, t) == Ok(s) && s.dataLen == |d.userData|
    ensures var h, crc := HeaderOnly(raw, d.kind, s, d.address.size, 6 + |t|), CrcOf(Crc32, d.userData, 0);
      DecodeBody(raw, d.kind, s, d.address.size, 6 + |t|)
      == Ok(h.(userData := d.userData, dataCrc := Some(crc), dataCrcOk := Some(true)))
  {
    hide DecodeBody, HeaderOnly, ParseSpecific;
    PayloadOpens(raw, d.kind, s, d.address.size, 6 + |t|, Payload(d));
    PayloadCut(d);
    CheckBack(Crc32, d.userData);
  }

  lemma PayloadCut(d: Dpdu)
    requires HasDataCrc(d.kind)
    ensures var n := |d.userData|;
      Payload(d)[..n] == d.userData && Payload(d)[n..] == ToWire(Crc32, CrcOf(Crc32, d.userData, 0))
  {
  }

  lemma ManagementOpens(raw: bytes, s: Specific, adr: nat, hdr: nat, m: ManagementHeader)
    requires 1 <= adr <= 7 && 8 <= hdr <= 31 && 2 + hdr + adr == |raw|
    requires ParseSpecific(Management, raw[6 + adr..hdr + adr]) == Ok(s) && s.management == Some(m)
    ensures var h := HeaderOnly(raw, Management, s, adr, hdr);
      DecodeBody(raw, Management, s, adr, hdr)
      == Ok(h.(userData := raw[6 + adr..hdr + adr][2..], management := Some(m.(messageField := h.eow))))
  {
    hide ParseSpecific, HeaderOnly;
  }

  lemma ManagementBody(d: Dpdu, t: bytes, raw: bytes, s: Specific, m: ManagementHeader)
    requires 2 <= |t| <= 25 && d.kind.Management? && Holds(d, t, raw) && t[2..] == d.userData
    requires ParseSpecific(d.kind, t) == Ok(s) && s.management == Some(m)
    ensures var h := HeaderOnly(raw, d.kind, s, d.address.size, 6 + |t|);
      DecodeBody(raw, d.kind, s, d.address.size, 6 + |t|)
      == Ok(h.(userData := d.userData, management := Some(m.(messageField := d.eow))))
  {
    hide DecodeBody, ParseSpecific, Word;
    EowBack(d, t, raw);
    ManagementOpens(raw, s, d.address.size, 6 + |t|, m);
  }


  lemma ManagementBytes(d: Dpdu, t: bytes)
    requires Encodable(d) && d.kind.Management? && t == SpecificBytes(d)
    ensures d.management.Some? && |t| >= 2 && t[2..] == d.userData
    ensures SpecificOf(d).management == Some(d.management.value.(messageField := 0))
  {
    ManagementBack(d.management.value, d.userData);
  }

  lemma CarriedIs(d: Dpdu)
    requires Encodable(d)
    ensures var crc := CrcOf(Crc32, d.userData, 0);
      HasDataCrc(d.kind) ==>
        && Carried(d).userData == d.userData && Carried(d).dataCrc == Some(crc) && Carried(d).dataCrcOk == Some(true)
        && Carried(d).management == SpecificOf(d).management && SpecificOf(d).dataLen == |d.userData|
    ensures !HasDataCrc(d.kind) ==> Carried(d).dataCrc == None && Carried(d).dataCrcOk == None
  {
  }

  lemma BodyBack(d: Dpdu, t: bytes, raw: bytes)
    requires Encodable(d) && t == SpecificBytes(d) && Holds(d, t, raw)
    requires ParseSpecific(d.kind, t) == Ok(SpecificOf(d))
    ensures DecodeBody(raw, d.kind, SpecificOf(d), d.address.size, 6 + |t|) == Ok(Carried(d))
  {
    HeaderBack(d, t, raw);
    CarriedIs(d);
    if HasDataCrc(d.kind) {
      DataBody(d, t, raw, SpecificOf(d));
    } else if d.kind.Management? {
      ManagementBytes(d, t);
      ManagementBody(d, t, raw, SpecificOf(d), d.management.value.(messageField := 0));
    }
  }
}

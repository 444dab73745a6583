/** Selective-repeat frames on the wire: what the engine is given back, and how damage to the data is noticed. */
module ArqWire {
  import Arq = ArqTypes
  import opened Crc
  import opened CrcDetect
  import opened Dpdu
  import opened DpduCodec
  import opened DpduCodecProof
  import opened Prelude

  /** The fields of a frame around its header. */
  datatype Envelope = Envelope(eow: u12, eot: byte, address: Address)

  predicate Sendable(f: Arq.DataFrame) {
    0 <= f.seqNo < 256 && |f.chunk| <= 1023
  }

  /** The DATA_ONLY D_PDU of a segment. */
  function DataDpdu(f: Arq.DataFrame, e: Envelope): Dpdu
    requires Sendable(f)
  {
    var h := DataHeader(f.pduStart, f.pduEnd, f.inOrder, f.dropPdu, f.txUwe, f.txLwe, |f.chunk|, f.seqNo, 0);
    Dpdu(DataOnly, e.eow, e.eot, e.address, Some(h), None, None, None, None, None, f.chunk, None, None, None, None)
  }

  /** The ACK_ONLY D_PDU of an acknowledgement. */
  function AckDpdu(f: Arq.AckFrame, e: Envelope): Dpdu
    requires 0 <= f.rxLwe < 256 && |f.selAcks| <= 16
  {
    Dpdu(AckOnly, e.eow, e.eot, e.address, None, Some(AckHeader(f.rxLwe, f.selAcks)), None, None, None, None, [],
         None, None, None, None)
  }

  /** What the engine takes out of a received D_PDU. */
  function ReadData(d: Dpdu): Option<Arq.DataFrame> {
    if d.kind.DataOnly? && d.data.Some? then
      var h := d.data.value;
      Some(Arq.DataFrame(h.seqNo, d.userData, h.pduStart, h.pduEnd, h.inOrder, h.dropPdu, h.txUwe, h.txLwe))
    else None
  }

  function ReadAck(d: Dpdu): Option<Arq.AckFrame> {
    if d.kind.AckOnly? && d.ack.Some? then Some(Arq.AckFrame(d.ack.value.rxLwe, d.ack.value.selAcks)) else None
  }

  /** A segment sent is the segment received, and its data check is good. */
  lemma DataSurvives(f: Arq.DataFrame, e: Envelope)
    requires Sendable(f)
    ensures Encodable(DataDpdu(f, e))
    ensures var r := Decode(Wire(DataDpdu(f, e)));
      r.Ok? && ReadData(r.value) == Some(f) && r.value.dataCrcOk == Some(true) && r.value.address == e.address
  {
    RoundTrip(DataDpdu(f, e));
  }

  /** An acknowledgement sent is the acknowledgement received. */
  lemma AckSurvives(f: Arq.AckFrame, e: Envelope)
    requires 0 <= f.rxLwe < 256 && |f.selAcks| <= 16
    ensures Encodable(AckDpdu(f, e))
    ensures var r := Decode(Wire(AckDpdu(f, e)));
      r.Ok? && ReadAck(r.value) == Some(f) && r.value.headerCrcOk == Some(true)
  {
    RoundTrip(AckDpdu(f, e));
  }

  // ---- Damage to the data -------------------------------------------------

  /** A frame whose user data and check have been replaced by other bytes of the same length. */
  function Damaged(d: Dpdu, payload: bytes): bytes
    requires Encodable(d)
  {
    var header := Header(d, SpecificBytes(d));
    Sync() + header + ToWire(Crc16, CrcOf(Crc16, header, 0)) + payload
  }

  /**
    * Damage to the data or their check within 32 consecutive bits leaves the frame decodable with a good header and the
    * same header fields, and marks the data as bad, so the receiver of a segment can tell.
    */
  lemma DamageMarked(d: Dpdu, payload: bytes, from: nat)
    requires Encodable(d) && HasDataCrc(d.kind) && |payload| == |Payload(d)| && payload != Payload(d)
    requires InBurst(Difference(Payload(d), payload), from, 32)
    ensures var r := Decode(Damaged(d, payload));
      && r.Ok? && r.value.headerCrcOk == Some(true) && r.value.dataCrcOk == Some(false)
      && r.value.data == Carried(d).data && r.value.ack == Carried(d).ack && r.value.nonArq == Carried(d).nonArq
      && r.value.address == d.address
  {
    hide ParseSpecific, Header, EncodeSpecific;
    var t, n := SpecificBytes(d), |d.userData|;
    var raw := Damaged(d, payload);
    DamagedParts(d, payload);
    assert payload == payload[..n] + payload[n..];
    BurstDetected(Crc32, d.userData, payload[..n], payload[n..], from);
    SpecificBack(d);
    CarriedIs(d);
    DamagedBody(d, payload, raw, t, SpecificOf(d));
    DamagedHeader(d, raw, t);
    DamagedDecode(d, raw, t, SpecificOf(d));
  }

  /** The header of the damaged frame is where it was, and so is the payload. */
  lemma DamagedParts(d: Dpdu, payload: bytes)
    requires Encodable(d)
    ensures HeaderStands(d, Damaged(d, payload), SpecificBytes(d))
    ensures var raw, at := Damaged(d, payload), 8 + |SpecificBytes(d)| + d.address.size;
      |raw| == at + |payload| && raw[at..] == payload
  {
    var t := SpecificBytes(d);
    var c := ToWire(Crc16, CrcOf(Crc16, Header(d, t), 0));
    FrameParts(Common(d, t), EncodeAddress(d.address), t, c, payload, Damaged(d, payload));
    CommonBack(d, t);
    TypeCodeBack(d.kind);
  }

  predicate HeaderStands(d: Dpdu, raw: bytes, t: bytes)
    requires |t| <= 25
  {
    var a, hdr := d.address.size, 6 + |t|;
    && |raw| >= 2 + hdr + a && raw[..2] == Sync() && TypeOf(raw[2] / 16) == Some(d.kind)
    && raw[5] / 32 == a && raw[5] % 32 == hdr
    && raw[6..6 + a] == EncodeAddress(d.address) && raw[6 + a..hdr + a] == t && raw[2..hdr + a] == Header(d, t)
    && raw[hdr + a..hdr + a + 2] == ToWire(Crc16, CrcOf(Crc16, Header(d, t), 0))
  }

  lemma DamagedHeader(d: Dpdu, raw: bytes, t: bytes)
    requires Encodable(d) && t == SpecificBytes(d) && HeaderStands(d, raw, t)
    ensures var h := HeaderOnly(raw, d.kind, SpecificOf(d), d.address.size, 6 + |t|);
      && h.headerCrcOk == Some(true) && h.address == d.address
      && h.data == SpecificOf(d).data && h.ack == SpecificOf(d).ack && h.nonArq == SpecificOf(d).nonArq
  {
    hide EncodeSpecific;
    AddressRoundTrip(d.address);
    CheckBack(Crc16, Header(d, t));
  }

  lemma DamagedDecode(d: Dpdu, raw: bytes, t: bytes, s: Specific)
    requires |t| <= 25 && HeaderStands(d, raw, t) && ParseSpecific(d.kind, t) == Ok(s)
    ensures Decode(raw) == DecodeBody(raw, d.kind, s, d.address.size, 6 + |t|)
  {
    hide ParseSpecific;
    HeaderOpens(raw, d.kind, s);
  }

  lemma HeaderOpens(raw: bytes, kind: DpduType, s: Specific)
    requires |raw| >= 8 && raw[..2] == Sync() && TypeOf(raw[2] / 16) == Some(kind)
    requires var adr, hdr := raw[5] / 32, raw[5] % 32;
      adr >= 1 && hdr >= 6 && |raw| >= 2 + hdr + adr && ParseSpecific(kind, raw[6 + adr..hdr + adr]) == Ok(s)
    ensures Decode(raw) == DecodeBody(raw, kind, s, raw[5] / 32, raw[5] % 32)
  {
  }

  lemma DamagedBody(d: Dpdu, payload: bytes, raw: bytes, t: bytes, s: Specific)
    requires |t| <= 25 && HasDataCrc(d.kind) && |payload| == |d.userData| + 4
    requires ParseSpecific(d.kind, t) == Ok(s) && s.dataLen == |d.userData| <= 1023
    requires var a, hdr := d.address.size, 6 + |t|;
      |raw| == 2 + hdr + a + |payload| && raw[6 + a..hdr + a] == t && raw[2 + hdr + a..] == payload
    ensures var a, hdr, n := d.address.size, 6 + |t|, |d.userData|;
      DecodeBody(raw, d.kind, s, a, hdr)
      == Ok(HeaderOnly(raw, d.kind, s, a, hdr).(userData := payload[..n],
              dataCrc := Some(FromLittleEndian(payload[n..])),
              dataCrcOk := Some(Validate(Crc32, payload[..n], FromLittleEndian(payload[n..])))))
  {
    hide ParseSpecific, DecodeBody;
    PayloadOpens(raw, d.kind, s, d.address.size, 6 + |t|, payload);
  }
}

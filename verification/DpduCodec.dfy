/** Encoding and decoding of D_PDU frames. */
module DpduCodec {
  import opened Crc
  import opened CrcDetect
  import opened Dpdu
  import opened Prelude

  function Sync(): bytes { [0x90, 0xEB] }

  /** A boolean as the bit it is stored in. */
  function B(b: bool): (r: byte)
    ensures r <= 1
  {
    if b then 1 else 0
  }

  /** Bit test on a byte; `m` is the mask. */
  predicate Has(x: byte, m: byte)
    requires m > 0
  {
    (x / m) % 2 == 1
  }

  /** Two digits of base 16, and of base 256, as one number. */
  function Hex(hi: nat, lo: nat): nat { hi * 16 + lo }

  function Word(hi: nat, lo: nat): nat { hi * 256 + lo }

  // ---- Addresses ----------------------------------------------------------

  /** The low `n` nibbles of a number, most significant first. */
  function Nibbles(v: nat, n: nat): (s: seq<nibble>)
    ensures |s| == n
  {
    if n == 0 then [] else Nibbles(v / 16, n - 1) + [v % 16]
  }

  function FromNibbles(s: seq<nibble>): (v: nat)
    ensures v < Pow16(|s|)
  {
    if s == [] then 0 else FromNibbles(s[..|s| - 1]) * 16 + s[|s| - 1]
  }

  /** Two nibbles to a byte. */
  function Pair(s: seq<nibble>): (w: bytes)
    requires |s| % 2 == 0
    ensures 2 * |w| == |s|
  {
    if s == [] then [] else [Hex(s[0], s[1])] + Pair(s[2..])
  }

  function Unpair(w: bytes): (s: seq<nibble>)
    ensures |s| == 2 * |w|
  {
    if w == [] then [] else [w[0] / 16, w[0] % 16] + Unpair(w[1..])
  }

  function EncodeAddress(a: Address): (w: bytes)
    ensures |w| == a.size
  {
    Pair(Nibbles(a.destination, a.size) + Nibbles(a.source, a.size))
  }

  function DecodeAddress(w: bytes): (a: Address)
    requires 1 <= |w| <= 7
    ensures a.size == |w|
  {
    var s := Unpair(w);
    AddressPair(FromNibbles(s[..|w|]), FromNibbles(s[|w|..2 * |w|]), |w|)
  }

  // ---- Type-specific headers ----------------------------------------------

  function DataFlags(h: DataHeader): byte {
    128 * B(h.pduStart) + 64 * B(h.pduEnd) + 32 * B(h.inOrder) + 16 * B(h.dropPdu)
    + 8 * B(h.txUwe) + 4 * B(h.txLwe) + h.dataSize / 256
  }

  function Big(v: u16): bytes { [v / 256, v % 256] }

  function DataWire(h: DataHeader): bytes { [DataFlags(h), h.dataSize % 256, h.seqNo] }

  function ExpeditedWire(h: DataHeader): bytes {
    [128 * B(h.pduStart) + 64 * B(h.pduEnd) + h.dataSize / 256, h.dataSize % 256, h.seqNo, h.cpduId % 16]
  }

  function AckWire(h: AckHeader): bytes { [h.rxLwe] + h.selAcks }

  function ResetWire(h: ResetHeader): bytes {
    [128 * B(h.fullResetCmd) + 64 * B(h.resetTxWinReq) + 32 * B(h.resetRxWinCmd) + 16 * B(h.resetAck),
     h.newRxLwe, h.resetFrameId]
  }

  function ManagementWire(h: ManagementHeader, payload: bytes): bytes {
    [4 * B(payload != []) + 2 * B(h.validMessage) + B(h.messageAck), h.frameId] + payload
  }

  function NonArqWire(h: NonArqHeader, size: u10): bytes {
    [16 * (h.cpduId / 256) + 8 * B(h.inOrder) + 4 * B(h.groupAddress) + size / 256, size % 256, h.cpduId % 256]
    + Big(h.cpduSize) + Big(h.firstBytePosition) + Big(h.cpduReceptionWindow)
  }

  function WarningWire(h: WarningHeader): bytes { [Hex(h.receivedDpduType, h.reason)] }

  function EncodeSpecific(d: Dpdu): Result<bytes, string> {
    match d.kind
    case DataAck =>
      if d.data.None? then Err("DATA-ACK DPDU requires data header fields")
      else if d.ack.None? then Err("DATA-ACK DPDU requires ack header fields")
      else Ok(DataWire(d.data.value) + AckWire(d.ack.value))
    case DataOnly =>
      if d.data.None? then Err("Data DPDU requires data header fields") else Ok(DataWire(d.data.value))
    case ExpeditedDataOnly =>
      if d.data.None? then Err("Data DPDU requires data header fields")
      else if d.data.value.cpduId > 0x0F then Err("EXPEDITED_DATA_ONLY cpdu_id must be 0-15")
      else Ok(ExpeditedWire(d.data.value))
    case AckOnly | ExpeditedAckOnly =>
      if d.ack.None? then Err("ACK DPDU requires ack header fields") else Ok(AckWire(d.ack.value))
    case ResetWinResync =>
      if d.reset.None? then Err("RESET DPDU requires reset header fields") else Ok(ResetWire(d.reset.value))
    case Management =>
      if d.management.None? then Err("Management DPDU requires a management header")
      else Ok(ManagementWire(d.management.value, d.userData))
    case NonArq | ExpeditedNonArq =>
      if d.nonArq.None? then Err("Non-ARQ DPDUs require non-ARQ header fields")
      else Ok(NonArqWire(d.nonArq.value, |d.userData|))
    case Warning =>
      if d.warning.None? then Err("Warning DPDU requires warning header fields") else Ok(WarningWire(d.warning.value))
  }

  /** The consistency of user data and header that is checked before encoding. */
  function CheckPayload(d: Dpdu): Option<string> {
    if IsData(d.kind) && d.data.None? then Some("Data DPDU requires a data header")
    else if IsData(d.kind) && d.data.value.dataSize != |d.userData| then Some("Data size does not match payload length")
    else if IsNonArq(d.kind) && d.userData == [] then Some("Non-ARQ DPDUs require user data")
    else if IsNonArq(d.kind) && d.nonArq.None? then Some("Non-ARQ DPDUs require non-ARQ header fields")
    else None
  }

  /** What one type-specific header says. */
  datatype Specific = Specific(
    data: Option<DataHeader>, ack: Option<AckHeader>, reset: Option<ResetHeader>,
    management: Option<ManagementHeader>, nonArq: Option<NonArqHeader>, warning: Option<WarningHeader>, dataLen: nat)

  function ParseData(t: bytes): DataHeader
    requires |t| >= 3
  {
    DataHeader(Has(t[0], 128), Has(t[0], 64), Has(t[0], 32), Has(t[0], 16), Has(t[0], 8), Has(t[0], 4),
               Word(t[0] % 4, t[1]), t[2], 0)
  }

  function ParseSpecific(kind: DpduType, t: bytes): Result<Specific, string> {
    match kind
    case DataAck =>
      if |t| < 4 then Err("DATA-ACK DPDU header must be at least 4 bytes")
      else if |t| > 20 then Err("Selective ACK bitmap must be at most 16 bytes")
      else
        var h := ParseData(t);
        Ok(Specific(Some(h), Some(AckHeader(t[3], t[4..])), None, None, None, None, h.dataSize))
    case ExpeditedDataOnly =>
      if |t| != 4 then Err("EXPEDITED DATA header must be 4 bytes")
      else
        var h := DataHeader(Has(t[0], 128), Has(t[0], 64), false, false, false, false,
                            Word(t[0] % 4, t[1]), t[2], t[3] % 16);
        Ok(Specific(Some(h), None, None, None, None, None, h.dataSize))
    case DataOnly =>
      if |t| != 3 then Err("DATA DPDU header must be 3 bytes")
      else
        var h := ParseData(t);
        Ok(Specific(Some(h), None, None, None, None, None, h.dataSize))
    case AckOnly | ExpeditedAckOnly => ParseAck(t)
    case ResetWinResync =>
      if |t| != 3 then Err("RESET DPDU header must be 3 bytes")
      else
        var h := ResetHeader(Has(t[0], 128), Has(t[0], 64), Has(t[0], 32), Has(t[0], 16), t[1], t[2]);
        Ok(Specific(None, None, Some(h), None, None, None, 0))
    case Management =>
      if |t| < 2 then Err("MANAGEMENT DPDU header must be at least 2 bytes")
      else if t[0] >= 8 then Err("Unused management control bits must be zero")
      else if !Has(t[0], 4) && |t| > 2 then Err("Management header without extension cannot carry payload")
      else
        var h := ManagementHeader(0, Has(t[0], 1), Has(t[0], 2), t[1]);
        Ok(Specific(None, None, None, Some(h), None, None, |t| - 2))
    case NonArq | ExpeditedNonArq => ParseNonArq(t)
    case Warning =>
      if |t| != 1 then Err("WARNING DPDU header must be 1 byte")
      else Ok(Specific(None, None, None, None, None, Some(WarningHeader(t[0] / 16, t[0] % 16)), 0))
  }

  function ParseAck(t: bytes): Result<Specific, string> {
    if |t| < 1 then Err("ACK DPDU header must be at least 1 byte")
    else if |t| > 17 then Err("Selective ACK bitmap must be at most 16 bytes")
    else Ok(Specific(None, Some(AckHeader(t[0], t[1..])), None, None, None, None, 0))
  }

  function ParseNonArq(t: bytes): Result<Specific, string> {
    if |t| != 9 then Err("NON-ARQ DPDU header must be 9 bytes")
    else
      var h := NonArqHeader(Word(t[7], t[8]), Word(t[5], t[6]), Word(t[3], t[4]),
                            Has(t[0], 4), Has(t[0], 8), Word(t[0] / 16, t[2]));
      Ok(Specific(None, None, None, None, Some(h), None, Word(t[0] % 4, t[1])))
  }

  // ---- Frames -------------------------------------------------------------

  /** The header from the type field up to, but without, its check. */
  function Header(d: Dpdu, specific: bytes): bytes
    requires |specific| <= 25
  {
    [TypeCode(d.kind) * 16 + d.eow / 256, d.eow % 256, d.eot, d.address.size * 32 + (6 + |specific|)]
    + EncodeAddress(d.address) + specific
  }

  /** The user data and its check, for the types that carry one. */
  function Payload(d: Dpdu): bytes {
    if HasDataCrc(d.kind) then d.userData + ToWire(Crc32, CrcOf(Crc32, d.userData, 0)) else []
  }

  function Encode(d: Dpdu): Result<bytes, string> {
    if CheckPayload(d).Some? then Err(CheckPayload(d).value)
    else match EncodeSpecific(d)
      case Err(e) => Err(e)
      case Ok(specific) =>
        if 4 + |specific| + 2 > 31 then Err("Header size exceeds 5-bit maximum (31 bytes)")
        else if !HasDataCrc(d.kind) && !d.kind.Management? && d.userData != [] then
          Err("This DPDU type does not carry user data")
        else
          var header := Header(d, specific);
          Ok(Sync() + header + ToWire(Crc16, CrcOf(Crc16, header, 0)) + Payload(d))
  }

  /** The frame object after encoding: the check fields are filled in. */
  function Stamped(d: Dpdu): Dpdu {
    match EncodeSpecific(d)
    case Err(_) => d
    case Ok(specific) =>
      if |specific| > 25 then d
      else
        var crc := if HasDataCrc(d.kind) then Some(CrcOf(Crc32, d.userData, 0)) else None;
        d.(headerCrc := Some(CrcOf(Crc16, Header(d, specific), 0)), headerCrcOk := Some(true),
           dataCrc := crc, dataCrcOk := if crc.Some? then Some(true) else None)
  }

  function Decode(raw: bytes): Result<Dpdu, string> {
    if |raw| < 8 then Err("Buffer too short to contain a DPDU")
    else if raw[..2] != Sync() then Err("Invalid STANAG sync bytes")
    else
      var adr, hdr := raw[5] / 32, raw[5] % 32;
      match TypeOf(raw[2] / 16)
      case None => Err("Unknown D_PDU type")
      case Some(kind) =>
        if hdr < 6 then Err("Header size is smaller than common header + CRC")
        else if adr == 0 then Err("Address size 0 is not supported")
        else if |raw| < 2 + hdr + adr then Err("Buffer too short for advertised header")
        else
          match ParseSpecific(kind, raw[6 + adr..hdr + adr])
          case Err(e) => Err(e)
          case Ok(specific) => DecodeBody(raw, kind, specific, adr, hdr)
  }

  /** What the header alone says. */
  function HeaderOnly(raw: bytes, kind: DpduType, specific: Specific, adr: nat, hdr: nat): Dpdu
    requires 1 <= adr <= 7 && 6 <= hdr <= 31 && 2 + hdr + adr <= |raw|
  {
    var headerCrc := FromLittleEndian(raw[hdr + adr..hdr + adr + 2]);
    Dpdu(kind, Word(raw[2] % 16, raw[3]), raw[4], DecodeAddress(raw[6..6 + adr]),
         specific.data, specific.ack, specific.reset, specific.management, specific.nonArq, specific.warning,
         [], Some(headerCrc), None, Some(Validate(Crc16, raw[2..hdr + adr], headerCrc)), None)
  }

  /** The rest of a frame once its header has been read. */
  function DecodeBody(raw: bytes, kind: DpduType, specific: Specific, adr: nat, hdr: nat): Result<Dpdu, string>
    requires 1 <= adr <= 7 && 6 <= hdr <= 31 && 2 + hdr + adr <= |raw|
    requires ParseSpecific(kind, raw[6 + adr..hdr + adr]) == Ok(specific)
  {
    var at := hdr + adr + 2;
    var d := HeaderOnly(raw, kind, specific, adr, hdr);
    if HasDataCrc(kind) then
      var end := at + specific.dataLen;
      if |raw| != end + 4 then Err("Buffer length does not match DPDU payload length")
      else if specific.dataLen > 1023 then Err("User data exceeds maximum phase 1 DPDU size")
      else
        var crc := FromLittleEndian(raw[end..]);
        Ok(d.(userData := raw[at..end], dataCrc := Some(crc), dataCrcOk := Some(Validate(Crc32, raw[at..end], crc))))
    else if |raw| != at then Err("Unexpected trailing data")
    else if kind.Management? && specific.management.Some? then
      Ok(d.(userData := raw[6 + adr..hdr + adr][2..],
            management := Some(specific.management.value.(messageField := d.eow))))
    else Ok(d)
  }
}

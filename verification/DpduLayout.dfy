/** The bit layout of D_PDU headers, field by field in the order of the standard's figures. */
module DpduLayout {
  import opened Bits
  import opened Crc
  import opened CrcDetect
  import opened Dpdu
  import opened DpduCodec
  import opened DpduCodecProof
  import opened DpduLoops
  import opened Layout
  import opened Prelude

  /** The type field of every D_PDU. */
  function TypeNumber(t: DpduType): nat {
    match t
    case DataOnly => 0
    case AckOnly => 1
    case DataAck => 2
    case ResetWinResync => 3
    case ExpeditedDataOnly => 4
    case ExpeditedAckOnly => 5
    case Management => 6
    case NonArq => 7
    case ExpeditedNonArq => 8
    case Warning => 15
  }

  const OFF := false

  function DataBits(h: DataHeader): seq<bool> {
    [h.pduStart, h.pduEnd, h.inOrder, h.dropPdu, h.txUwe, h.txLwe] + MsbFirst(h.dataSize, 10) + MsbFirst(h.seqNo, 8)
  }

  function ExpeditedBits(h: DataHeader): seq<bool> {
    [h.pduStart, h.pduEnd, OFF, OFF, OFF, OFF] + MsbFirst(h.dataSize, 10) + MsbFirst(h.seqNo, 8)
    + [OFF, OFF, OFF, OFF] + MsbFirst(h.cpduId, 4)
  }

  function AckBits(h: AckHeader): seq<bool> { MsbFirst(h.rxLwe, 8) + Octets(h.selAcks) }

  function ResetBits(h: ResetHeader): seq<bool> {
    [h.fullResetCmd, h.resetTxWinReq, h.resetRxWinCmd, h.resetAck, OFF, OFF, OFF, OFF]
    + MsbFirst(h.newRxLwe, 8) + MsbFirst(h.resetFrameId, 8)
  }

  function ManagementBits(h: ManagementHeader, extended: bytes): seq<bool> {
    [OFF, OFF, OFF, OFF, OFF, extended != [], h.validMessage, h.messageAck] + MsbFirst(h.frameId, 8) + Octets(extended)
  }

  /** The C_PDU id travels in two parts: its high nibble first, and the rest after the size of the data. */
  function NonArqBits(h: NonArqHeader, size: nat): seq<bool> {
    MsbFirst(h.cpduId / 256, 4) + [h.inOrder, h.groupAddress] + MsbFirst(size, 10) + MsbFirst(h.cpduId % 256, 8)
    + MsbFirst(h.cpduSize, 16) + MsbFirst(h.firstBytePosition, 16) + MsbFirst(h.cpduReceptionWindow, 16)
  }

  function WarningBits(h: WarningHeader): seq<bool> { MsbFirst(h.receivedDpduType, 4) + MsbFirst(h.reason, 4) }

  /** The part of the header that depends on the type. */
  function TypeBits(d: Dpdu): seq<bool>
    requires Encodable(d)
  {
    match d.kind
    case DataOnly => DataBits(d.data.value)
    case DataAck => DataBits(d.data.value) + AckBits(d.ack.value)
    case ExpeditedDataOnly => ExpeditedBits(d.data.value)
    case AckOnly | ExpeditedAckOnly => AckBits(d.ack.value)
    case ResetWinResync => ResetBits(d.reset.value)
    case Management => ManagementBits(d.management.value, d.userData)
    case NonArq | ExpeditedNonArq => NonArqBits(d.nonArq.value, |d.userData|)
    case Warning => WarningBits(d.warning.value)
  }

  /**
    * The fields before the addresses, for a header with `n` octets that depend on the type. The size field counts the
    * octets from the type field to the check, without those of the addresses.
    */
  function CommonBits(d: Dpdu, n: nat): seq<bool> {
    MsbFirst(TypeNumber(d.kind), 4) + MsbFirst(d.eow, 12) + MsbFirst(d.eot, 8)
    + MsbFirst(d.address.size, 3) + MsbFirst(4 + n + 2, 5)
  }

  function AddressPairBits(a: Address): seq<bool> {
    MsbFirst(a.destination, 4 * a.size) + MsbFirst(a.source, 4 * a.size)
  }

  /** The whole header up to its check. */
  function HeaderBits(d: Dpdu): seq<bool>
    requires Encodable(d)
  {
    CommonBits(d, |TypeBits(d)| / 8) + AddressPairBits(d.address) + TypeBits(d)
  }

  // ---- Addresses ----------------------------------------------------------

  function NibbleBits(s: seq<nibble>): seq<bool> {
    if s == [] then [] else MsbFirst(s[0], 4) + NibbleBits(s[1..])
  }

  lemma {:induction false} NibbleJoin(a: seq<nibble>, b: seq<nibble>)
    ensures NibbleBits(a + b) == NibbleBits(a) + NibbleBits(b)
    decreases |a|
  {
    if a == [] {
      assert a + b == b;
    } else {
      NibbleJoin(a[1..], b);
      hide MsbFirst;
      assert (a + b)[1..] == a[1..] + b;
    }
  }

  lemma {:induction false} NibblesAre(v: nat, n: nat)
    ensures NibbleBits(Nibbles(v, n)) == MsbFirst(v, 4 * n)
    decreases n
  {
    if n == 0 {
      assert MsbFirst(v, 0) == [];
    } else {
      NibblesAre(v / 16, n - 1);
      NibbleJoin(Nibbles(v / 16, n - 1), [v % 16]);
      CutNibble(v / 16, 4 * (n - 1), v % 16);
      var last: seq<nibble> := [v % 16];
      assert last[1..] == [];
    }
  }

  lemma {:induction false} PairsAre(s: seq<nibble>)
    requires |s| % 2 == 0
    ensures Octets(Pair(s)) == NibbleBits(s)
    decreases |s|
  {
    if s != [] {
      PairsAre(s[2..]);
      hide MsbFirst, NibbleBits, Octets, Hex;
      OnePair(s[0], s[1]);
      NibbleJoin(s[..2], s[2..]);
      OctetsJoin([Hex(s[0], s[1])], Pair(s[2..]));
      assert s[..2] == [s[0], s[1]] && s == s[..2] + s[2..];
    } else {
      assert NibbleBits(s) == [];
    }
  }

  lemma OnePair(hi: nibble, lo: nibble)
    ensures Octets([Hex(hi, lo)]) == NibbleBits([hi, lo])
  {
    hide MsbFirst;
    CutNibble(hi, 4, lo);
    OneOctet(Hex(hi, lo));
    var both: seq<nibble>, last: seq<nibble> := [hi, lo], [lo];
    assert both[1..] == last && last[1..] == [];
    assert NibbleBits(last) == MsbFirst(lo, 4);
  }

  lemma AddressBits(a: Address)
    ensures Octets(EncodeAddress(a)) == AddressPairBits(a)
  {
    hide MsbFirst, NibbleBits, Octets, Pair, Nibbles;
    var d, s := Nibbles(a.destination, a.size), Nibbles(a.source, a.size);
    NibblesAre(a.destination, a.size);
    NibblesAre(a.source, a.size);
    NibbleJoin(d, s);
    PairsAre(d + s);
  }

  // ---- Octets of several fields -------------------------------------------

  lemma TwoBits(hi: nat)
    requires hi < 4
    ensures MsbFirst(hi, 2) == [hi / 2 == 1, hi % 2 == 1]
  {
    OneFlag(hi / 2);
    Push(hi / 2, 1, hi % 2);
    assert hi == 2 * (hi / 2) + hi % 2;
  }

  /** Six flags and a field of two bits. */
  lemma FlagOctet(a: bool, b: bool, c: bool, d: bool, e: bool, f: bool, hi: nat)
    requires hi < 4
    ensures MsbFirst(128 * B(a) + 64 * B(b) + 32 * B(c) + 16 * B(d) + 8 * B(e) + 4 * B(f) + hi, 8) ==
      [a, b, c, d, e, f] + MsbFirst(hi, 2)
  {
    hide MsbFirst;
    FourFlags(B(a), B(b), B(c), B(d));
    LowNibble(e, f, hi);
    CutNibble(8 * B(a) + 4 * B(b) + 2 * B(c) + B(d), 4, 8 * B(e) + 4 * B(f) + hi);
    assert [a, b, c, d] + ([e, f] + MsbFirst(hi, 2)) == [a, b, c, d, e, f] + MsbFirst(hi, 2);
  }

  /** Two flags and a field of two bits. */
  lemma LowNibble(e: bool, f: bool, hi: nat)
    requires hi < 4
    ensures MsbFirst(8 * B(e) + 4 * B(f) + hi, 4) == [e, f] + MsbFirst(hi, 2)
  {
    hide MsbFirst;
    FourFlags(B(e), B(f), hi / 2, hi % 2);
    TwoBits(hi);
    assert 8 * B(e) + 4 * B(f) + 2 * (hi / 2) + hi % 2 == 8 * B(e) + 4 * B(f) + hi;
  }

  /** A field of ten bits after six flags. */
  lemma SizedOctets(f: byte, flags: seq<bool>, size: nat)
    requires size < 0x400 && MsbFirst(f, 8) == flags + MsbFirst(size / 256, 2)
    ensures Octets([f, size % 256]) == flags + MsbFirst(size, 10)
  {
    hide MsbFirst;
    TwoOctets(f, size % 256);
    CutOctet(size / 256, 2, size % 256);
  }

  lemma BigBits(v: u16)
    ensures Octets(Big(v)) == MsbFirst(v, 16)
  {
    hide MsbFirst;
    TwoOctets(v / 256, v % 256);
    CutOctet(v / 256, 8, v % 256);
  }

  // ---- The type-specific headers ------------------------------------------

  lemma DataLayout(h: DataHeader)
    ensures Octets(DataWire(h)) == DataBits(h)
  {
    hide MsbFirst, Octets;
    FlagOctet(h.pduStart, h.pduEnd, h.inOrder, h.dropPdu, h.txUwe, h.txLwe, h.dataSize / 256);
    SizedOctets(DataFlags(h), [h.pduStart, h.pduEnd, h.inOrder, h.dropPdu, h.txUwe, h.txLwe], h.dataSize);
    OctetsJoin([DataFlags(h), h.dataSize % 256], [h.seqNo]);
    OneOctet(h.seqNo);
    assert DataWire(h) == [DataFlags(h), h.dataSize % 256] + [h.seqNo];
  }

  lemma ExpeditedLayout(h: DataHeader)
    requires h.cpduId <= 15
    ensures Octets(ExpeditedWire(h)) == ExpeditedBits(h)
  {
    hide MsbFirst, Octets;
    var f := 128 * B(h.pduStart) + 64 * B(h.pduEnd) + h.dataSize / 256;
    FlagOctet(h.pduStart, h.pduEnd, OFF, OFF, OFF, OFF, h.dataSize / 256);
    SizedOctets(f, [h.pduStart, h.pduEnd, OFF, OFF, OFF, OFF], h.dataSize);
    OctetsJoin([f, h.dataSize % 256], [h.seqNo, h.cpduId]);
    TwoOctets(h.seqNo, h.cpduId);
    CutNibble(0, 4, h.cpduId);
    FourFlags(0, 0, 0, 0);
    assert ExpeditedWire(h) == [f, h.dataSize % 256] + [h.seqNo, h.cpduId];
  }

  lemma AckLayout(h: AckHeader)
    ensures Octets(AckWire(h)) == AckBits(h)
  {
    OctetsJoin([h.rxLwe], h.selAcks);
    OneOctet(h.rxLwe);
  }

  lemma ResetLayout(h: ResetHeader)
    ensures Octets(ResetWire(h)) == ResetBits(h)
  {
    hide MsbFirst, Octets;
    var f := 128 * B(h.fullResetCmd) + 64 * B(h.resetTxWinReq) + 32 * B(h.resetRxWinCmd) + 16 * B(h.resetAck);
    FlagOctet(h.fullResetCmd, h.resetTxWinReq, h.resetRxWinCmd, h.resetAck, OFF, OFF, 0);
    TwoBits(0);
    OctetsJoin([f], [h.newRxLwe, h.resetFrameId]);
    OneOctet(f);
    TwoOctets(h.newRxLwe, h.resetFrameId);
    assert ResetWire(h) == [f] + [h.newRxLwe, h.resetFrameId];
  }

  lemma ManagementLayout(h: ManagementHeader, extended: bytes)
    ensures Octets(ManagementWire(h, extended)) == ManagementBits(h, extended)
  {
    hide MsbFirst, Octets;
    var f := 4 * B(extended != []) + 2 * B(h.validMessage) + B(h.messageAck);
    CutNibble(0, 4, f);
    FourFlags(0, 0, 0, 0);
    FourFlags(0, B(extended != []), B(h.validMessage), B(h.messageAck));
    OctetsJoin([f, h.frameId], extended);
    TwoOctets(f, h.frameId);
  }

  lemma NonArqLayout(h: NonArqHeader, size: u10)
    ensures Octets(NonArqWire(h, size)) == NonArqBits(h, size)
  {
    hide MsbFirst, Octets, Big;
    var f: byte := 16 * (h.cpduId / 256) + 8 * B(h.inOrder) + 4 * B(h.groupAddress) + size / 256;
    var rest := Big(h.cpduSize) + Big(h.firstBytePosition) + Big(h.cpduReceptionWindow);
    NonArqFlags(h.cpduId / 256, h.inOrder, h.groupAddress, size / 256);
    SizedOctets(f, MsbFirst(h.cpduId / 256, 4) + [h.inOrder, h.groupAddress], size);
    OctetsJoin([f, size % 256], [h.cpduId % 256]);
    OneOctet(h.cpduId % 256);
    NonArqTail(h);
    OctetsJoin([f, size % 256] + [h.cpduId % 256], rest);
    assert NonArqWire(h, size) == [f, size % 256] + [h.cpduId % 256] + rest;
  }

  lemma NonArqFlags(id: nat, inOrder: bool, group: bool, hi: nat)
    requires hi < 4
    ensures MsbFirst(16 * id + 8 * B(inOrder) + 4 * B(group) + hi, 8) ==
      MsbFirst(id, 4) + [inOrder, group] + MsbFirst(hi, 2)
  {
    hide MsbFirst;
    LowNibble(inOrder, group, hi);
    CutNibble(id, 4, 8 * B(inOrder) + 4 * B(group) + hi);
  }

  lemma NonArqTail(h: NonArqHeader)
    ensures Octets(Big(h.cpduSize) + Big(h.firstBytePosition) + Big(h.cpduReceptionWindow)) ==
      MsbFirst(h.cpduSize, 16) + MsbFirst(h.firstBytePosition, 16) + MsbFirst(h.cpduReceptionWindow, 16)
  {
    hide MsbFirst, Octets, Big;
    OctetsJoin(Big(h.cpduSize) + Big(h.firstBytePosition), Big(h.cpduReceptionWindow));
    OctetsJoin(Big(h.cpduSize), Big(h.firstBytePosition));
    BigBits(h.cpduSize);
    BigBits(h.firstBytePosition);
    BigBits(h.cpduReceptionWindow);
  }

  lemma WarningLayout(h: WarningHeader)
    ensures Octets(WarningWire(h)) == WarningBits(h)
  {
    hide MsbFirst;
    CutNibble(h.receivedDpduType, 4, h.reason);
    OneOctet(Hex(h.receivedDpduType, h.reason));
  }

  lemma TypeLayout(d: Dpdu)
    requires Encodable(d)
    ensures Octets(SpecificBytes(d)) == TypeBits(d)
  {
    hide DataWire, DataBits, AckWire, AckBits, ExpeditedWire, ExpeditedBits, ResetWire, ResetBits, ManagementWire;
    hide ManagementBits, NonArqWire, NonArqBits, WarningWire, WarningBits, Octets;
    match d.kind
    case DataOnly => DataLayout(d.data.value);
    case DataAck =>
      DataLayout(d.data.value);
      AckLayout(d.ack.value);
      OctetsJoin(DataWire(d.data.value), AckWire(d.ack.value));
    case ExpeditedDataOnly => ExpeditedLayout(d.data.value);
    case AckOnly | ExpeditedAckOnly => AckLayout(d.ack.value);
    case ResetWinResync => ResetLayout(d.reset.value);
    case Management => ManagementLayout(d.management.value, d.userData);
    case NonArq | ExpeditedNonArq => NonArqLayout(d.nonArq.value, |d.userData|);
    case Warning => WarningLayout(d.warning.value);
  }

  // ---- Whole frames -------------------------------------------------------

  lemma CommonLayout(d: Dpdu, t: bytes)
    requires |t| <= 25
    ensures Octets(Header(d, t)) ==
      CommonBits(d, |t|) + AddressPairBits(d.address) + Octets(t)
  {
    hide CommonBits, AddressPairBits, Octets, EncodeAddress, TypeCode;
    var front := FourOctets(d, |t|);
    AddressBits(d.address);
    OctetsJoin(front, EncodeAddress(d.address));
    OctetsJoin(front + EncodeAddress(d.address), t);
  }

  /** The octets before the addresses. */
  lemma FourOctets(d: Dpdu, n: nat) returns (w: bytes)
    requires n <= 25
    ensures w == [TypeCode(d.kind) * 16 + d.eow / 256, d.eow % 256, d.eot, d.address.size * 32 + (6 + n)]
    ensures Octets(w) == CommonBits(d, n)
  {
    hide MsbFirst, Octets, TypeCode, TypeNumber;
    var x: byte, y: byte, z: byte := TypeCode(d.kind) * 16 + d.eow / 256, d.eow % 256, d.address.size * 32 + (6 + n);
    w := [x, y, d.eot, z];
    FirstOctets(d);
    SizesOctet(d.address.size, 6 + n);
    OctetsJoin([x, y], [d.eot, z]);
    TwoOctets(d.eot, z);
    assert w == [x, y] + [d.eot, z];
  }

  lemma FirstOctets(d: Dpdu)
    ensures Octets([TypeCode(d.kind) * 16 + d.eow / 256, d.eow % 256]) ==
      MsbFirst(TypeNumber(d.kind), 4) + MsbFirst(d.eow, 12)
  {
    hide MsbFirst, Octets;
    assert TypeCode(d.kind) == TypeNumber(d.kind);
    hide TypeCode, TypeNumber;
    TwoOctets(TypeCode(d.kind) * 16 + d.eow / 256, d.eow % 256);
    CutNibble(TypeCode(d.kind), 4, d.eow / 256);
    CutOctet(d.eow / 256, 4, d.eow % 256);
  }

  lemma SizesOctet(a: nat, h: nat)
    requires h < 32
    ensures MsbFirst(a * 32 + h, 8) == MsbFirst(a, 3) + MsbFirst(h, 5)
  {
    hide MsbFirst;
    PowersOfTwo();
    Joined(a, 3, h, 5);
  }

  /**
    * The frame of every D_PDU that can be sent: the two sync octets, the header bit by bit as the standard draws it,
    * its 16-bit check, and for the types with user data that data and its 32-bit check, both checks least significant
    * octet first.
    */
  lemma FrameLayout(d: Dpdu) returns (header: bytes)
    requires Encodable(d)
    ensures Octets(header) == HeaderBits(d)
    ensures Wire(d) == [0x90, 0xEB] + header + ToWire(Crc16, CrcOf(Crc16, header, 0)) +
      if HasDataCrc(d.kind) then d.userData + ToWire(Crc32, CrcOf(Crc32, d.userData, 0)) else []
  {
    hide *;
    header := Header(d, SpecificBytes(d));
    TypeLayout(d);
    CommonLayout(d, SpecificBytes(d));
    HeaderIs(d);
    WireIs(d);
  }

  lemma HeaderIs(d: Dpdu)
    requires Encodable(d)
    ensures HeaderBits(d) == CommonBits(d, |TypeBits(d)| / 8) + AddressPairBits(d.address) + TypeBits(d)
  {
  }

  lemma WireIs(d: Dpdu)
    requires Encodable(d)
    ensures var header := Header(d, SpecificBytes(d));
      Wire(d) == [0x90, 0xEB] + header + ToWire(Crc16, CrcOf(Crc16, header, 0)) +
        if HasDataCrc(d.kind) then d.userData + ToWire(Crc32, CrcOf(Crc32, d.userData, 0)) else []
  {
    hide EncodeSpecific, CheckPayload, Encodable, Header, CrcOf, ToWire;
  }

  /** The D_PDU as the header builder sees it: user data matter only to the types that carry them. */
  function Bare(d: Dpdu): Dpdu {
    if HasDataCrc(d.kind) || d.kind.Management? then d else d.(userData := [])
  }

  /** The header builder succeeds exactly for the fields that can be sent, and gives their header bit by bit. */
  lemma HeaderBuilt(d: Dpdu)
    ensures HeaderOf(d).Ok? <==> Encodable(Bare(d))
    ensures HeaderOf(d).Ok? ==> Octets(HeaderOf(d).value) == HeaderBits(Bare(d))
  {
    hide *;
    CheckedIff(Bare(d));
    BareSpecific(d);
    HeaderOfIs(d);
    if EncodeSpecific(d).Ok? { SpecificLength(Bare(d)); }
    if HeaderOf(d).Ok? {
      var t := SpecificBytes(Bare(d));
      TypeLayout(Bare(d));
      CommonLayout(Bare(d), t);
      HeaderIs(Bare(d));
      SameHeader(d, t);
    }
  }

  lemma BareSpecific(d: Dpdu)
    ensures EncodeSpecific(Bare(d)) == EncodeSpecific(d) && CheckPayload(Bare(d)) == CheckPayload(d)
    ensures Bare(d).kind == d.kind
    ensures HasDataCrc(d.kind) || d.kind.Management? || Bare(d).userData == []
  {
    hide DataWire, ExpeditedWire, AckWire, ResetWire, ManagementWire, NonArqWire, WarningWire;
  }

  lemma HeaderOfIs(d: Dpdu)
    ensures HeaderOf(d).Ok? <==> CheckPayload(d).None? && EncodeSpecific(d).Ok? && |EncodeSpecific(d).value| <= 25
    ensures HeaderOf(d).Ok? ==> HeaderOf(d).value == Header(d, EncodeSpecific(d).value)
  {
    hide CheckPayload, EncodeSpecific, Header;
  }

  lemma SameHeader(d: Dpdu, t: bytes)
    requires |t| <= 25
    ensures Header(Bare(d), t) == Header(d, t)
  {
  }
}

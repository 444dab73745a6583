/** The bit layout of the modem's TCP packets, of link control messages and of RCOP segments. */
module WireLayout {
  import opened Bits
  import opened Layout
  import opened Packets
  import opened Prelude
  import Cas
  import Coss
  import Modem110d
  import Rcop

  lemma BigEndianBits(v: nat)
    requires v < 0x1_0000
    ensures Octets(BigEndian(v)) == MsbFirst(v, 16)
  {
    hide MsbFirst, Octets;
    TwoOctets(v / 256, v % 256);
    CutOctet(v / 256, 8, v % 256);
  }

  // ---- Modem packets ------------------------------------------------------

  /**
    * A packet: three octets of preamble, its type, the length of its payload and the check of these six octets; then,
    * if there is a payload, the payload and its check. Numbers and checks are sent most significant octet first.
    */
  lemma PacketLayout(p: Packet) returns (head: bytes)
    requires |p.payload| < 0x1_0000
    ensures Octets(head) == MsbFirst(0x49, 8) + MsbFirst(0x50, 8) + MsbFirst(0x55, 8)
      + MsbFirst(p.kind, 8) + MsbFirst(|p.payload|, 16)
    ensures Octets(PacketBytes(p)) == Octets(head) + MsbFirst(Crc16Of(head), 16) +
      if p.payload == [] then [] else Octets(p.payload) + MsbFirst(Crc16Of(p.payload), 16)
  {
    hide MsbFirst, Octets, Crc16Of, BigEndian;
    head := Head(p);
    BigEndianBits(|p.payload|);
    BigEndianBits(Crc16Of(head));
    BigEndianBits(Crc16Of(p.payload));
    TwoOctets(0x49, 0x50);
    TwoOctets(0x55, p.kind);
    OctetsJoin([0x49, 0x50], [0x55, p.kind]);
    assert Preamble() + [p.kind] == [0x49, 0x50] + [0x55, p.kind];
    OctetsJoin(Preamble() + [p.kind], BigEndian(|p.payload|));
    OctetsJoin(head, BigEndian(Crc16Of(head)));
    OctetsJoin(head + BigEndian(Crc16Of(head)), Body(p));
    BodyLayout(p.payload);
  }

  lemma BodyLayout(payload: bytes)
    ensures Octets(Body(Packet(0, payload))) ==
      if payload == [] then [] else Octets(payload) + MsbFirst(Crc16Of(payload), 16)
  {
    hide MsbFirst, BigEndian, Crc16Of;
    BigEndianBits(Crc16Of(payload));
    OctetsJoin(payload, BigEndian(Crc16Of(payload)));
  }

  /** The packets of a window, octet by octet: arm, the pieces ahead of the start, the start commands, and the rest. */
  lemma WindowLayout(cs: seq<bytes>, ids: nat -> bytes, k: nat, starts: nat, i: nat)
    requires k <= |cs| && i < |Modem110d.Plan(cs, ids, k, starts)|
    ensures var p, s := Modem110d.Plan(cs, ids, k, starts)[i], if |cs| > 1 then 1 + starts else 0;
      && p.kind == 0x00
      && (i == 0 ==> p.payload == [0x01])
      && (1 <= i <= k ==> CarriesPiece(p, cs, ids, i - 1))
      && (k < i <= k + s ==> p.payload == [0x02])
      && (k + s < i ==> i - 1 - s < |cs| && CarriesPiece(p, cs, ids, i - 1 - s))
  {
    hide Modem110d.Transfer, Modem110d.OrderOf;
    var s := if |cs| > 1 then 1 + starts else 0;
    if 1 <= i <= k { PieceAt(cs, ids, i - 1); }
    if k + s < i { PieceAt(cs, ids, i - 1 - s); }
  }

  lemma PieceAt(cs: seq<bytes>, ids: nat -> bytes, i: nat)
    requires i < |cs|
    ensures CarriesPiece(Modem110d.Transfer(Modem110d.OrderOf(i, |cs|), ids(i), cs[i]), cs, ids, i)
  {
    hide Modem110d.PacketId;
    var id := Modem110d.PacketId(ids(i));
    var front := [0x00, Modem110d.OrderOf(i, |cs|)] + id;
    assert (front + cs[i])[14..] == cs[i];
    forall j | 0 <= j < 12 ensures id[j] == if j < |ids(i)| then ids(i)[j] else 0 {
      IdOctet(ids(i), j);
    }
  }

  lemma IdOctet(id: bytes, j: nat)
    requires j < 12
    ensures Modem110d.PacketId(id)[j] == if j < |id| then id[j] else 0
  {
    if |id| < 12 { AllZero(12 - |id|); }
  }

  lemma {:induction false} AllZero(n: nat)
    ensures forall j :: 0 <= j < n ==> Modem110d.Zeros(n)[j] == 0
  {
    if n > 0 { AllZero(n - 1); }
  }

  /** The octets of piece `i`: command, order, the id cut or padded to twelve octets, and the data. */
  predicate CarriesPiece(p: Packet, cs: seq<bytes>, ids: nat -> bytes, i: nat)
    requires i < |cs|
  {
    && p.kind == 0x00
    && |p.payload| == 14 + |cs[i]|
    && p.payload[0] == 0x00
    && p.payload[1] == (if |cs| == 1 then 2 else if i == 0 then 1 else if i == |cs| - 1 then 4 else 3)
    && (forall j :: 0 <= j < 12 ==> p.payload[2 + j] == if j < |ids(i)| then ids(i)[j] else 0)
    && p.payload[14..] == cs[i]
  }

  // ---- Link control messages ----------------------------------------------

  /** A control message is one octet, its type and a nibble that holds the kind of link or the reason. */
  lemma CpduLayout(c: Cas.Cpdu)
    ensures Octets(Cas.Encode(c)) ==
      match c
      case Data(p) => MsbFirst(0, 4) + MsbFirst(0, 4) + Octets(p)
      case LinkRequest(kind) => MsbFirst(1, 4) + MsbFirst(if kind.Exclusive? then 1 else 0, 4)
      case LinkAccepted => MsbFirst(2, 4) + MsbFirst(0, 4)
      case LinkRejected(reason) => MsbFirst(3, 4) + MsbFirst(reason % 16, 4)
      case LinkBreak(reason) => MsbFirst(4, 4) + MsbFirst(reason % 16, 4)
      case LinkBreakConfirm => MsbFirst(5, 4) + MsbFirst(0, 4)
  {
    hide MsbFirst, Octets;
    match c
    case Data(p) =>
      OctetsJoin([0x00], p);
      OneNibblePair(0, 0);
    case LinkRequest(kind) => OneNibblePair(1, if kind.Exclusive? then 1 else 0);
    case LinkAccepted => OneNibblePair(2, 0);
    case LinkRejected(reason) => OneNibblePair(3, reason % 16);
    case LinkBreak(reason) => OneNibblePair(4, reason % 16);
    case LinkBreakConfirm => OneNibblePair(5, 0);
  }

  lemma OneNibblePair(hi: nat, lo: nat)
    requires hi < 16 && lo < 16
    ensures Octets([16 * hi + lo]) == MsbFirst(hi, 4) + MsbFirst(lo, 4)
  {
    hide MsbFirst, Octets;
    OneOctet(16 * hi + lo);
    CutNibble(hi, 4, lo);
  }

  // ---- Dense packing ------------------------------------------------------

  /** Three characters in two octets: the low bits of the second before the first, the flag, and the rest. */
  lemma PairLayout(c0: nat, c1: nat, flag: nat, c2: nat)
    requires c0 < 32 && c1 < 32 && c2 < 32 && flag < 2
    ensures Octets(Coss.Pair(c0, c1, flag, c2)) ==
      MsbFirst(c1 % 8, 3) + MsbFirst(c0, 5) + [flag == 1] + MsbFirst(c1 / 8, 2) + MsbFirst(c2, 5)
  {
    hide MsbFirst, Octets, Pow2;
    TwoOctets((c1 % 8) * 32 + c0, flag * 128 + (c1 / 8) * 32 + c2);
    CutFive(c1 % 8, 3, c0);
    FlagAndTwo(flag, c1 / 8);
    CutFive(flag * 4 + c1 / 8, 3, c2);
  }

  lemma CutFive(hi: nat, n: nat, lo: nat)
    requires lo < 32
    ensures MsbFirst(hi * 32 + lo, n + 5) == MsbFirst(hi, n) + MsbFirst(lo, 5)
  {
    hide MsbFirst;
    PowersOfTwo();
    Joined(hi, n, lo, 5);
  }

  lemma FlagAndTwo(flag: nat, two: nat)
    requires flag < 2 && two < 4
    ensures MsbFirst(flag * 4 + two, 3) == [flag == 1] + MsbFirst(two, 2)
  {
    hide MsbFirst;
    PowersOfTwo();
    OneFlag(flag);
    Joined(flag, 1, two, 2);
  }

  // ---- RCOP segments ------------------------------------------------------

  lemma SegmentLayout(p: Rcop.Pdu)
    requires Rcop.InRange(p)
    ensures Octets(Rcop.Encode(p)) ==
      MsbFirst(p.connectionId, 4) + MsbFirst(0, 4) + MsbFirst(p.upduId, 8)
      + MsbFirst(p.segment, 16) + MsbFirst(p.appId, 16) + Octets(p.data)
  {
    hide MsbFirst, Octets, BigEndian;
    var ids: bytes := [p.connectionId * 16, p.upduId];
    TwoOctets(p.connectionId * 16, p.upduId);
    CutNibble(p.connectionId, 4, 0);
    BigEndianBits(p.segment);
    BigEndianBits(p.appId);
    OctetsJoin(ids, BigEndian(p.segment));
    OctetsJoin(ids + BigEndian(p.segment), BigEndian(p.appId));
    OctetsJoin(ids + BigEndian(p.segment) + BigEndian(p.appId), p.data);
  }
}

/** The fields of a data link protocol data unit and their ranges, as the constructors check them. */
module Dpdu {
  import opened Prelude

  type nibble = x: int | 0 <= x < 16
  type u10 = x: int | 0 <= x < 0x400
  type u12 = x: int | 0 <= x < 0x1000
  type u16 = x: int | 0 <= x < 0x1_0000

  datatype DpduType =
    | DataOnly | AckOnly | DataAck | ResetWinResync | ExpeditedDataOnly
    | ExpeditedAckOnly | Management | NonArq | ExpeditedNonArq | Warning

  function TypeCode(t: DpduType): nibble {
    match t
    case DataOnly => 0
    case AckOnly => 1
    case DataAck => 2
    case ResetWinResync => 3
    case ExpeditedDataOnly => 4
    case ExpeditedAckOnly => 5
    case Management => 6
    case NonArq => 7
    case ExpeditedNonArq => 8
    case Warning => 15
  }

  function TypeOf(code: nat): Option<DpduType> {
    if code == 0 then Some(DataOnly)
    else if code == 1 then Some(AckOnly)
    else if code == 2 then Some(DataAck)
    else if code == 3 then Some(ResetWinResync)
    else if code == 4 then Some(ExpeditedDataOnly)
    else if code == 5 then Some(ExpeditedAckOnly)
    else if code == 6 then Some(Management)
    else if code == 7 then Some(NonArq)
    else if code == 8 then Some(ExpeditedNonArq)
    else if code == 15 then Some(Warning)
    else None
  }

  predicate IsData(t: DpduType) { t.DataOnly? || t.DataAck? || t.ExpeditedDataOnly? }

  predicate IsNonArq(t: DpduType) { t.NonArq? || t.ExpeditedNonArq? }

  /** The types whose user data follows the header with a check of its own. */
  predicate HasDataCrc(t: DpduType) { IsData(t) || IsNonArq(t) }

  function Pow16(n: nat): (p: nat)
    ensures p > 0
  {
    if n == 0 then 1 else 16 * Pow16(n - 1)
  }

  datatype AddressPair = AddressPair(destination: nat, source: nat, size: nat)

  /** An address pair of 1 to 7 nibbles each. */
  type Address = a: AddressPair | 1 <= a.size <= 7 && a.destination < Pow16(a.size) && a.source < Pow16(a.size)
    witness AddressPair(0, 0, 1)

  datatype DataHeader = DataHeader(pduStart: bool, pduEnd: bool, inOrder: bool, dropPdu: bool,
                                   txUwe: bool, txLwe: bool, dataSize: u10, seqNo: byte, cpduId: byte)

  type bitmap = s: bytes | |s| <= 16

  datatype AckHeader = AckHeader(rxLwe: byte, selAcks: bitmap)

  datatype ResetHeader = ResetHeader(fullResetCmd: bool, resetTxWinReq: bool, resetRxWinCmd: bool, resetAck: bool,
                                     newRxLwe: byte, resetFrameId: byte)

  datatype ManagementHeader = ManagementHeader(messageField: u12, messageAck: bool, validMessage: bool, frameId: byte)

  datatype NonArqHeader = NonArqHeader(cpduReceptionWindow: u16, firstBytePosition: u16, cpduSize: u16,
                                       groupAddress: bool, inOrder: bool, cpduId: u12)

  datatype WarningHeader = WarningHeader(receivedDpduType: nibble, reason: nibble)

  type userBytes = s: bytes | |s| <= 1023

  datatype Dpdu = Dpdu(
    kind: DpduType, eow: u12, eot: byte, address: Address,
    data: Option<DataHeader>, ack: Option<AckHeader>, reset: Option<ResetHeader>,
    management: Option<ManagementHeader>, nonArq: Option<NonArqHeader>, warning: Option<WarningHeader>,
    userData: userBytes,
    headerCrc: Option<nat>, dataCrc: Option<nat>, headerCrcOk: Option<bool>, dataCrcOk: Option<bool>)
}

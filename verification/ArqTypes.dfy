/** Frames, slots and 8-bit sequence arithmetic of the selective-repeat engine. */
module ArqTypes {
  import opened Prelude

  const SEQ_MOD := 256
  const WINDOW := 128
  const MAX_DATA_BYTES := 1023

  /** Forward step in the 8-bit sequence space. */
  function SeqAdd(s: int, offset: int): int {
    (s + offset) % SEQ_MOD
  }

  /** Forward distance in the 8-bit sequence space. */
  function SeqDist(from: int, to: int): int {
    (to - from) % SEQ_MOD
  }

  /** True if `s` lies in `[lwe, lwe + count)` modulo 256. */
  predicate SeqInWindow(s: int, lwe: int, count: int) {
    count > 0 && SeqDist(lwe, s) < count
  }

  /** The ring index of a sequence number. */
  function Slot(s: int): int {
    s % WINDOW
  }

  /** A DATA D_PDU; the byte string on the air is its encoding. */
  datatype DataFrame = DataFrame(seqNo: int, chunk: bytes, pduStart: bool, pduEnd: bool,
                                 inOrder: bool, dropPdu: bool, txUwe: bool, txLwe: bool)

  /** An ACK_ONLY D_PDU. */
  datatype AckFrame = AckFrame(rxLwe: int, selAcks: bytes)

  /** A C_PDU waiting in the transmit queue. */
  datatype Cpdu = Cpdu(payload: bytes, inOrder: bool)

  datatype TxState = Idle | Segment | Send | WaitAck | Retransmit

  datatype AckStatus = Pending | Acked | Nacked | SentWaitAck

  datatype RxStatus = Empty | Received | Error

  datatype TxSlot = TxSlot(seqNo: int, encoded: DataFrame, status: AckStatus, txTime: int, retx: int)

  datatype RxSlot = RxSlot(seqNo: int, data: bytes, status: RxStatus, pduStart: bool, pduEnd: bool)

  /** Timer and retry limits of the engine. */
  datatype Config = Config(retxTimeout: int, maxRetries: int)

  // ---- Absolute numbering -------------------------------------------------

  /** For numbers less than half the sequence space apart the modular window test is exact. */
  lemma WindowTestExact(s: int, lwe: int)
    requires lwe - WINDOW <= s < lwe + WINDOW
    ensures SeqInWindow(s % SEQ_MOD, lwe % SEQ_MOD, WINDOW) <==> lwe <= s
  {
    DistExact(lwe, s);
  }

  /** The 8-bit distance is the true distance, up to one wrap. */
  lemma DistExact(a: int, b: int)
    requires a - SEQ_MOD <= b < a + SEQ_MOD
    ensures SeqDist(a % SEQ_MOD, b % SEQ_MOD) == if b >= a then b - a else b - a + SEQ_MOD
  {
    assert (b % SEQ_MOD - a % SEQ_MOD) % SEQ_MOD == (b - a) % SEQ_MOD;
  }

  lemma AddExact(a: int, i: int)
    ensures SeqAdd(a % SEQ_MOD, i) == (a + i) % SEQ_MOD
  {
  }

  lemma SlotExact(a: int)
    ensures Slot(a % SEQ_MOD) == Slot(a)
  {
    var q, m := a / SEQ_MOD, a % SEQ_MOD;
    var p, n := m / WINDOW, m % WINDOW;
    assert a == WINDOW * (2 * q + p) + n;
  }

  /** A ring of 128 slots holds any 128 consecutive numbers without collision. */
  lemma SlotInjective(a: int, b: int)
    requires -WINDOW < a - b < WINDOW
    requires Slot(a) == Slot(b)
    ensures a == b
  {
  }

  /** Numbers that share both ring slot and 8-bit label within 256 are equal. */
  lemma LabelInjective(a: int, b: int)
    requires -SEQ_MOD < a - b < SEQ_MOD
    requires a % SEQ_MOD == b % SEQ_MOD
    ensures a == b
  {
  }
}

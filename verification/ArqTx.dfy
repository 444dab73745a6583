/** The transmit half of the engine, as functions of its state. */
module ArqTx {
  import opened Bits
  import opened Prelude
  import opened ArqTypes
  import opened Chunking

  /** Transmit fields of the engine. */
  datatype Tx = Tx(state: TxState, queue: seq<Cpdu>, lwe: int, count: nat, nextSeq: int, slots: map<int, TxSlot>)

  const FRESH_TX := Tx(Idle, [], 0, 0, 0, map[])

  /** What one engine step gives: the new state, at most one frame, and whether the link was declared failed. */
  datatype TxOut = TxOut(tx: Tx, frame: Option<DataFrame>, failed: bool)

  /** Sequence number at offset `i` of the transmit window. */
  function SeqAt(tx: Tx, i: int): int {
    SeqAdd(tx.lwe, i)
  }

  /** The slot at offset `i` exists and has status `st`. */
  predicate HasStatus(tx: Tx, i: int, st: AckStatus) {
    Slot(SeqAt(tx, i)) in tx.slots && tx.slots[Slot(SeqAt(tx, i))].status == st
  }

  /** The first offset from `i` on whose slot has status `st`, or the window length. */
  function FirstWith(tx: Tx, st: AckStatus, i: nat): (r: nat)
    requires i <= tx.count
    ensures i <= r <= tx.count
    ensures forall j :: i <= j < r ==> !HasStatus(tx, j, st)
    ensures r < tx.count ==> HasStatus(tx, r, st)
    decreases tx.count - i
  {
    if i == tx.count || HasStatus(tx, i, st) then i else FirstWith(tx, st, i + 1)
  }

  /** Replaces the slot at offset `i`. */
  function SetSlot(tx: Tx, i: int, slot: TxSlot): Tx {
    tx.(slots := tx.slots[Slot(SeqAt(tx, i)) := slot])
  }

  // ---- Segmentation -------------------------------------------------------

  /** The DATA frame of one piece of a C_PDU. */
  function FrameOf(chunks: seq<bytes>, i: nat, nextSeq: int, inOrder: bool, uwe: int, lwe: int): DataFrame
    requires i < |chunks|
  {
    var s := SeqAdd(nextSeq, i);
    DataFrame(s, chunks[i], i == 0, i == |chunks| - 1, inOrder, false, s == uwe, s == lwe)
  }

  /** All DATA frames of a C_PDU. */
  function FramesOf(p: Cpdu, nextSeq: int, uwe: int, lwe: int): seq<DataFrame> {
    var chunks := Chunks(p.payload, MAX_DATA_BYTES);
    seq(|chunks|, i requires 0 <= i < |chunks| => FrameOf(chunks, i, nextSeq, p.inOrder, uwe, lwe))
  }

  /** Sequence number of the last segment, computed from the length alone. */
  function LastSeq(p: Cpdu, nextSeq: int): int {
    SeqAdd(nextSeq, (|p.payload| + MAX_DATA_BYTES - 1) / MAX_DATA_BYTES - 1)
  }

  function FreshSlot(f: DataFrame, now: int): TxSlot {
    TxSlot(f.seqNo, f, Pending, now, 0)
  }

  /** Stores the frames, in order, each in the slot of its sequence number. */
  function Populate(slots: map<int, TxSlot>, frames: seq<DataFrame>, now: int): map<int, TxSlot> {
    if frames == [] then slots
    else
      var n := |frames| - 1;
      Populate(slots, frames[..n], now)[Slot(frames[n].seqNo) := FreshSlot(frames[n], now)]
  }

  /** Segments the head of the queue into the window. */
  function Segmented(tx: Tx, now: int): Tx
    requires tx.queue != []
  {
    var frames := FramesOf(tx.queue[0], tx.nextSeq, LastSeq(tx.queue[0], tx.nextSeq), tx.lwe);
    tx.(slots := Populate(tx.slots, frames, now), count := |frames|, state := Send)
  }

  // ---- The state machine --------------------------------------------------

  /** First transmission of the next PENDING frame. */
  function SendPhase(tx: Tx, now: int): TxOut {
    var i := FirstWith(tx, Pending, 0);
    if i < tx.count then
      var s := tx.slots[Slot(SeqAt(tx, i))];
      TxOut(SetSlot(tx, i, s.(status := SentWaitAck, txTime := now)), Some(s.encoded), false)
    else TxOut(tx.(state := WaitAck), None, false)
  }

  /** Retransmission of the next NACKED frame, or link failure when its retries are spent. */
  function RetransmitPhase(tx: Tx, now: int, cfg: Config): TxOut {
    var i := FirstWith(tx, Nacked, 0);
    if i < tx.count then
      var s := tx.slots[Slot(SeqAt(tx, i))];
      if s.retx + 1 > cfg.maxRetries then TxOut(FRESH_TX, None, true)
      else TxOut(SetSlot(tx, i, s.(status := SentWaitAck, txTime := now, retx := s.retx + 1)), Some(s.encoded), false)
    else TxOut(tx.(state := WaitAck), None, false)
  }

  /** Ring index `k` belongs to the window. */
  predicate InWindow(tx: Tx, k: int) {
    (k - tx.lwe) % WINDOW < tx.count
  }

  function TimedOut(s: TxSlot, now: int, cfg: Config): TxSlot {
    if s.status == SentWaitAck && now - s.txTime >= cfg.retxTimeout then s.(status := Nacked) else s
  }

  /** Marks as NACKED every frame of the window whose timer has run out. */
  function MarkTimeouts(tx: Tx, now: int, cfg: Config): Tx {
    tx.(slots := map k | k in tx.slots :: if InWindow(tx, k) then TimedOut(tx.slots[k], now, cfg) else tx.slots[k])
  }

  predicate AllAcked(tx: Tx) {
    forall i :: 0 <= i < tx.count ==> HasStatus(tx, i, Acked)
  }

  /** Closes a C_PDU whose frames are all acknowledged. */
  function Completed(tx: Tx): Tx
    requires tx.queue != []
  {
    var lwe := SeqAdd(tx.lwe, tx.count);
    Tx(Idle, tx.queue[1..], lwe, 0, lwe, map k | k in tx.slots && !InWindow(tx, k) :: tx.slots[k])
  }

  function WaitAckPhase(tx: Tx, now: int, cfg: Config): TxOut
    requires tx.queue != []
  {
    var sent := FirstWith(tx, SentWaitAck, 0) < tx.count;
    var marked := MarkTimeouts(tx, now, cfg);
    var nacked := FirstWith(marked, Nacked, 0) < tx.count;
    if nacked && !sent then RetransmitPhase(marked.(state := Retransmit), now, cfg)
    else if AllAcked(marked) then
      var next := Completed(marked);
      if next.queue == [] then TxOut(next, None, false) else SendPhase(Segmented(next, now), now)
    else TxOut(marked, None, false)
  }

  /** Between calls a C_PDU in progress is still at the head of the queue. */
  predicate TxWf(tx: Tx) {
    && (tx.state != Idle ==> tx.queue != [])
    && (forall p :: p in tx.queue ==> p.payload != [])
  }

  /** One pass of the transmit state machine. */
  function TxSingle(tx: Tx, now: int, cfg: Config): TxOut
    requires TxWf(tx)
  {
    match tx.state
    case Idle => if tx.queue == [] then TxOut(tx, None, false) else SendPhase(Segmented(tx, now), now)
    case Segment => SendPhase(Segmented(tx, now), now)
    case Send => SendPhase(tx, now)
    case Retransmit => RetransmitPhase(tx, now, cfg)
    case WaitAck => WaitAckPhase(tx, now, cfg)
  }

  // ---- One transmit opportunity -------------------------------------------

  /** All frames of one call: single passes until one gives no frame. */
  datatype TxBurst = TxBurst(tx: Tx, frames: seq<DataFrame>, failed: bool)

  /** The status that the present phase looks for. */
  function Wanted(tx: Tx): AckStatus {
    if tx.state == Retransmit then Nacked else Pending
  }

  function Left(tx: Tx): nat {
    tx.count - FirstWith(tx, Wanted(tx), 0)
  }

  predicate Bursting(tx: Tx) {
    tx.state == Send || tx.state == Retransmit
  }

  /** A pass that gives a frame leaves the engine in a sending phase, with less of the window left to scan. */
  lemma PassProgress(tx: Tx, now: int, cfg: Config)
    requires TxWf(tx) && TxSingle(tx, now, cfg).frame.Some?
    ensures var tx1 := TxSingle(tx, now, cfg).tx;
      && Bursting(tx1) && TxWf(tx1)
      && (Bursting(tx) ==> Left(tx1) < Left(tx) && tx1.count == tx.count && tx1.state == tx.state)
  {
    if Bursting(tx) {
      var i := FirstWith(tx, Wanted(tx), 0);
      var tx1 := TxSingle(tx, now, cfg).tx;
      var k := FirstWith(tx1, Wanted(tx), 0);
      assert k < i ==> !HasStatus(tx, k, Wanted(tx));
      assert k < i ==> !HasStatus(tx1, k, Wanted(tx));
      assert !HasStatus(tx1, i, Wanted(tx));
    }
  }

  /** The result of one call of the transmit machine; it always ends. */
  function Burst(tx: Tx, now: int, cfg: Config): TxBurst
    requires TxWf(tx)
    decreases !Bursting(tx), Left(tx)
  {
    var out := TxSingle(tx, now, cfg);
    match out.frame
    case None => TxBurst(out.tx, [], out.failed)
    case Some(f) =>
      PassProgress(tx, now, cfg);
      var rest := Burst(out.tx, now, cfg);
      TxBurst(rest.tx, [f] + rest.frames, rest.failed)
  }

  // ---- Acknowledgements ---------------------------------------------------

  /** Bit `k` of a bitmap, least significant bit of the first byte first. */
  predicate BitAt(bitmap: bytes, k: int)
    requires 0 <= k < 8 * |bitmap|
  {
    Bit(bitmap[k / 8], k % 8)
  }

  /** What the bitmap, from bit `k` on, says of each sequence number of the window; the first number outside ends it. */
  function ParseSelectiveAck(peerLwe: int, bitmap: bytes, lwe: int, count: int, k: nat): map<int, bool>
    requires k <= 8 * |bitmap|
    decreases 8 * |bitmap| - k
  {
    if k == 8 * |bitmap| then map[]
    else
      var s := SeqAdd(peerLwe, 1 + k);
      if !SeqInWindow(s, lwe, count) then map[]
      else map[s := BitAt(bitmap, k)] + ParseSelectiveAck(peerLwe, bitmap, lwe, count, k + 1)
  }

  /** What a parsed bitmap does to one slot. */
  function Marked(s: TxSlot, idx: int, acks: map<int, bool>): TxSlot {
    if s.seqNo in acks && Slot(s.seqNo) == idx then
      if acks[s.seqNo] then s.(status := Acked)
      else if s.status != Pending then s.(status := Nacked)
      else s
    else s
  }

  /** The frames at the first `advance` offsets of the window become ACKED. */
  function AckPrefix(tx: Tx, advance: nat): map<int, TxSlot> {
    map k | k in tx.slots ::
      if Slot(tx.slots[k].seqNo) == k && SeqDist(tx.lwe, tx.slots[k].seqNo) < advance
      then tx.slots[k].(status := Acked) else tx.slots[k]
  }

  /** Receipt of an ACK: bitmap first, then the peer's lower window edge. */
  function OnAck(tx: Tx, a: AckFrame): Tx {
    var acks := ParseSelectiveAck(a.rxLwe, a.selAcks, tx.lwe, tx.count, 0);
    var tx1 := tx.(slots := map k | k in tx.slots :: Marked(tx.slots[k], k, acks));
    var advance := SeqDist(tx.lwe, a.rxLwe);
    if 0 < advance <= tx.count then
      tx1.(slots := AckPrefix(tx1, advance), lwe := SeqAdd(tx.lwe, advance), count := tx.count - advance)
    else tx1
  }
}

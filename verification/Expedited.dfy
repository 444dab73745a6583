/** Expedited data: stop-and-wait over the segments of a C_PDU, as functions and as a mutable class. */
module Expedited {
  import opened Chunking
  import opened Prelude

  const FSN_MOD := 256
  const ID_MOD := 16
  const MAX_DATA := 1023

  /** An EXPEDITED_DATA_ONLY D_PDU. */
  datatype Frame = Frame(seqNo: int, cpduId: int, pduStart: bool, pduEnd: bool, data: bytes)

  datatype Config = Config(timeout: int, maxRetries: int)

  /** The segment that awaits its acknowledgement. */
  datatype Waiting = Waiting(frame: Frame, sentAt: int, retx: int)

  /** Transmit fields: C_PDUs still queued, the numbers in use, the segment in flight, and those behind it. */
  datatype Tx = Tx(queue: seq<bytes>, cpduId: int, frameSeq: int, waiting: Option<Waiting>, segments: seq<Frame>)

  /** Receive fields; `delivered` is what the callback was given. */
  datatype Rx = Rx(parts: seq<bytes>, cpduId: int, delivered: seq<bytes>)

  const FRESH_TX := Tx([], 0, 0, None, [])
  const FRESH_RX := Rx([], -1, [])

  function OnSubmit(tx: Tx, payload: bytes): Tx {
    if payload == [] then tx else tx.(queue := tx.queue + [payload])
  }

  /** Segment `i` of a C_PDU, numbered from `seqNo`. */
  function SegmentOf(payload: bytes, i: nat, seqNo: int, cpduId: int): Frame
    requires i < |Chunks(payload, MAX_DATA)|
  {
    var cs := Chunks(payload, MAX_DATA);
    Frame((seqNo + i) % FSN_MOD, cpduId, i == 0, i + 1 == |cs|, cs[i])
  }

  function Segments(payload: bytes, seqNo: int, cpduId: int): (fs: seq<Frame>)
    ensures |fs| == |Chunks(payload, MAX_DATA)|
  {
    seq(|Chunks(payload, MAX_DATA)|,
        i requires 0 <= i < |Chunks(payload, MAX_DATA)| => SegmentOf(payload, i, seqNo, cpduId))
  }

  /** A C_PDU is cut into as few segments of 1023 octets as hold it; only the last one can be shorter. */
  lemma SegmentSizes(payload: bytes, seqNo: int, cpduId: int)
    ensures |Segments(payload, seqNo, cpduId)| == (|payload| + 1022) / 1023
    ensures forall i :: 0 <= i < |Segments(payload, seqNo, cpduId)| - 1 ==>
      |Segments(payload, seqNo, cpduId)[i].data| == 1023
  {
    hide Chunks;
    var fs := Segments(payload, seqNo, cpduId);
    ChunkCount(payload, MAX_DATA);
    forall i | 0 <= i < |fs| - 1 ensures |fs[i].data| == 1023 {
      ChunkAt(payload, MAX_DATA, i);
    }
  }

  datatype TxResult = TxResult(tx: Tx, frame: Option<Frame>)

  /** One round of the transmit side, without the acknowledgement that goes first. */
  function OnRound(tx: Tx, now: int, cfg: Config): TxResult {
    match tx.waiting
    case Some(w) =>
      if now - w.sentAt < cfg.timeout then TxResult(tx, None)
      else if w.retx + 1 > cfg.maxRetries then TxResult(GivenUp(tx), None)
      else TxResult(tx.(waiting := Some(w.(sentAt := now, retx := w.retx + 1))), Some(w.frame))
    case None =>
      var tx1 := if tx.segments == [] && tx.queue != [] then Segmented(tx) else tx;
      if tx1.segments == [] then TxResult(tx1, None)
      else TxResult(tx1.(waiting := Some(Waiting(tx1.segments[0], now, 0)), segments := tx1.segments[1..]),
                    Some(tx1.segments[0]))
  }

  /** The next C_PDU is cut into segments under the current numbers. */
  function Segmented(tx: Tx): Tx
    requires tx.queue != []
  {
    tx.(queue := tx.queue[1..], segments := Segments(tx.queue[0], tx.frameSeq, tx.cpduId))
  }

  /** The C_PDU in flight is dropped; its remaining frame numbers are passed over. */
  function GivenUp(tx: Tx): Tx {
    Tx(tx.queue, (tx.cpduId + 1) % ID_MOD, (tx.frameSeq + 1 + |tx.segments|) % FSN_MOD, None, [])
  }

  function OnAck(tx: Tx, rxLwe: int): Tx {
    if tx.waiting.Some? && rxLwe == (tx.frameSeq + 1) % FSN_MOD then
      tx.(waiting := None, frameSeq := (tx.frameSeq + 1) % FSN_MOD,
          cpduId := if tx.segments == [] then (tx.cpduId + 1) % ID_MOD else tx.cpduId)
    else tx
  }

  /** A segment with a good check: it starts, extends or ends a C_PDU, or it is an orphan. */
  function OnData(rx: Rx, f: Frame): Rx {
    if !f.pduStart && (f.cpduId != rx.cpduId || rx.parts == []) then rx
    else
      var parts := (if f.pduStart then [] else rx.parts) + [f.data];
      var id := if f.pduStart then f.cpduId else rx.cpduId;
      if f.pduEnd then Rx([], id, rx.delivered + [Join(parts)]) else Rx(parts, id, rx.delivered)
  }

  /** What the receiver answers: the number after the one received. */
  function AckOf(f: Frame): int { (f.seqNo + 1) % FSN_MOD }

  /**
    * Receiving the segment just received once more changes nothing exactly when the segment is the first or the last
    * of a longer C_PDU. A C_PDU of one segment is delivered twice, and a middle segment is put in twice.
    */
  lemma RepeatHarmlessIff(rx: Rx, f: Frame)
    requires f.pduStart || (f.cpduId == rx.cpduId && rx.parts != [])
    ensures OnData(OnData(rx, f), f) == OnData(rx, f) <==> f.pduStart != f.pduEnd
  {
    var rx1 := OnData(rx, f);
    if f.pduStart && f.pduEnd {
      assert |OnData(rx1, f).delivered| == |rx1.delivered| + 1;
    } else if !f.pduStart && !f.pduEnd {
      assert |OnData(rx1, f).parts| == |rx1.parts| + 1;
    }
  }

  // ---- The engine ---------------------------------------------------------

  class ExpeditedEngine {
    const cfg: Config
    var txQueue: seq<bytes>
    var cpduId: int
    var txFrameSeq: int
    var rxFrameSeq: int
    var waitingAck: bool
    var current: Option<Frame>
    var txTime: int
    var retxCount: int
    var txSegments: seq<Frame>
    var rxParts: seq<bytes>
    var rxCpduId: int
    var pendingAck: Option<int>
    var delivered: seq<bytes>

    ghost predicate Valid()
      reads this
    {
      waitingAck == current.Some?
    }

    ghost function TxView(): Tx
      reads this
    {
      Tx(txQueue, cpduId, txFrameSeq,
         if waitingAck && current.Some? then Some(Waiting(current.value, txTime, retxCount)) else None, txSegments)
    }

    ghost function RxView(): Rx
      reads this
    {
      Rx(rxParts, rxCpduId, delivered)
    }

    constructor (c: Config)
      ensures Valid() && cfg == c && TxView() == FRESH_TX && RxView() == FRESH_RX && pendingAck == None
    {
      cfg := c;
      txQueue, cpduId, txFrameSeq, rxFrameSeq := [], 0, 0, 0;
      waitingAck, current, txTime, retxCount := false, None, 0, 0;
      txSegments, rxParts, rxCpduId := [], [], -1;
      pendingAck, delivered := None, [];
    }

    method SubmitCpdu(payload: bytes)
      requires Valid()
      modifies this
      ensures Valid() && TxView() == OnSubmit(old(TxView()), payload)
      ensures RxView() == old(RxView()) && pendingAck == old(pendingAck)
    {
      if payload == [] { return; }
      txQueue := txQueue + [payload];
    }

    method SegmentCpdu(payload: bytes) returns (segments: seq<Frame>)
      ensures segments == Segments(payload, txFrameSeq, cpduId)
    {
      hide Chunks;
      segments := [];
      var total := |payload|;
      var offset, i := 0, 0;
      var seqNo := txFrameSeq % FSN_MOD;
      ghost var goal := Segments(payload, txFrameSeq, cpduId);
      while offset < total
        invariant 0 <= i <= |goal| && |segments| == i && seqNo == (txFrameSeq + i) % FSN_MOD
        invariant offset == OffsetOf(payload, i)
        invariant forall k :: 0 <= k < i ==> segments[k] == goal[k]
        decreases total - offset
      {
        OneSegment(payload, i, txFrameSeq, cpduId);
        var end := if offset + MAX_DATA < total then offset + MAX_DATA else total;
        var chunk := payload[offset..end];
        segments := segments + [Frame(seqNo, cpduId, offset == 0, offset + |chunk| >= total, chunk)];
        assert (seqNo + 1) % FSN_MOD == (txFrameSeq + (i + 1)) % FSN_MOD;
        seqNo := (seqNo + 1) % FSN_MOD;
        offset := offset + |chunk|;
        i := i + 1;
      }
      assert i == |goal|;
    }

    /** One round: the acknowledgement first, then a retransmission or the next segment. */
    method ProcessTxSingle(now: int) returns (ack: Option<int>, frame: Option<Frame>)
      requires Valid()
      modifies this
      ensures Valid() && RxView() == old(RxView())
      ensures old(pendingAck).Some? ==>
        ack == old(pendingAck) && frame == None && pendingAck == None && TxView() == old(TxView())
      ensures old(pendingAck) == None ==>
        ack == None && pendingAck == None && TxResult(TxView(), frame) == OnRound(old(TxView()), now, cfg)
    {
      hide Segments;
      ack, frame := None, None;
      if pendingAck.Some? {
        ack := pendingAck;
        pendingAck := None;
        return;
      }
      if waitingAck && current.Some? {
        if now - txTime >= cfg.timeout {
          retxCount := retxCount + 1;
          if retxCount > cfg.maxRetries {
            txFrameSeq := (txFrameSeq + 1 + |txSegments|) % FSN_MOD;
            cpduId := (cpduId + 1) % ID_MOD;
            txSegments := [];
            waitingAck := false;
            current := None;
            return;
          }
          txTime := now;
          frame := current;
        }
        return;
      }
      if !waitingAck && txSegments == [] && txQueue != [] {
        var payload := txQueue[0];
        txQueue := txQueue[1..];
        txSegments := SegmentCpdu(payload);
      }
      if !waitingAck && txSegments != [] {
        current := Some(txSegments[0]);
        frame := current;
        txSegments := txSegments[1..];
        waitingAck := true;
        txTime := now;
        retxCount := 0;
      }
    }

    /** A received data segment, with the outcome of its data check. */
    method ProcessRxData(f: Frame, dataCrcOk: Option<bool>)
      requires Valid()
      modifies this
      ensures Valid() && TxView() == old(TxView())
      ensures if dataCrcOk == Some(false) then RxView() == old(RxView()) && pendingAck == old(pendingAck)
              else RxView() == OnData(old(RxView()), f) && pendingAck == Some(AckOf(f))
    {
      if dataCrcOk == Some(false) { return; }
      var skipData := false;
      if f.pduStart {
        rxParts := [];
        rxCpduId := f.cpduId;
      } else if f.cpduId != rxCpduId || rxParts == [] {
        skipData := true;
      }
      if !skipData {
        rxParts := rxParts + [f.data];
        if f.pduEnd {
          var payload := Join(rxParts);
          rxParts := [];
          delivered := delivered + [payload];
        }
      }
      var nextExpected := (f.seqNo + 1) % FSN_MOD;
      pendingAck := Some(nextExpected);
      rxFrameSeq := nextExpected;
    }

    method ProcessRxAck(rxLwe: int)
      requires Valid()
      modifies this
      ensures Valid() && TxView() == OnAck(old(TxView()), rxLwe)
      ensures RxView() == old(RxView()) && pendingAck == old(pendingAck)
    {
      if waitingAck && rxLwe == (txFrameSeq + 1) % FSN_MOD {
        waitingAck := false;
        current := None;
        txFrameSeq := (txFrameSeq + 1) % FSN_MOD;
        if txSegments == [] {
          cpduId := (cpduId + 1) % ID_MOD;
        }
      }
    }

    /** Rounds until one sends nothing. With a positive timeout one data frame at most goes out. */
    method ProcessTx(now: int) returns (acks: seq<int>, burst: seq<Frame>)
      requires Valid()
      modifies this
      ensures Valid() && RxView() == old(RxView()) && pendingAck == None
      ensures acks == if old(pendingAck).Some? then [old(pendingAck).value] else []
      ensures cfg.timeout > 0 ==>
        var r := OnRound(old(TxView()), now, cfg);
        TxView() == r.tx && burst == if r.frame.Some? then [r.frame.value] else []
    {
      acks, burst := [], [];
      ghost var start := TxView();
      var ack, frame := ProcessTxSingle(now);
      while ack.Some? || frame.Some?
        invariant Valid() && RxView() == old(RxView())
        invariant ack.Some? ==>
          frame == None && burst == [] && acks == [] && TxView() == start && ack == old(pendingAck)
        invariant pendingAck == None
        invariant ack == None ==> acks == if old(pendingAck).Some? then [old(pendingAck).value] else []
        invariant frame.Some? ==> waitingAck && txTime == now && retxCount <= Limit(cfg.maxRetries)
        invariant ack == None && cfg.timeout > 0 ==>
          var r := OnRound(start, now, cfg);
          TxView() == r.tx
            && burst + (if frame.Some? then [frame.value] else []) == (if r.frame.Some? then [r.frame.value] else [])
        decreases if ack.Some? then 2 else if frame.Some? then 1 else 0, Limit(cfg.maxRetries) - retxCount
      {
        if ack.Some? { acks := acks + [ack.value]; }
        if frame.Some? { burst := burst + [frame.value]; }
        ack, frame := ProcessTxSingle(now);
      }
    }
  }

  function Limit(n: int): int { if n < 0 then 0 else n }

  /** Where segment `i` starts; the length of the C_PDU when there is no such segment. */
  function OffsetOf(p: bytes, i: nat): (o: nat)
    ensures i < |Chunks(p, MAX_DATA)| ==> o < |p|
  {
    if i < |Chunks(p, MAX_DATA)| then
      ChunkAt(p, MAX_DATA, i);
      i * MAX_DATA
    else |p|
  }

  lemma OneSegment(p: bytes, i: nat, seqNo: int, cpduId: int)
    requires i <= |Chunks(p, MAX_DATA)| && OffsetOf(p, i) < |p|
    ensures i < |Chunks(p, MAX_DATA)|
    ensures var o := OffsetOf(p, i);
      var end := if o + MAX_DATA < |p| then o + MAX_DATA else |p|;
      Segments(p, seqNo, cpduId)[i] == Frame((seqNo + i) % FSN_MOD, cpduId, o == 0, end >= |p|, p[o..end])
      && OffsetOf(p, i + 1) == end
  {
    ChunkAt(p, MAX_DATA, i);
    ChunksPartition(p, MAX_DATA);
  }
}

/** The ARQ engine with its mutable fields; every method is proved to compute the functions of ArqTx and ArqRx. */
module ArqEngineModel {
  import opened Bits
  import opened Prelude
  import opened ArqTypes
  import opened Chunking
  import opened ArqTx
  import opened ArqRx
  import opened ArqLoops

  /** A D_PDU handed to the modem. */
  datatype Frame = DataOut(d: DataFrame) | AckOut(a: AckFrame)

  function FrameOut(f: Option<DataFrame>): Option<Frame> {
    match f
    case None => None
    case Some(d) => Some(DataOut(d))
  }

  function DataOuts(frames: seq<DataFrame>): seq<Frame> {
    seq(|frames|, i requires 0 <= i < |frames| => DataOut(frames[i]))
  }

  /** The ACK that heads a burst: a new one when frames have arrived since the last call, else one left over. */
  function AcksDue(pending: Option<AckFrame>, rx: Rx): seq<Frame> {
    if rx.ackDirty then [AckOut(AckOf(rx))]
    else if pending.Some? then [AckOut(pending.value)]
    else []
  }

  /** The receive fields after a reset; the slots keep their labels. */
  function Emptied(rx: Rx): Rx {
    Rx(0, 0, seq(WINDOW, k requires 0 <= k < WINDOW => RxSlot(rx.ring[k].seqNo, [], Empty, false, false)), [], false)
  }

  /** A burst with frames already sent in front. */
  function Prefixed(sent: seq<DataFrame>, b: TxBurst): TxBurst {
    b.(frames := sent + b.frames)
  }

  lemma BurstStep(sent: seq<DataFrame>, tx: Tx, now: int, cfg: Config)
    requires TxWf(tx) && TxSingle(tx, now, cfg).frame.Some?
    ensures var out := TxSingle(tx, now, cfg);
      && TxWf(out.tx) && !out.failed
      && Prefixed(sent, Burst(tx, now, cfg)) == Prefixed(sent + [out.frame.value], Burst(out.tx, now, cfg))
  {
    var out := TxSingle(tx, now, cfg);
    PassProgress(tx, now, cfg);
    var rest := Burst(out.tx, now, cfg).frames;
    assert sent + ([out.frame.value] + rest) == sent + [out.frame.value] + rest;
  }

  lemma DataOutsSnoc(frames: seq<DataFrame>, f: DataFrame)
    ensures DataOuts(frames + [f]) == DataOuts(frames) + [DataOut(f)]
  {
  }

  lemma FreshIsValid()
    ensures TxWf(FRESH_TX) && SlotsLabelled(FRESH_TX.slots)
  {
  }

  lemma RunUnfold(ring: RxRing, lwe: int, i: nat)
    requires i <= WINDOW
    ensures RunLength(ring, lwe, i) ==
      if i < WINDOW && Has(ring, SeqAdd(lwe, i)) then RunLength(ring, lwe, i + 1) else i
  {
    hide Has;
  }

  /** A step of the search back for the start of a C_PDU. */
  lemma SearchStep(ring: RxRing, s: int, n: nat, start: int)
    requires n < WINDOW && 0 <= start < SEQ_MOD
    requires StartBack(ring, s, WINDOW) == Later(n, StartBack(ring, start, WINDOW - n))
    ensures !Has(ring, start) ==> StartBack(ring, s, WINDOW) == None
    ensures Has(ring, start) && ring[Slot(start)].pduStart ==> StartBack(ring, s, WINDOW) == Some(n)
    ensures Has(ring, start) && !ring[Slot(start)].pduStart ==>
      StartBack(ring, s, WINDOW) == Later(n + 1, StartBack(ring, SeqAdd(start, SEQ_MOD - 1), WINDOW - (n + 1)))
  {
    hide *;
    BackUnfold(ring, start, WINDOW - n);
    LaterTwice(n, StartBack(ring, SeqAdd(start, SEQ_MOD - 1), WINDOW - n - 1));
  }

  lemma LaterTwice(n: nat, found: Option<nat>)
    ensures Later(n, Later(1, found)) == Later(n + 1, found)
    ensures Later(n, None) == None && Later(n, Some(0)) == Some(n)
  {
  }

  lemma BackUnfold(ring: RxRing, start: int, fuel: nat)
    requires fuel > 0
    ensures StartBack(ring, start, fuel) ==
      if !Has(ring, start) then None
      else if ring[Slot(start)].pduStart then Some(0)
      else Later(1, StartBack(ring, SeqAdd(start, SEQ_MOD - 1), fuel - 1))
  {
    hide Has, Slot, SeqAdd;
  }

  class ArqEngine {
    const cfg: Config
    var txState: TxState
    var txQueue: seq<Cpdu>
    var txLwe: int
    var txCount: nat
    var nextSeq: int
    var txWindow: map<int, TxSlot>
    var pendingAck: Option<AckFrame>
    var ackDirty: bool
    var rxLwe: int
    var deliverLwe: int
    const rxWindow: array<RxSlot>
    var delivered: seq<bytes>
    var linkFailures: nat

    ghost predicate Valid()
      reads this, rxWindow
    {
      && rxWindow.Length == WINDOW
      && 0 <= txLwe < SEQ_MOD && 0 <= nextSeq < SEQ_MOD
      && 0 <= rxLwe < SEQ_MOD && 0 <= deliverLwe < SEQ_MOD
      && TxWf(TxView())
      && SlotsLabelled(txWindow)
    }

    ghost function TxView(): Tx
      reads this
    {
      Tx(txState, txQueue, txLwe, txCount, nextSeq, txWindow)
    }

    ghost function RxView(): Rx
      requires rxWindow.Length == WINDOW
      reads this, rxWindow
    {
      Rx(rxLwe, deliverLwe, rxWindow[..], delivered, ackDirty)
    }

    constructor (cfg: Config)
      ensures Valid() && fresh(rxWindow)
      ensures this.cfg == cfg && TxView() == FRESH_TX && RxView() == FreshRx()
      ensures pendingAck == None && linkFailures == 0
    {
      this.cfg := cfg;
      txState, txQueue, txLwe, txCount, nextSeq, txWindow := Idle, [], 0, 0, 0, map[];
      pendingAck, ackDirty, rxLwe, deliverLwe, delivered, linkFailures := None, false, 0, 0, [], 0;
      rxWindow := new RxSlot[WINDOW](_ => EMPTY_SLOT);
      new;
      assert rxWindow[..] == EmptyRing();
    }

    /** Enqueues a C_PDU; an empty payload is ignored. */
    method SubmitCpdu(payload: bytes, inOrder: bool)
      requires Valid()
      modifies this`txQueue
      ensures Valid()
      ensures txQueue == old(txQueue) + if payload == [] then [] else [Cpdu(payload, inOrder)]
    {
      if payload == [] { return; }
      txQueue := txQueue + [Cpdu(payload, inOrder)];
    }

    /** Clears both windows and the queue. */
    method ResetFull()
      requires rxWindow.Length == WINDOW
      modifies this, rxWindow
      ensures Valid() && TxView() == FRESH_TX && pendingAck == None && linkFailures == old(linkFailures)
      ensures RxView() == Emptied(old(RxView()))
    {
      hide TxWf, SlotsLabelled;
      ghost var ring := Emptied(RxView()).ring;
      FreshIsValid();
      txQueue, txState, txLwe, txCount, nextSeq, txWindow := [], Idle, 0, 0, 0, map[];
      pendingAck, ackDirty, rxLwe, deliverLwe := None, false, 0, 0;
      EmptySlots();
      delivered := [];
      assert rxWindow[..] == ring;
    }

    method EmptySlots()
      requires rxWindow.Length == WINDOW
      modifies rxWindow
      ensures forall k :: 0 <= k < WINDOW ==>
        rxWindow[k] == RxSlot(old(rxWindow[k].seqNo), [], Empty, false, false)
    {
      var k := 0;
      while k < rxWindow.Length
        invariant 0 <= k <= WINDOW
        invariant forall j :: 0 <= j < k ==> rxWindow[j] == RxSlot(old(rxWindow[j].seqNo), [], Empty, false, false)
        invariant forall j :: k <= j < WINDOW ==> rxWindow[j] == old(rxWindow[j])
      {
        rxWindow[k] := RxSlot(rxWindow[k].seqNo, [], Empty, false, false);
        k := k + 1;
      }
    }

    /** All frames of one transmit opportunity: the ACK that is due, if any, then the data burst. */
    method ProcessTx(now: int) returns (burst: seq<Frame>)
      requires Valid()
      modifies this, rxWindow
      ensures Valid() && pendingAck == None
      ensures var b := Burst(old(TxView()), now, cfg);
        && burst == AcksDue(old(pendingAck), old(RxView())) + DataOuts(b.frames)
        && TxView() == b.tx
        && linkFailures == old(linkFailures) + (if b.failed then 1 else 0)
        && RxView() == if b.failed then Emptied(old(RxView())) else old(RxView()).(ackDirty := false)
    {
      if ackDirty {
        var bitmap := BuildBitmap(rxLwe, rxWindow);
        pendingAck := Some(AckFrame(rxLwe, bitmap));
        ackDirty := false;
      }
      ghost var tx0 := TxView();
      ghost var due := AcksDue(old(pendingAck), old(RxView()));
      burst := [];
      if pendingAck.Some? {
        var ack := ProcessTxSingle(now);
        burst := [ack.value];
      }
      var frames := ProcessTxData(now);
      burst := burst + frames;
    }

    /** Single passes of the transmit state machine until one gives no frame. */
    method ProcessTxData(now: int) returns (burst: seq<Frame>)
      requires Valid() && pendingAck == None
      modifies this, rxWindow
      ensures Valid() && pendingAck == None
      ensures var b := Burst(old(TxView()), now, cfg);
        && burst == DataOuts(b.frames)
        && TxView() == b.tx
        && linkFailures == old(linkFailures) + (if b.failed then 1 else 0)
        && RxView() == if b.failed then Emptied(old(RxView())) else old(RxView())
    {
      ghost var before, sent: seq<DataFrame> := TxView(), [];
      burst := [];
      var single := ProcessTxSingle(now);
      while single.Some?
        invariant Valid() && pendingAck == None && TxWf(before)
        invariant single == FrameOut(TxSingle(before, now, cfg).frame)
        invariant TxView() == TxSingle(before, now, cfg).tx
        invariant burst == DataOuts(sent)
        invariant Burst(old(TxView()), now, cfg) == Prefixed(sent, Burst(before, now, cfg))
        invariant linkFailures == old(linkFailures) + (if TxSingle(before, now, cfg).failed then 1 else 0)
        invariant RxView() == if TxSingle(before, now, cfg).failed then Emptied(old(RxView())) else old(RxView())
        decreases !Bursting(before), Left(before)
      {
        PassProgress(before, now, cfg);
        BurstStep(sent, before, now, cfg);
        burst := burst + [single.value];
        DataOutsSnoc(sent, TxSingle(before, now, cfg).frame.value);
        sent := sent + [TxSingle(before, now, cfg).frame.value];
        before := TxView();
        single := ProcessTxSingle(now);
      }
      assert sent + [] == sent;
    }

    /** One D_PDU, or none: the pending ACK first, then the transmit state machine. */
    method ProcessTxSingle(now: int) returns (single: Option<Frame>)
      requires Valid()
      modifies this, rxWindow
      ensures Valid() && pendingAck == None
      ensures old(pendingAck).Some? ==>
        && single == Some(AckOut(old(pendingAck).value)) && TxView() == old(TxView())
        && RxView() == old(RxView()) && linkFailures == old(linkFailures)
      ensures old(pendingAck) == None ==>
        var out := TxSingle(old(TxView()), now, cfg);
        && single == FrameOut(out.frame) && TxView() == out.tx
        && linkFailures == old(linkFailures) + (if out.failed then 1 else 0)
        && RxView() == (if out.failed then Emptied(old(RxView())) else old(RxView()))
      decreases txState == WaitAck, 1
    {
      hide WaitAckPhase, RetransmitPhase, Populate;
      if pendingAck.Some? {
        single := Some(AckOut(pendingAck.value));
        pendingAck := None;
        return;
      }
      if txState == Idle {
        if txQueue == [] { return None; }
        txState := Segment;
      }
      if txState == Segment { SegmentNext(now); }
      if txState == Send {
        single := SendOne(now);
        return;
      }
      if txState == Retransmit {
        single := RetransmitOne(now);
        return;
      }
      single := CheckAcks(now);
    }

    /** Segments the head of the queue into the transmit window. */
    method SegmentNext(now: int)
      requires Valid() && txState == Segment
      modifies this`txState, this`txWindow, this`txCount
      ensures Valid() && TxView() == Segmented(old(TxView()), now)
    {
      var p := txQueue[0];
      var frames := SegmentCpdu(p, nextSeq, LastSeq(p, nextSeq), txLwe);
      PopulateLabelled(txWindow, frames, now);
      txWindow := StoreAll(txWindow, frames, now);
      txCount := |frames|;
      txState := Send;
    }

    /** First transmission of the next frame that is PENDING. */
    method SendOne(now: int) returns (single: Option<Frame>)
      requires Valid() && txState == Send
      modifies this`txState, this`txWindow
      ensures Valid()
      ensures var out := SendPhase(old(TxView()), now);
        single == FrameOut(out.frame) && TxView() == out.tx
    {
      var i := ScanFor(TxView(), txWindow, txLwe, txCount, Pending);
      if i == txCount {
        txState := WaitAck;
        return None;
      }
      var idx := Slot(SeqAdd(txLwe, i));
      var slot := txWindow[idx];
      txWindow := txWindow[idx := slot.(status := SentWaitAck, txTime := now)];
      return Some(DataOut(slot.encoded));
    }

    /** Retransmission of the next NACKED frame; a frame out of retries brings the link down. */
    method RetransmitOne(now: int) returns (single: Option<Frame>)
      requires Valid() && txState == Retransmit && pendingAck == None
      modifies this, rxWindow
      ensures Valid() && pendingAck == None
      ensures var out := RetransmitPhase(old(TxView()), now, cfg);
        && single == FrameOut(out.frame) && TxView() == out.tx
        && linkFailures == old(linkFailures) + (if out.failed then 1 else 0)
        && RxView() == (if out.failed then Emptied(old(RxView())) else old(RxView()))
    {
      var i := ScanFor(TxView(), txWindow, txLwe, txCount, Nacked);
      if i == txCount {
        txState := WaitAck;
        return None;
      }
      var idx := Slot(SeqAdd(txLwe, i));
      var slot := txWindow[idx];
      if slot.retx + 1 > cfg.maxRetries {
        linkFailures := linkFailures + 1;
        ResetFull();
        return None;
      }
      txWindow := txWindow[idx := slot.(status := SentWaitAck, txTime := now, retx := slot.retx + 1)];
      return Some(DataOut(slot.encoded));
    }

    /** WAIT_ACK: checks timers, then goes on to retransmission, to the next C_PDU, or nowhere. */
    method CheckAcks(now: int) returns (single: Option<Frame>)
      requires Valid() && txState == WaitAck && pendingAck == None
      modifies this, rxWindow
      ensures Valid() && pendingAck == None
      ensures var out := WaitAckPhase(old(TxView()), now, cfg);
        && single == FrameOut(out.frame) && TxView() == out.tx
        && linkFailures == old(linkFailures) + (if out.failed then 1 else 0)
        && RxView() == (if out.failed then Emptied(old(RxView())) else old(RxView()))
      decreases true, 0
    {
      hide RetransmitPhase, SendPhase, HasStatus, Segmented;
      var slots, hasSentWait, hasNacked := ScanTimeouts(TxView(), txWindow, txLwe, txCount, now, cfg);
      txWindow := slots;
      ghost var marked := TxView();
      assert marked == MarkTimeouts(old(TxView()), now, cfg);
      if hasNacked && !hasSentWait {
        txState := Retransmit;
        single := ProcessTxSingle(now);
        return;
      }
      var allAcked := ScanAllAcked(TxView(), txWindow, txLwe, txCount);
      if allAcked {
        CloseCpdu();
        single := ProcessTxSingle(now);
        return;
      }
      return None;
    }

    /** Drops an acknowledged C_PDU from the queue and moves the window past it. */
    method CloseCpdu()
      requires Valid() && txState == WaitAck
      modifies this`txState, this`txWindow, this`txCount, this`txLwe, this`nextSeq, this`txQueue
      ensures Valid() && TxView() == Completed(old(TxView()))
    {
      txWindow := PopWindow(TxView(), txWindow, txLwe, txCount);
      txLwe := SeqAdd(txLwe, txCount);
      nextSeq := txLwe;
      txCount := 0;
      txQueue := txQueue[1..];
      txState := Idle;
    }

    // ---- Receive ------------------------------------------------------------

    /** A received DATA frame, with the verdict on its payload CRC. */
    method ProcessRxData(f: DataFrame, crcBad: bool)
      requires Valid() && 0 <= f.seqNo < SEQ_MOD
      modifies this`rxLwe, this`deliverLwe, this`delivered, this`ackDirty, rxWindow
      ensures Valid()
      ensures RxView() == OnData(old(RxView()), f, crcBad)
    {
      if !SeqInWindow(f.seqNo, rxLwe, WINDOW) {
        ackDirty := true;
        return;
      }
      var idx := Slot(f.seqNo);
      if crcBad && !f.dropPdu {
        rxWindow[idx] := rxWindow[idx].(seqNo := f.seqNo, status := Error);
        ackDirty := true;
        return;
      }
      rxWindow[idx] := Stored(f, crcBad);
      ghost var rx1 := old(RxView()).(ring := rxWindow[..]);
      assert rxWindow[..] == old(rxWindow[..])[idx := Stored(f, crcBad)];
      AdvanceLwe();
      TryDeliverAll();
      ackDirty := true;
    }

    /** Moves the lower window edge past the frames held in sequence. */
    method AdvanceLwe()
      requires Valid()
      modifies this`rxLwe
      ensures Valid() && RxView() == Advanced(old(RxView()))
    {
      hide RunLength;
      ghost var n := 0;
      ghost var lwe := rxLwe;
      ghost var ring: RxRing := rxWindow[..];
      while rxWindow[Slot(rxLwe)].seqNo == rxLwe && rxWindow[Slot(rxLwe)].status == Received
        invariant 0 <= rxLwe < SEQ_MOD && n <= WINDOW
        invariant rxLwe == SeqAdd(lwe, n)
        invariant RunLength(ring, lwe, 0) == RunLength(ring, lwe, n)
        invariant forall j :: 0 <= j < n ==> Has(ring, SeqAdd(lwe, j))
        decreases WINDOW - n
      {
        if n == WINDOW { FullTurn(ring, lwe); }
        RunUnfold(ring, lwe, n);
        SeqStep(lwe, n);
        rxLwe := SeqAdd(rxLwe, 1);
        n := n + 1;
      }
      RunUnfold(ring, lwe, n);
    }

    /** Delivers every complete C_PDU below the lower window edge. */
    method TryDeliverAll()
      requires Valid()
      modifies this`deliverLwe, this`delivered, rxWindow
      ensures Valid() && RxView() == TryDeliver(old(RxView()))
    {
      ghost var rx0 := RxView();
      while true
        invariant Valid() && rxLwe == old(rxLwe) && ackDirty == old(ackDirty)
        invariant TryDeliver(RxView()) == TryDeliver(rx0)
        decreases SeqDist(deliverLwe, rxLwe)
      {
        var count := SeqDist(deliverLwe, rxLwe);
        var i, n := FindEnd(count);
        if i == count { break; }
        ghost var rx := RxView();
        DeliveryProgress(deliverLwe, rxLwe, i);
        DeliverCpdu(SeqAdd(deliverLwe, i), n);
        assert TryDeliver(rx) == TryDeliver(RxView());
      }
    }

    /** The first delivery offset that ends a complete C_PDU, and how many segments precede it. */
    method FindEnd(count: nat) returns (i: nat, n: nat)
      requires Valid()
      ensures i == FirstEnd(RxView(), 0, count)
      ensures i < count ==> StartBack(RxView().ring, SeqAdd(deliverLwe, i), WINDOW) == Some(n)
    {
      i, n := 0, 0;
      while i < count
        invariant 0 <= i <= count
        invariant FirstEnd(RxView(), 0, count) == FirstEnd(RxView(), i, count)
      {
        var s := SeqAdd(deliverLwe, i);
        var slot := rxWindow[Slot(s)];
        if slot.seqNo == s && slot.status == Received && slot.pduEnd {
          var found := SearchBack(s);
          if found.Some? { return i, found.value; }
        }
        i := i + 1;
      }
    }

    /** Walks back from `s` to the first segment of its C_PDU. */
    method SearchBack(s: int) returns (found: Option<nat>)
      requires Valid() && 0 <= s < SEQ_MOD
      ensures found == StartBack(RxView().ring, s, WINDOW)
    {
      hide StartBack;
      var start, n := s, 0;
      while n < WINDOW
        invariant 0 <= n <= WINDOW && 0 <= start < SEQ_MOD
        invariant StartBack(RxView().ring, s, WINDOW) == Later(n, StartBack(RxView().ring, start, WINDOW - n))
      {
        SearchStep(RxView().ring, s, n, start);
        var slot := rxWindow[Slot(start)];
        if slot.seqNo != start || slot.status != Received { return None; }
        if slot.pduStart { return Some(n); }
        start := SeqAdd(start, SEQ_MOD - 1);
        n := n + 1;
      }
      return None;
    }

    /** Hands over the C_PDU of `n + 1` segments ending at `end` and frees its slots. */
    method DeliverCpdu(end: int, n: nat)
      requires Valid() && 0 <= end < SEQ_MOD
      requires StartBack(RxView().ring, end, WINDOW) == Some(n)
      modifies this`deliverLwe, this`delivered, rxWindow
      ensures Valid() && RxView() == Delivered(old(RxView()), end, n)
    {
      ghost var ring: RxRing := rxWindow[..];
      StartBackFound(ring, end, WINDOW);
      var start := Back(end, n);
      var count := SeqDist(start, end) + 1;
      CountBack(end, n);
      var complete, payload := CollectSlots(start, count);
      CollectAll(ring, end, n);
      if !complete { return; }
      delivered := delivered + [payload];
      ClearSlots(start, count);
      deliverLwe := SeqAdd(end, 1);
    }

    /** Joins the data of `count` consecutive slots, if all of them are held. */
    method CollectSlots(start: int, count: nat) returns (complete: bool, payload: bytes)
      requires Valid()
      ensures complete <==> forall i :: 0 <= i < count ==> Has(RxView().ring, SeqAdd(start, i))
      ensures complete ==> payload == RingData(RxView().ring, start, count)
    {
      payload := [];
      for i := 0 to count
        invariant payload == RingData(RxView().ring, start, i)
        invariant forall j :: 0 <= j < i ==> Has(RxView().ring, SeqAdd(start, j))
      {
        var s := SeqAdd(start, i);
        if rxWindow[Slot(s)].seqNo != s || rxWindow[Slot(s)].status != Received {
          assert !Has(RxView().ring, SeqAdd(start, i));
          return false, [];
        }
        payload := payload + rxWindow[Slot(s)].data;
      }
      return true, payload;
    }

    /** Empties `count` consecutive slots. */
    method ClearSlots(start: int, count: nat)
      requires Valid() && count <= WINDOW
      modifies rxWindow
      ensures rxWindow[..] == Cleared(old(rxWindow[..]), start, count)
    {
      ghost var ring: RxRing := rxWindow[..];
      for i := 0 to count
        invariant rxWindow[..] == Cleared(ring, start, i)
      {
        var k := Slot(SeqAdd(start, i));
        ClearNext(ring, start, i);
        rxWindow[k] := rxWindow[k].(seqNo := -1, data := [], status := Empty);
      }
    }

    /** A received ACK. */
    method ProcessRxAck(a: AckFrame)
      requires Valid()
      modifies this`txLwe, this`txCount, this`txWindow
      ensures Valid()
      ensures TxView() == OnAck(old(TxView()), a)
    {
      hide ParseSelectiveAck, SeqInWindow;
      var acks := ParseBitmap(a.rxLwe, a.selAcks, txLwe, txCount);
      forall s | s in acks ensures SeqInWindow(s, txLwe, txCount) {
        ParsedInWindow(a.rxLwe, a.selAcks, txLwe, txCount, 0, s);
      }
      txWindow := ApplyAcks(txWindow, acks, txLwe, txCount);
      var advance := SeqDist(txLwe, a.rxLwe);
      if advance > 0 && advance <= txCount {
        txWindow := AckFirst(TxView(), txWindow, txLwe, advance);
        txLwe := SeqAdd(txLwe, advance);
        txCount := txCount - advance;
      }
    }
  }
}

/** A run in which an acknowledged segment is lost and its C_PDU is given up as sent, though it was never delivered. */
module ArqLoss {
  import opened Prelude
  import opened Chunking
  import opened ArqTypes
  import opened ArqSegs
  import opened ArqTx
  import opened ArqRx
  import opened ArqRxProof
  import opened ArqAckProof
  import opened ArqTxProof
  import opened ArqLimits
  import Link = ArqLink

  // ---- A C_PDU of two segments at the sender ------------------------------

  /** The two frames of a C_PDU of two segments that is the first one sent. */
  function First(c: Cpdu): DataFrame
    requires |CpduSegs(c.payload)| == 2
  {
    DataFrame(0, Chunks(c.payload, MAX_DATA_BYTES)[0], true, false, c.inOrder, false, false, true)
  }

  function Second(c: Cpdu): DataFrame
    requires |CpduSegs(c.payload)| == 2
  {
    DataFrame(1, Chunks(c.payload, MAX_DATA_BYTES)[1], false, true, c.inOrder, false, true, false)
  }

  /** A transmit slot of frame `f`. */
  function Sl(f: DataFrame, st: AckStatus, time: int, retx: int): TxSlot {
    TxSlot(f.seqNo, f, st, time, retx)
  }

  function Two(st: TxState, c: Cpdu, a: TxSlot, b: TxSlot): Tx {
    Tx(st, [c], 0, 2, 0, map[0 := a, 1 := b])
  }

  lemma FirstTwo(st: TxState, c: Cpdu, a: TxSlot, b: TxSlot, want: AckStatus)
    ensures FirstWith(Two(st, c, a, b), want, 0) == if a.status == want then 0 else if b.status == want then 1 else 2
  {
    var tx := Two(st, c, a, b);
    assert HasStatus(tx, 0, want) <==> a.status == want;
    assert HasStatus(tx, 1, want) <==> b.status == want;
  }

  lemma SetFirst(st: TxState, c: Cpdu, a: TxSlot, b: TxSlot, s: TxSlot)
    ensures SetSlot(Two(st, c, a, b), 0, s) == Two(st, c, s, b)
    ensures SetSlot(Two(st, c, a, b), 1, s) == Two(st, c, a, s)
  {
    assert map[0 := a, 1 := b][0 := s] == map[0 := s, 1 := b];
    assert map[0 := a, 1 := b][1 := s] == map[0 := a, 1 := s];
  }

  lemma MarkTwo(st: TxState, c: Cpdu, a: TxSlot, b: TxSlot, now: int, cfg: Config)
    ensures MarkTimeouts(Two(st, c, a, b), now, cfg) == Two(st, c, TimedOut(a, now, cfg), TimedOut(b, now, cfg))
  {
    var tx := Two(st, c, a, b);
    assert InWindow(tx, 0) && InWindow(tx, 1);
    assert MarkTimeouts(tx, now, cfg).slots == map[0 := TimedOut(a, now, cfg), 1 := TimedOut(b, now, cfg)];
  }

  /** Segmenting and the first transmission. */
  lemma StartTwo(c: Cpdu, cfg: Config)
    requires |CpduSegs(c.payload)| == 2
    ensures TxSingle(Tx(Idle, [c], 0, 0, 0, map[]), 0, cfg)
      == TxOut(Two(Send, c, Sl(First(c), SentWaitAck, 0, 0), Sl(Second(c), Pending, 0, 0)), Some(First(c)), false)
  {
    var tx := Tx(Idle, [c], 0, 0, 0, map[]);
    ChunkCount(c.payload, MAX_DATA_BYTES);
    var frames := FramesOf(c, 0, LastSeq(c, 0), 0);
    assert frames == [First(c), Second(c)];
    assert frames[..1] == [First(c)] && [First(c)][..0] == [];
    var a, b := Sl(First(c), Pending, 0, 0), Sl(Second(c), Pending, 0, 0);
    assert Populate(map[], [], 0) == map[];
    assert Populate(map[], [First(c)], 0) == map[][0 := a];
    assert Populate(map[], frames, 0) == map[0 := a, 1 := b];
    assert Segmented(tx, 0) == Two(Send, c, a, b);
    FirstTwo(Send, c, a, b, Pending);
    SetFirst(Send, c, a, b, a.(status := SentWaitAck));
  }

  lemma SendTwo(c: Cpdu, a: TxSlot, b: TxSlot, now: int, cfg: Config)
    requires c.payload != []
    requires a.status != Pending
    ensures TxSingle(Two(Send, c, a, b), now, cfg) ==
      if b.status == Pending then
        TxOut(Two(Send, c, a, b.(status := SentWaitAck, txTime := now)), Some(b.encoded), false)
      else TxOut(Two(WaitAck, c, a, b), None, false)
  {
    FirstTwo(Send, c, a, b, Pending);
    SetFirst(Send, c, a, b, b.(status := SentWaitAck, txTime := now));
  }

  lemma ResendTwo(c: Cpdu, a: TxSlot, b: TxSlot, now: int, cfg: Config)
    requires c.payload != []
    requires a.status == Nacked ==> a.retx + 1 <= cfg.maxRetries
    requires b.status == Nacked ==> b.retx + 1 <= cfg.maxRetries
    ensures TxSingle(Two(Retransmit, c, a, b), now, cfg) ==
      if a.status == Nacked then
        TxOut(Two(Retransmit, c, a.(status := SentWaitAck, txTime := now, retx := a.retx + 1), b),
              Some(a.encoded), false)
      else if b.status == Nacked then
        TxOut(Two(Retransmit, c, a, b.(status := SentWaitAck, txTime := now, retx := b.retx + 1)),
              Some(b.encoded), false)
      else TxOut(Two(WaitAck, c, a, b), None, false)
  {
    FirstTwo(Retransmit, c, a, b, Nacked);
    SetFirst(Retransmit, c, a, b, a.(status := SentWaitAck, txTime := now, retx := a.retx + 1));
    SetFirst(Retransmit, c, a, b, b.(status := SentWaitAck, txTime := now, retx := b.retx + 1));
  }

  /** Waiting, with a frame not acknowledged: timers are looked at; the turn to retransmission comes one pass later. */
  lemma WaitTwo(c: Cpdu, a: TxSlot, b: TxSlot, now: int, cfg: Config)
    requires c.payload != []
    requires a.status == SentWaitAck || (a.status == Nacked && b.status != SentWaitAck)
    ensures var a1, b1 := TimedOut(a, now, cfg), TimedOut(b, now, cfg);
      TxSingle(Two(WaitAck, c, a, b), now, cfg) ==
        if a.status == SentWaitAck then TxOut(Two(WaitAck, c, a1, b1), None, false)
        else TxSingle(Two(Retransmit, c, a, b), now, cfg)
  {
    var tx, a1, b1 := Two(WaitAck, c, a, b), TimedOut(a, now, cfg), TimedOut(b, now, cfg);
    MarkTwo(WaitAck, c, a, b, now, cfg);
    FirstTwo(WaitAck, c, a, b, SentWaitAck);
    FirstTwo(WaitAck, c, a1, b1, Nacked);
    assert !HasStatus(Two(WaitAck, c, a1, b1), 0, Acked);
  }

  /** The bitmap that names frame 1 alone, seen from edge 0. */
  lemma HearBit(st: TxState, c: Cpdu, a: TxSlot, b: TxSlot, bitmap: bytes)
    requires a.seqNo == 0 && b.seqNo == 1 && |bitmap| == 1 && BitAt(bitmap, 0)
    ensures OnAck(Two(st, c, a, b), AckFrame(0, bitmap)) == Two(st, c, a, b.(status := Acked))
  {
    ParsedBit(0, bitmap, 0, 2, 0);
    ParsedBit(0, bitmap, 0, 2, 1);
    var acks := ParseSelectiveAck(0, bitmap, 0, 2, 0);
    assert 0 !in acks && 1 in acks && acks[1];
    var slots := map[0 := a, 1 := b];
    assert (map k | k in slots :: Marked(slots[k], k, acks)) == map[0 := a, 1 := b.(status := Acked)];
  }

  /** The edge has moved past frame 0. */
  lemma HearEdge(st: TxState, c: Cpdu, a: TxSlot, b: TxSlot)
    requires a.seqNo == 0 && b.seqNo == 1
    ensures OnAck(Two(st, c, a, b), AckFrame(1, []))
      == Tx(st, [c], 1, 1, 0, map[0 := a.(status := Acked), 1 := b])
  {
    hide BitAt, SeqInWindow;
    var acks := ParseSelectiveAck(1, [], 0, 2, 0);
    assert acks == map[];
    var slots := map[0 := a, 1 := b];
    assert (map k | k in slots :: Marked(slots[k], k, acks)) == slots;
    assert AckPrefix(Two(st, c, a, b), 1) == map[0 := a.(status := Acked), 1 := b];
  }

  /** Everything acknowledged: the C_PDU leaves the queue. */
  lemma CloseTwo(c: Cpdu, a: TxSlot, b: TxSlot, now: int, cfg: Config)
    requires c.payload != []
    requires b.status == Acked
    ensures TxSingle(Tx(Retransmit, [c], 1, 1, 0, map[0 := a, 1 := b]), now, cfg)
      == TxOut(Tx(WaitAck, [c], 1, 1, 0, map[0 := a, 1 := b]), None, false)
    ensures var out := TxSingle(Tx(WaitAck, [c], 1, 1, 0, map[0 := a, 1 := b]), now, cfg);
      !out.failed && out.frame == None && out.tx.queue == []
  {
    var wait := Tx(WaitAck, [c], 1, 1, 0, map[0 := a, 1 := b]);
    assert HasStatus(wait, 0, Acked) && !HasStatus(wait, 0, Nacked) && !HasStatus(wait, 0, SentWaitAck);
    var marked := MarkTimeouts(wait, now, cfg);
    assert marked.slots[1] == b;
    assert HasStatus(marked, 0, Acked) && !HasStatus(marked, 0, Nacked);
    assert !HasStatus(wait.(state := Retransmit), 0, Nacked);
    assert AllAcked(marked);
  }

  // ---- The receiver -------------------------------------------------------

  /** The receive half while frame 0 is missing; `ring` is its ring. */
  lemma StoreSecond(c: Cpdu)
    requires |CpduSegs(c.payload)| == 2
    ensures OnData(FreshRx(), Second(c), false) == Rx(0, 0, HoldsSecond(c), [], true)
  {
    var ring := HoldsSecond(c);
    assert !Has(ring, 0);
    assert RunLength(ring, 0, 0) == 0;
  }

  function HoldsSecond(c: Cpdu): RxRing
    requires |CpduSegs(c.payload)| == 2
  {
    EmptyRing()[1 := Stored(Second(c), false)]
  }

  function SecondWiped(c: Cpdu): RxRing
    requires |CpduSegs(c.payload)| == 2
  {
    HoldsSecond(c)[1 := Stored(Second(c), false).(status := Error)]
  }

  function FirstOnly(c: Cpdu): RxRing
    requires |CpduSegs(c.payload)| == 2
  {
    SecondWiped(c)[0 := Stored(First(c), false)]
  }

  lemma WipeSecond(c: Cpdu)
    requires |CpduSegs(c.payload)| == 2
    ensures OnData(Rx(0, 0, HoldsSecond(c), [], false), Second(c), true) == Rx(0, 0, SecondWiped(c), [], true)
  {
  }

  lemma StoreFirst(c: Cpdu)
    requires |CpduSegs(c.payload)| == 2
    ensures OnData(Rx(0, 0, SecondWiped(c), [], true), First(c), false) == Rx(1, 0, FirstOnly(c), [], true)
  {
    var ring := FirstOnly(c);
    assert Has(ring, SeqAdd(0, 0)) && !Has(ring, SeqAdd(0, 1));
    assert RunLength(ring, 0, 0) == 1;
    var rx := Rx(1, 0, ring, [], false);
    assert !EndsCpdu(rx, 0);
    assert FirstEnd(rx, 0, 1) == 1;
  }

  /** With frame 0 missing the ACK has edge 0 and the bit of frame 1. */
  lemma AckOfSecond(c: Cpdu)
    requires |CpduSegs(c.payload)| == 2
    ensures var a := AckOf(Rx(0, 0, HoldsSecond(c), [], true)); a.rxLwe == 0 && |a.selAcks| == 1 && BitAt(a.selAcks, 0)
  {
    var ring := HoldsSecond(c);
    forall i | 1 < i <= WINDOW ensures !Seen(ring, 0, i) {
      assert ring[Slot(SeqAdd(0, i))].seqNo != SeqAdd(0, i);
    }
    assert Seen(ring, 0, 1);
    BitmapExact(ring, 0, 0);
  }

  /** With frame 1 wiped out the ACK has edge 1 and no bits. */
  lemma AckOfFirst(c: Cpdu)
    requires |CpduSegs(c.payload)| == 2
    ensures AckOf(Rx(1, 0, FirstOnly(c), [], true)) == AckFrame(1, [])
  {
    var ring := FirstOnly(c);
    forall i | 1 <= i <= WINDOW ensures !Seen(ring, 1, i) {
      assert ring[Slot(SeqAdd(1, i))].seqNo != SeqAdd(1, i);
    }
    BitmapExact(ring, 1, 0);
  }

  // ---- The run ------------------------------------------------------------

  /** A state of the run: one C_PDU has been submitted, and the sender's edge has not moved. */
  ghost predicate Scene(steps: seq<Link.Step>, cfg: Config, c: Cpdu, tx: Tx, rx: Rx, data: seq<Link.DataInFlight>,
                        acks: seq<Link.AckInFlight>, r: nat) {
    match AfterAny(steps, cfg)
    case None => false
    case Some(l) =>
      && l.tx == tx && l.rx == rx && l.data == data && l.acks == acks && l.subs == [c] && l.t == 0 && l.r == r
      && !l.failed
  }

  lemma Onward(steps: seq<Link.Step>, step: Link.Step, cfg: Config)
    requires AfterAny(steps, cfg).Some? && Link.Possible(AfterAny(steps, cfg).value, step)
    ensures AfterAny(steps + [step], cfg) == Some(Link.Next(AfterAny(steps, cfg).value, step, cfg))
  {
    assert (steps + [step])[..|steps|] == steps;
  }

  /** A pass of the transmit machine. */
  lemma Pass(steps: seq<Link.Step>, cfg: Config, c: Cpdu, tx: Tx, rx: Rx, data: seq<Link.DataInFlight>,
             acks: seq<Link.AckInFlight>, now: int, out: TxOut)
    requires Scene(steps, cfg, c, tx, rx, data, acks, 0) && TxWf(tx) && TxSingle(tx, now, cfg) == out && !out.failed
    ensures var more := steps + [Link.Step.Transmit(now)];
      match out.frame
      case None => Scene(more, cfg, c, out.tx, rx, data, acks, 0)
      case Some(f) =>
        Scene(more, cfg, c, out.tx, rx, data + [Link.DataInFlight(f, StampOf(out.tx, 0, f))], acks, 0)
  {
    Onward(steps, Link.Step.Transmit(now), cfg);
  }

  /** Both frames go out. */
  lemma BothSent(c: Cpdu, cfg: Config) returns (steps: seq<Link.Step>)
    requires |CpduSegs(c.payload)| == 2
    ensures Scene(steps, cfg, c, Two(Send, c, Sl(First(c), SentWaitAck, 0, 0), Sl(Second(c), SentWaitAck, 0, 0)),
                  FreshRx(), [Link.DataInFlight(First(c), 0), Link.DataInFlight(Second(c), 1)], [], 0)
  {
    var a, b := Sl(First(c), SentWaitAck, 0, 0), Sl(Second(c), Pending, 0, 0);
    Onward([], Link.Step.Submit(c), cfg);
    steps := [] + [Link.Step.Submit(c)];
    assert [] + [c] == [c];
    StartTwo(c, cfg);
    Pass(steps, cfg, c, Tx(Idle, [c], 0, 0, 0, map[]), FreshRx(), [], [], 0,
      TxSingle(Tx(Idle, [c], 0, 0, 0, map[]), 0, cfg));
    steps := steps + [Link.Step.Transmit(0)];
    var d0, d1 := Link.DataInFlight(First(c), 0), Link.DataInFlight(Second(c), 1);
    assert [] + [d0] == [d0];
    SendTwo(c, a, b, 0, cfg);
    Pass(steps, cfg, c, Two(Send, c, a, b), FreshRx(), [d0], [], 0, TxSingle(Two(Send, c, a, b), 0, cfg));
    steps := steps + [Link.Step.Transmit(0)];
    assert [d0] + [d1] == [d0, d1];
  }

  /** Frame 0 is lost, frame 1 arrives. */
  lemma Opening(c: Cpdu, cfg: Config) returns (steps: seq<Link.Step>)
    requires |CpduSegs(c.payload)| == 2
    ensures Scene(steps, cfg, c, Two(Send, c, Sl(First(c), SentWaitAck, 0, 0), Sl(Second(c), SentWaitAck, 0, 0)),
                  Rx(0, 0, HoldsSecond(c), [], true), [], [], 0)
  {
    hide TxSingle;
    var d0, d1 := Link.DataInFlight(First(c), 0), Link.DataInFlight(Second(c), 1);
    steps := BothSent(c, cfg);
    Onward(steps, Link.Step.LoseData(0), cfg);
    steps := steps + [Link.Step.LoseData(0)];
    assert [d0, d1][..0] + [d0, d1][1..] == [d1];
    StoreSecond(c);
    Onward(steps, Link.Step.ReceiveData, cfg);
    steps := steps + [Link.Step.ReceiveData];
    assert [d1][1..] == [];
  }

  /** How long to wait until timers have run out. */
  function Wait(cfg: Config): int { if cfg.retxTimeout > 0 then cfg.retxTimeout else 0 }

  /** The ACK of frame 1 is sent, and both frames go out again. */
  lemma SentAgain(c: Cpdu, cfg: Config) returns (steps: seq<Link.Step>)
    requires |CpduSegs(c.payload)| == 2 && cfg.maxRetries >= 2
    ensures var t := Wait(cfg);
      Scene(steps, cfg, c, Two(Retransmit, c, Sl(First(c), SentWaitAck, t, 1), Sl(Second(c), SentWaitAck, t, 1)),
            Rx(0, 0, HoldsSecond(c), [], false), [Link.DataInFlight(First(c), 0), Link.DataInFlight(Second(c), 1)],
            [Link.AckInFlight(AckOf(Rx(0, 0, HoldsSecond(c), [], true)), 0)], 0)
  {
    var t := Wait(cfg);
    var a, b := Sl(First(c), SentWaitAck, 0, 0), Sl(Second(c), SentWaitAck, 0, 0);
    var rx := Rx(0, 0, HoldsSecond(c), [], true);
    var acks, rx1 := [Link.AckInFlight(AckOf(rx), 0)], rx.(ackDirty := false);
    steps := Opening(c, cfg);
    Onward(steps, Link.Step.Acknowledge, cfg);
    steps := steps + [Link.Step.Acknowledge];
    assert [] + acks == acks;
    SendTwo(c, a, b, 0, cfg);
    Pass(steps, cfg, c, Two(Send, c, a, b), rx1, [], acks, 0, TxSingle(Two(Send, c, a, b), 0, cfg));
    steps := steps + [Link.Step.Transmit(0)];
    WaitTwo(c, a, b, t, cfg);
    Pass(steps, cfg, c, Two(WaitAck, c, a, b), rx1, [], acks, t, TxSingle(Two(WaitAck, c, a, b), t, cfg));
    steps := steps + [Link.Step.Transmit(t)];
    steps := BothAgain(steps, c, cfg, rx1, acks, t);
  }

  lemma BothAgain(start: seq<Link.Step>, c: Cpdu, cfg: Config, rx: Rx, acks: seq<Link.AckInFlight>, t: int)
      returns (steps: seq<Link.Step>)
    requires |CpduSegs(c.payload)| == 2 && cfg.maxRetries >= 2
    requires Scene(start, cfg, c, Two(WaitAck, c, Sl(First(c), Nacked, 0, 0), Sl(Second(c), Nacked, 0, 0)),
                   rx, [], acks, 0)
    ensures Scene(steps, cfg, c, Two(Retransmit, c, Sl(First(c), SentWaitAck, t, 1), Sl(Second(c), SentWaitAck, t, 1)),
                  rx, [Link.DataInFlight(First(c), 0), Link.DataInFlight(Second(c), 1)], acks, 0)
  {
    var a, b := Sl(First(c), Nacked, 0, 0), Sl(Second(c), Nacked, 0, 0);
    var d0, d1 := Link.DataInFlight(First(c), 0), Link.DataInFlight(Second(c), 1);
    WaitTwo(c, a, b, t, cfg);
    ResendTwo(c, a, b, t, cfg);
    Pass(start, cfg, c, Two(WaitAck, c, a, b), rx, [], acks, t, TxSingle(Two(WaitAck, c, a, b), t, cfg));
    steps := start + [Link.Step.Transmit(t)];
    assert [] + [d0] == [d0];
    var a1 := Sl(First(c), SentWaitAck, t, 1);
    ResendTwo(c, a1, b, t, cfg);
    Pass(steps, cfg, c, Two(Retransmit, c, a1, b), rx, [d0], acks, t, TxSingle(Two(Retransmit, c, a1, b), t, cfg));
    steps := steps + [Link.Step.Transmit(t)];
    assert [d0] + [d1] == [d0, d1];
  }

  /** Frame 0 is lost again, the ACK of frame 1 is heard, and then frame 1 comes once more, damaged. */
  lemma Wiped(c: Cpdu, cfg: Config) returns (steps: seq<Link.Step>)
    requires |CpduSegs(c.payload)| == 2 && cfg.maxRetries >= 2
    ensures var t := Wait(cfg);
      Scene(steps, cfg, c, Two(Retransmit, c, Sl(First(c), SentWaitAck, t, 1), Sl(Second(c), Acked, t, 1)),
            Rx(0, 0, SecondWiped(c), [], true), [], [], 0)
  {
    var t := Wait(cfg);
    var a, b := Sl(First(c), SentWaitAck, t, 1), Sl(Second(c), SentWaitAck, t, 1);
    var d0, d1 := Link.DataInFlight(First(c), 0), Link.DataInFlight(Second(c), 1);
    var ack := Link.AckInFlight(AckOf(Rx(0, 0, HoldsSecond(c), [], true)), 0);
    steps := SentAgain(c, cfg);
    Onward(steps, Link.Step.LoseData(0), cfg);
    steps := steps + [Link.Step.LoseData(0)];
    assert [d0, d1][..0] + [d0, d1][1..] == [d1];
    AckOfSecond(c);
    HearBit(Retransmit, c, a, b, ack.frame.selAcks);
    Onward(steps, Link.Step.ReceiveAck, cfg);
    steps := steps + [Link.Step.ReceiveAck];
    assert [ack][1..] == [];
    WipeSecond(c);
    Onward(steps, Link.Step.CorruptData, cfg);
    steps := steps + [Link.Step.CorruptData];
    assert [d1][1..] == [];
  }

  /** Frame 0 is sent a third time and arrives. */
  lemma ThirdTry(c: Cpdu, cfg: Config) returns (steps: seq<Link.Step>)
    requires |CpduSegs(c.payload)| == 2 && cfg.maxRetries >= 2
    ensures var t := 2 * Wait(cfg);
      Scene(steps, cfg, c, Two(Retransmit, c, Sl(First(c), SentWaitAck, t, 2), Sl(Second(c), Acked, Wait(cfg), 1)),
            Rx(1, 0, FirstOnly(c), [], true), [], [], 1)
  {
    var t, t2 := Wait(cfg), 2 * Wait(cfg);
    var a, b := Sl(First(c), SentWaitAck, t, 1), Sl(Second(c), Acked, t, 1);
    var rx := Rx(0, 0, SecondWiped(c), [], true);
    steps := Wiped(c, cfg);
    ResendTwo(c, a, b, t, cfg);
    Pass(steps, cfg, c, Two(Retransmit, c, a, b), rx, [], [], t, TxSingle(Two(Retransmit, c, a, b), t, cfg));
    steps := steps + [Link.Step.Transmit(t)];
    WaitTwo(c, a, b, t2, cfg);
    Pass(steps, cfg, c, Two(WaitAck, c, a, b), rx, [], [], t2, TxSingle(Two(WaitAck, c, a, b), t2, cfg));
    steps := steps + [Link.Step.Transmit(t2)];
    var a1 := a.(status := Nacked);
    WaitTwo(c, a1, b, t2, cfg);
    ResendTwo(c, a1, b, t2, cfg);
    Pass(steps, cfg, c, Two(WaitAck, c, a1, b), rx, [], [], t2, TxSingle(Two(WaitAck, c, a1, b), t2, cfg));
    steps := steps + [Link.Step.Transmit(t2)];
    var d0 := Link.DataInFlight(First(c), 0);
    assert [] + [d0] == [d0] && [d0][1..] == [];
    StoreFirst(c);
    Onward(steps, Link.Step.ReceiveData, cfg);
    steps := steps + [Link.Step.ReceiveData];
  }

  /**
    * Without the guard on corrupted frames an acknowledged segment can be lost for good: whatever the C_PDU of two
    * segments and the timers, there is a run after which the C_PDU has left the queue as acknowledged, nothing is on
    * the air, and the receiver has delivered nothing.
    */
  lemma AcknowledgedSegmentLost(c: Cpdu, cfg: Config) returns (steps: seq<Link.Step>)
    requires |CpduSegs(c.payload)| == 2 && cfg.maxRetries >= 2
    ensures AfterAny(steps, cfg).Some? && Link.After(steps, cfg) == None
    ensures var l := AfterAny(steps, cfg).value;
      && !l.failed && l.subs == [c] && l.tx.queue == [] && l.data == [] && l.acks == [] && l.rx.delivered == []
  {
    var t := 2 * Wait(cfg);
    var a, b := Sl(First(c), SentWaitAck, t, 2), Sl(Second(c), Acked, Wait(cfg), 1);
    var ack := Link.AckInFlight(AckFrame(1, []), 1);
    steps := ThirdTry(c, cfg);
    AckOfFirst(c);
    Onward(steps, Link.Step.Acknowledge, cfg);
    steps := steps + [Link.Step.Acknowledge];
    assert [] + [ack] == [ack] && [ack][1..] == [];
    HearEdge(Retransmit, c, a, b);
    Onward(steps, Link.Step.ReceiveAck, cfg);
    steps := steps + [Link.Step.ReceiveAck];
    CloseTwo(c, a.(status := Acked), b, t, cfg);
    Onward(steps, Link.Step.Transmit(t), cfg);
    steps := steps + [Link.Step.Transmit(t)];
    Onward(steps, Link.Step.Transmit(t), cfg);
    steps := steps + [Link.Step.Transmit(t)];
    if Link.After(steps, cfg).Some? {
      GuardedIsAny(steps, cfg);
      Link.DeliveryIsPrefix(steps, cfg);
    }
  }
}

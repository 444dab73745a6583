/** What each transmit step and each ACK does to the frame of every number of the window. */
module ArqSlots {
  import opened Prelude
  import opened ArqTypes
  import opened ArqSegs
  import opened ArqTx
  import opened ArqRxProof
  import opened ArqAckProof
  import opened ArqTxProof

  /** The slot of absolute number `x`, which lies in the window. */
  function Of(tx: Tx, x: nat): TxSlot
    requires Slot(x) in tx.slots
  {
    tx.slots[Slot(x)]
  }

  /** Every number of the window has its slot. */
  predicate Full(tx: Tx, t: nat) {
    forall x :: t <= x < t + tx.count ==> Slot(x) in tx.slots
  }

  lemma InvFull(tx: Tx, subs: seq<Cpdu>, t: nat)
    requires TxInv(tx, subs, t)
    ensures Full(tx, t)
  {
    forall x | t <= x < t + tx.count ensures Slot(x) in tx.slots {
      assert SlotOwn(tx.slots, AllSegs(subs), x);
    }
  }

  /** The frame waits for its acknowledgement, and its time has run out. */
  predicate Overdue(s: TxSlot, now: int, cfg: Config) {
    s.status == SentWaitAck && now - s.txTime >= cfg.retxTimeout
  }

  /** The frame goes out at `now`: for the first time, or once more because it is missing. */
  predicate GoesOut(o: TxSlot, n: TxSlot, now: int, cfg: Config) {
    && n == o.(status := SentWaitAck, txTime := now, retx := n.retx)
    && if o.status == Pending then n.retx == o.retx
       else (o.status == Nacked || Overdue(o, now, cfg)) && n.retx == o.retx + 1 <= cfg.maxRetries
  }

  /** A frame of the window that does not go out: it is as it was, or found missing because its time has run out. */
  predicate Stays(o: TxSlot, n: TxSlot, now: int, cfg: Config) {
    n == o || (Overdue(o, now, cfg) && n == o.(status := Nacked))
  }

  /** What a pass does to the frame of number `x`; numbers beyond the old window belong to a C_PDU just begun. */
  ghost predicate PassAt(tx: Tx, t: nat, now: int, cfg: Config, out: TxOut, x: nat)
    requires Full(tx, t) && Full(out.tx, t) && t <= x < t + out.tx.count
  {
    var n, known := Of(out.tx, x), x < t + tx.count;
    if out.frame.Some? && x == StampOf(out.tx, t, out.frame.value) then
      && out.frame.value == n.encoded
      && if known then GoesOut(Of(tx, x), n, now, cfg) else n.status == SentWaitAck && n.txTime == now && n.retx == 0
    else if known then Stays(Of(tx, x), n, now, cfg)
    else n.status == Pending && n.retx == 0
  }

  ghost predicate PassOk(tx: Tx, t: nat, now: int, cfg: Config, out: TxOut) {
    && Full(tx, t) && Full(out.tx, t)
    && forall x :: t <= x < t + out.tx.count ==> PassAt(tx, t, now, cfg, out, x)
  }

  // ---- The phases ---------------------------------------------------------

  /** One slot is rewritten and its frame goes out. */
  lemma OnePass(tx: Tx, subs: seq<Cpdu>, t: nat, i: nat, slot: TxSlot, now: int, cfg: Config)
    requires TxInv(tx, subs, t) && i < tx.count && Slot(t + i) in tx.slots
    requires GoesOut(Of(tx, t + i), slot, now, cfg)
    ensures PassOk(tx, t, now, cfg, TxOut(SetSlot(tx, i, slot), Some(slot.encoded), false))
  {
    hide AllSegs, Carries, Admissible, Base;
    var out := TxOut(SetSlot(tx, i, slot), Some(slot.encoded), false);
    assert SlotOwn(tx.slots, AllSegs(subs), t + i);
    OwnNumber(Of(tx, t + i).encoded, AllSegs(subs), t + i);
    SetOne(tx, subs, t, i, slot);
    TxInvWf(tx, subs, t);
    InvFull(tx, subs, t);
    InvFull(out.tx, subs, t);
    DistExact(t, t + i);
    forall x | t <= x < t + out.tx.count ensures PassAt(tx, t, now, cfg, out, x) {
    }
  }

  lemma SameSlots(tx: Tx, subs: seq<Cpdu>, t: nat, st: TxState, now: int, cfg: Config)
    requires TxInv(tx, subs, t)
    ensures PassOk(tx, t, now, cfg, TxOut(tx.(state := st), None, false))
  {
    InvFull(tx, subs, t);
  }

  lemma FirstAt(tx: Tx, subs: seq<Cpdu>, t: nat, st: AckStatus)
    requires TxInv(tx, subs, t)
    ensures var i := FirstWith(tx, st, 0);
      && (i < tx.count ==> Slot(t + i) in tx.slots && Of(tx, t + i).status == st)
      && (forall x :: t <= x < t + i ==> Slot(x) in tx.slots && Of(tx, x).status != st)
  {
    InvFull(tx, subs, t);
    var i := FirstWith(tx, st, 0);
    if i < tx.count { AtOffset(tx, t, i); }
    forall x | t <= x < t + i ensures Of(tx, x).status != st {
      AtOffset(tx, t, x - t);
      assert !HasStatus(tx, x - t, st);
    }
  }

  lemma SendPass(tx: Tx, subs: seq<Cpdu>, t: nat, now: int, cfg: Config)
    requires TxInv(tx, subs, t) && tx.state == Send
    ensures PassOk(tx, t, now, cfg, SendPhase(tx, now))
  {
    hide PassOk, TxInv;
    var i := FirstWith(tx, Pending, 0);
    FirstAt(tx, subs, t, Pending);
    LweIs(tx, subs, t);
    AtOffset(tx, t, i);
    if i < tx.count {
      OnePass(tx, subs, t, i, Of(tx, t + i).(status := SentWaitAck, txTime := now), now, cfg);
    } else {
      SameSlots(tx, subs, t, WaitAck, now, cfg);
    }
  }

  lemma LweIs(tx: Tx, subs: seq<Cpdu>, t: nat)
    requires TxInv(tx, subs, t)
    ensures tx.lwe == t % SEQ_MOD && (tx.state == Idle ==> tx.count == 0)
  {
  }

  /** The frame is missing and has no retries left. */
  predicate Exhausted(tx: Tx, t: nat, x: nat, cfg: Config) {
    && t <= x < t + tx.count && Slot(x) in tx.slots
    && Of(tx, x).status == Nacked && Of(tx, x).retx >= cfg.maxRetries
  }

  lemma RetransmitPass(tx: Tx, subs: seq<Cpdu>, t: nat, now: int, cfg: Config)
    requires TxInv(tx, subs, t) && tx.state == Retransmit
    ensures var out := RetransmitPhase(tx, now, cfg);
      if out.failed then exists x :: Exhausted(tx, t, x, cfg) else PassOk(tx, t, now, cfg, out)
  {
    hide PassOk, TxInv;
    var i := FirstWith(tx, Nacked, 0);
    FirstAt(tx, subs, t, Nacked);
    LweIs(tx, subs, t);
    AtOffset(tx, t, i);
    if i < tx.count {
      var s := Of(tx, t + i);
      if s.retx + 1 <= cfg.maxRetries {
        OnePass(tx, subs, t, i, s.(status := SentWaitAck, txTime := now, retx := s.retx + 1), now, cfg);
      } else {
        assert Exhausted(tx, t, t + i, cfg);
      }
    } else {
      SameSlots(tx, subs, t, WaitAck, now, cfg);
    }
  }

  /** Marking in the window: exactly the overdue frames become missing. */
  lemma MarksAt(tx: Tx, subs: seq<Cpdu>, t: nat, now: int, cfg: Config, x: nat)
    requires TxInv(tx, subs, t) && t <= x < t + tx.count
    ensures var b := MarkTimeouts(tx, now, cfg);
      && Slot(x) in tx.slots && Slot(x) in b.slots
      && Of(b, x) == if Overdue(Of(tx, x), now, cfg) then Of(tx, x).(status := Nacked) else Of(tx, x)
  {
    hide AllSegs, Admissible, Base;
    InvFull(tx, subs, t);
    TxInvWf(tx, subs, t);
    RingOffset(t, x);
  }

  lemma RingOffset(t: nat, x: nat)
    requires t <= x < t + WINDOW
    ensures (Slot(x) - t % SEQ_MOD) % WINDOW == x - t
  {
    var q, m, d := t / SEQ_MOD, t % SEQ_MOD, x / WINDOW;
    assert Slot(x) - m == (x - t) + WINDOW * (2 * q - d);
    assert (x - t) % WINDOW == x - t;
    assert ((x - t) + WINDOW * (2 * q - d)) % WINDOW == (x - t) % WINDOW;
  }

  /** A C_PDU just begun: its first frame goes out, and the others wait for their first transmission. */
  lemma BeginPass(tx: Tx, next: Tx, subs: seq<Cpdu>, t: nat, now: int, cfg: Config, sent: multiset<nat>)
    requires TxInv(next, subs, t) && SentInv(next, t, sent, cfg.maxRetries) && next.state == Idle && next.queue != []
    requires tx.count == 0
    ensures PassOk(tx, t, now, cfg, SendPhase(Segmented(next, now), now))
  {
    hide TxInv, SentInv, Segmented, SendPhase;
    var seg := Segmented(next, now);
    SegmentedInv2(next, subs, t, now);
    SendPass(seg, subs, t, now, cfg);
    var out := SendPhase(seg, now);
    SendCount(seg, now);
    forall x | t <= x < t + out.tx.count ensures PassAt(tx, t, now, cfg, out, x) {
      assert PassAt(seg, t, now, cfg, out, x);
      assert Unsent(seg.slots, x);
    }
  }

  lemma SegmentedInv2(next: Tx, subs: seq<Cpdu>, t: nat, now: int)
    requires TxInv(next, subs, t) && next.state == Idle && next.queue != []
    ensures TxInv(Segmented(next, now), subs, t) && Segmented(next, now).state == Send
    ensures forall s :: t <= s < t + Segmented(next, now).count ==> Unsent(Segmented(next, now).slots, s)
  {
    hide TxInv, Populate, FramesOf;
    SegmentedInv(next, subs, t, now);
  }

  lemma SendCount(tx: Tx, now: int)
    ensures SendPhase(tx, now).tx.count == tx.count
  {
  }

  lemma WaitPass(tx: Tx, subs: seq<Cpdu>, t: nat, now: int, cfg: Config, sent: multiset<nat>)
    requires TxInv(tx, subs, t) && SentInv(tx, t, sent, cfg.maxRetries) && tx.state == WaitAck && tx.queue != []
    requires !IsAcked(tx, t, t)
    ensures var out := WaitAckPhase(tx, now, cfg);
      if out.failed then exists x :: Exhausted(tx, t, x, cfg) else PassOk(tx, t, now, cfg, out)
  {
    hide TxInv, SentInv, RetransmitPhase, SendPhase, Segmented, Completed, AllAcked, MarkTimeouts;
    var marked := MarkTimeouts(tx, now, cfg);
    TimeoutsInv(tx, subs, t, now, cfg, sent, cfg.maxRetries);
    MarkFields(tx, now, cfg);
    var waiting := FirstWith(tx, SentWaitAck, 0) < tx.count;
    var nacked := FirstWith(marked, Nacked, 0) < tx.count;
    if nacked && !waiting {
      AgainPass(tx, marked, subs, t, now, cfg);
    } else if AllAcked(marked) {
      LweIs(marked, subs, t);
      EmptyWhenAllAcked(marked, t);
      assert tx.count == 0;
      CompletedInv(marked, subs, t, sent, cfg.maxRetries);
      var next := Completed(marked);
      CompletedFields(marked);
      if next.queue == [] {
        assert PassOk(tx, t, now, cfg, TxOut(next, None, false));
      } else {
        BeginPass(tx, next, subs, t, now, cfg, sent);
        SendNeverFails(Segmented(next, now), now);
      }
    } else {
      MarkedPass(tx, subs, t, now, cfg);
    }
  }

  lemma SendNeverFails(tx: Tx, now: int)
    ensures !SendPhase(tx, now).failed
  {
  }

  lemma CompletedFields(tx: Tx)
    requires tx.queue != []
    ensures Completed(tx).state == Idle && Completed(tx).count == 0
  {
  }

  lemma MarkFields(tx: Tx, now: int, cfg: Config)
    ensures var b := MarkTimeouts(tx, now, cfg);
      b == tx.(slots := b.slots)
  {
  }

  lemma MarkedPass(tx: Tx, subs: seq<Cpdu>, t: nat, now: int, cfg: Config)
    requires TxInv(tx, subs, t)
    ensures PassOk(tx, t, now, cfg, TxOut(MarkTimeouts(tx, now, cfg), None, false))
  {
    hide TxInv, MarkTimeouts;
    MarkFields(tx, now, cfg);
    var out := TxOut(MarkTimeouts(tx, now, cfg), None, false);
    InvFull(tx, subs, t);
    forall x | t <= x < t + tx.count ensures Slot(x) in out.tx.slots && Stays(Of(tx, x), Of(out.tx, x), now, cfg) {
      MarksAt(tx, subs, t, now, cfg, x);
    }
  }

  /** Waiting with nothing on its way any more: the turn to retransmission comes in the same pass. */
  lemma AgainPass(tx: Tx, marked: Tx, subs: seq<Cpdu>, t: nat, now: int, cfg: Config)
    requires TxInv(tx, subs, t) && marked == MarkTimeouts(tx, now, cfg) && TxInv(marked, subs, t)
    requires FirstWith(tx, SentWaitAck, 0) == tx.count && tx.state == WaitAck
    ensures var out := RetransmitPhase(marked.(state := Retransmit), now, cfg);
      if out.failed then exists x :: Exhausted(tx, t, x, cfg) else PassOk(tx, t, now, cfg, out)
  {
    hide TxInv, RetransmitPhase, MarkTimeouts;
    MarkFields(tx, now, cfg);
    var again := marked.(state := Retransmit);
    StateOnly(marked, subs, t);
    RetransmitPass(again, subs, t, now, cfg);
    FirstAt(tx, subs, t, SentWaitAck);
    InvFull(tx, subs, t);
    var out := RetransmitPhase(again, now, cfg);
    forall x | t <= x < t + tx.count ensures Slot(x) in again.slots && Of(again, x) == Of(tx, x) {
      MarksAt(tx, subs, t, now, cfg, x);
    }
    if out.failed {
      var x :| Exhausted(again, t, x, cfg);
      assert Exhausted(tx, t, x, cfg);
    } else {
      forall x | t <= x < t + out.tx.count ensures PassAt(tx, t, now, cfg, out, x) {
        assert PassAt(again, t, now, cfg, out, x);
      }
    }
  }

  lemma StateOnly(tx: Tx, subs: seq<Cpdu>, t: nat)
    requires TxInv(tx, subs, t) && tx.state == WaitAck
    ensures TxInv(tx.(state := Retransmit), subs, t)
  {
    SameFramesKeeps(tx, tx.(state := Retransmit), subs, t);
  }

  /**
    * One pass of the transmit machine in absolute numbers: at most one frame goes out, for the first time or because it
    * is missing or overdue; the others stay, or are found missing because they are overdue. The link is declared failed
    * only when a missing frame has no retries left.
    */
  lemma TxPass(tx: Tx, subs: seq<Cpdu>, t: nat, now: int, cfg: Config, sent: multiset<nat>)
    requires TxInv(tx, subs, t) && SentInv(tx, t, sent, cfg.maxRetries) && TxWf(tx)
    requires !IsAcked(tx, t, t)
    ensures var out := TxSingle(tx, now, cfg);
      if out.failed then exists x :: Exhausted(tx, t, x, cfg) else PassOk(tx, t, now, cfg, out)
  {
    hide TxInv, SentInv, RetransmitPhase, SendPhase, WaitAckPhase, Segmented;
    LweIs(tx, subs, t);
    match tx.state
    case Idle =>
      if tx.queue != [] {
        BeginPass(tx, tx, subs, t, now, cfg, sent);
        SendNeverFails(Segmented(tx, now), now);
      } else {
        assert tx.(state := Idle) == tx;
        SameSlots(tx, subs, t, Idle, now, cfg);
      }
    case Segment => NotSegment(tx, subs, t);
    case Send =>
      SendPass(tx, subs, t, now, cfg);
      SendNeverFails(tx, now);
    case Retransmit => RetransmitPass(tx, subs, t, now, cfg);
    case WaitAck => WaitPass(tx, subs, t, now, cfg, sent);
  }

  lemma NotSegment(tx: Tx, subs: seq<Cpdu>, t: nat)
    requires TxInv(tx, subs, t)
    ensures tx.state != Segment
  {
  }

  // ---- Acknowledgements ---------------------------------------------------

  /** What an ACK with edge `edge` does to the frame of number `x`, which the edge leaves in the window. */
  function AfterAck(s: TxSlot, edge: nat, bitmap: bytes, x: nat): TxSlot
    requires edge <= x
  {
    if x == edge || x > edge + 8 * |bitmap| then s
    else if BitAt(bitmap, x - edge - 1) then s.(status := Acked)
    else if s.status == Pending then s
    else s.(status := Nacked)
  }

  /** An ACK acknowledges, or reports missing, exactly the frames its bits stand for; no timer and no count changes. */
  lemma OnAckExact(tx: Tx, subs: seq<Cpdu>, t: nat, edge: nat, a: AckFrame, x: nat)
    requires TxInv(tx, subs, t) && t <= edge <= x < t + tx.count
    requires |a.selAcks| <= 16 && a.rxLwe == edge % SEQ_MOD
    ensures Slot(x) in tx.slots && Slot(x) in OnAck(tx, a).slots
    ensures Of(OnAck(tx, a), x) == AfterAck(Of(tx, x), edge, a.selAcks, x)
  {
    hide AllSegs, Carries, Admissible, Base, ParseSelectiveAck, BitAt;
    TxInvWf(tx, subs, t);
    assert SlotOwn(tx.slots, AllSegs(subs), x);
    ParsedBit(edge, a.selAcks, t, tx.count, x);
    SlotExact(x);
    DistExact(t, edge);
    DistExact(t, x);
  }

  // ---- Waiting ------------------------------------------------------------

  /**
    * Waiting, as long as no timer has run out, nothing is missing and not everything is acknowledged, a call sends
    * nothing and leaves everything as it is.
    */
  lemma QuietWait(tx: Tx, subs: seq<Cpdu>, t: nat, now: int, cfg: Config)
    requires TxInv(tx, subs, t) && TxWf(tx) && tx.state == WaitAck && Full(tx, t) && RingKeys(tx)
    requires forall x :: t <= x < t + tx.count ==>
      Of(tx, x).status != Nacked && (Of(tx, x).status == SentWaitAck ==> now - Of(tx, x).txTime < cfg.retxTimeout)
    requires exists x :: t <= x < t + tx.count && Of(tx, x).status != Acked
    ensures TxSingle(tx, now, cfg) == TxOut(tx, None, false)
  {
    hide TxInv, RetransmitPhase, SendPhase, Segmented, Completed, MarkTimeouts;
    var b := MarkTimeouts(tx, now, cfg);
    MarkFields(tx, now, cfg);
    SameRing(tx, subs, t, now, cfg);
    FirstAt(tx, subs, t, Nacked);
    var x :| t <= x < t + tx.count && Of(tx, x).status != Acked;
    LweIs(tx, subs, t);
    AtOffset(tx, t, x - t);
    assert !HasStatus(tx, x - t, Acked);
  }

  /** Every slot lies in the ring. */
  predicate RingKeys(tx: Tx) {
    forall k :: k in tx.slots ==> 0 <= k < WINDOW
  }

  /** A slot of the window belongs to one of its numbers. */
  lemma RingNumber(tx: Tx, t: nat, k: int) returns (x: nat)
    requires tx.lwe == t % SEQ_MOD && 0 <= k < WINDOW && InWindow(tx, k)
    ensures t <= x < t + tx.count && Slot(x) == k
  {
    x := t + (k - tx.lwe) % WINDOW;
    var q, p := t / SEQ_MOD, (k - tx.lwe) / WINDOW;
    assert x == k + WINDOW * (2 * q - p);
  }

  lemma SameRing(tx: Tx, subs: seq<Cpdu>, t: nat, now: int, cfg: Config)
    requires TxInv(tx, subs, t) && Full(tx, t) && RingKeys(tx)
    requires forall x :: t <= x < t + tx.count ==> !Overdue(Of(tx, x), now, cfg)
    ensures MarkTimeouts(tx, now, cfg) == tx
  {
    hide TxInv, InWindow;
    var b := MarkTimeouts(tx, now, cfg);
    LweIs(tx, subs, t);
    forall k | k in tx.slots ensures b.slots[k] == tx.slots[k] {
      if InWindow(tx, k) {
        var x := RingNumber(tx, t, k);
        assert !Overdue(Of(tx, x), now, cfg);
      }
    }
    assert b.slots == tx.slots;
  }
}

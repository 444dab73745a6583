/** What every step of the transmit half keeps. */
module ArqTxProof {
  import opened Bits
  import opened Prelude
  import opened ArqTypes
  import opened Chunking
  import opened ArqSegs
  import opened ArqTx
  import opened ArqRxProof
  import opened ArqAckProof

  /** How many submitted C_PDUs the transmit half has dropped from its queue. */
  function Done(tx: Tx, subs: seq<Cpdu>): int {
    |subs| - |tx.queue|
  }

  /** The slot of absolute number `s` holds the encoding of exactly that segment. */
  predicate SlotOwn(slots: map<int, TxSlot>, segs: seq<Seg>, s: nat) {
    && Slot(s) in slots
    && slots[Slot(s)].seqNo == s % SEQ_MOD
    && Carries(slots[Slot(s)].encoded, segs, s)
  }

  /** The transmit half is in step with the segment stream; `t` is the absolute lower window edge. */
  ghost predicate TxInv(tx: Tx, subs: seq<Cpdu>, t: nat) {
    && Admissible(subs)
    && |tx.queue| <= |subs|
    && tx.queue == subs[Done(tx, subs)..]
    && tx.lwe == t % SEQ_MOD
    && tx.nextSeq == Base(subs, Done(tx, subs)) % SEQ_MOD
    && tx.state != Segment
    && (tx.state == Idle ==> tx.count == 0 && t == Base(subs, Done(tx, subs)))
    && (tx.state != Idle ==>
         && tx.queue != []
         && Base(subs, Done(tx, subs)) <= t
         && t + tx.count == Base(subs, Done(tx, subs) + 1))
    && (forall s :: t <= s < t + tx.count ==> SlotOwn(tx.slots, AllSegs(subs), s))
  }

  lemma TxInvWf(tx: Tx, subs: seq<Cpdu>, t: nat)
    requires TxInv(tx, subs, t)
    ensures TxWf(tx)
    ensures tx.count <= WINDOW
    ensures t + tx.count <= |AllSegs(subs)|
    ensures tx.state != Idle ==> Base(subs, Done(tx, subs) + 1) <= Base(subs, Done(tx, subs)) + WINDOW
  {
    forall p | p in tx.queue ensures p.payload != [] {
      assert p in subs;
    }
    if tx.state != Idle {
      var k := Done(tx, subs);
      assert subs[k] in subs;
      CpduAt(subs, k);
    } else {
      SegsPrefix(subs, Done(tx, subs));
    }
  }

  /** Slot index and label of an offset, in absolute numbers. */
  lemma AtOffset(tx: Tx, t: nat, i: nat)
    requires tx.lwe == t % SEQ_MOD
    ensures SeqAt(tx, i) == (t + i) % SEQ_MOD
    ensures Slot(SeqAt(tx, i)) == Slot(t + i)
  {
    AddExact(t, i);
    SlotExact(t + i);
  }

  /** Two windows that differ only in status, timer and retry count of their slots. */
  predicate SameFrames(a: map<int, TxSlot>, b: map<int, TxSlot>) {
    && a.Keys == b.Keys
    && forall k :: k in a ==> a[k].seqNo == b[k].seqNo && a[k].encoded == b[k].encoded
  }

  lemma SameFramesKeeps(a: Tx, b: Tx, subs: seq<Cpdu>, t: nat)
    requires TxInv(a, subs, t) && SameFrames(a.slots, b.slots)
    requires b == a.(slots := b.slots, state := b.state)
    requires b.state != Segment && (b.state == Idle <==> a.state == Idle)
    ensures TxInv(b, subs, t)
  {
    forall s | t <= s < t + b.count ensures SlotOwn(b.slots, AllSegs(subs), s) {
      assert SlotOwn(a.slots, AllSegs(subs), s);
    }
  }

  /** The frame of number `s` has not been sent yet. */
  predicate Unsent(slots: map<int, TxSlot>, s: nat) {
    Slot(s) in slots && slots[Slot(s)].status == Pending && slots[Slot(s)].retx == 0
  }

  // ---- Segmentation -------------------------------------------------------

  lemma {:induction false} PopulateLast(slots: map<int, TxSlot>, frames: seq<DataFrame>, now: int, i: nat)
    requires i < |frames|
    requires forall j :: i < j < |frames| ==> Slot(frames[j].seqNo) != Slot(frames[i].seqNo)
    ensures Slot(frames[i].seqNo) in Populate(slots, frames, now)
    ensures Populate(slots, frames, now)[Slot(frames[i].seqNo)] == FreshSlot(frames[i], now)
    decreases |frames|
  {
    var n := |frames| - 1;
    if i < n {
      PopulateLast(slots, frames[..n], now, i);
    }
  }

  /** Segmenting a C_PDU that fits the window gives every segment its own slot. */
  lemma SegmentedInv(tx: Tx, subs: seq<Cpdu>, t: nat, now: int)
    requires TxInv(tx, subs, t) && tx.state == Idle && tx.queue != []
    ensures TxInv(Segmented(tx, now), subs, t)
    ensures Segmented(tx, now).count > 0
    ensures forall s :: t <= s < t + Segmented(tx, now).count ==> Unsent(Segmented(tx, now).slots, s)
  {
    hide AllSegs, Chunks, Slot;
    var p := tx.queue[0];
    var k := Done(tx, subs);
    assert p == subs[k];
    var frames := FramesOf(p, tx.nextSeq, LastSeq(p, tx.nextSeq), tx.lwe);
    var segs := AllSegs(subs);
    CpduAt(subs, k);
    assert p in subs;
    var n := |frames|;
    var slots := Populate(tx.slots, frames, now);
    forall s | t <= s < t + n
      ensures SlotOwn(slots, segs, s) && Unsent(slots, s)
    {
      var i := s - t;
      AddExact(t, i);
      SlotExact(s);
      SegAt(subs, k, s);
      forall j | i < j < n ensures Slot(frames[j].seqNo) != Slot(frames[i].seqNo) {
        AddExact(t, j);
        SlotExact(t + j);
        if Slot(t + j) == Slot(s) { SlotInjective(t + j, s); }
      }
      PopulateLast(tx.slots, frames, now, i);
    }
  }

  /** Frame `j` is the last one stored in ring slot `k`. */
  ghost predicate LastIn(slots: map<int, TxSlot>, frames: seq<DataFrame>, now: int, k: int, j: nat) {
    && j < |frames| && Slot(frames[j].seqNo) == k
    && (forall i :: j < i < |frames| ==> Slot(frames[i].seqNo) != k)
    && k in Populate(slots, frames, now) && Populate(slots, frames, now)[k] == FreshSlot(frames[j], now)
  }

  lemma {:induction false} LastWriter(slots: map<int, TxSlot>, frames: seq<DataFrame>, now: int, i: nat)
      returns (j: nat)
    requires i < |frames|
    ensures i <= j && LastIn(slots, frames, now, Slot(frames[i].seqNo), j)
    decreases |frames|
  {
    var n := |frames| - 1;
    if Slot(frames[n].seqNo) == Slot(frames[i].seqNo) {
      j := n;
    } else {
      j := LastWriter(slots, frames[..n], now, i);
    }
  }

  /**
   * The limit of 128 segments is exact: the first segment of a C_PDU survives segmentation
   * if and only if the C_PDU has at most as many segments as the ring has slots.
   */
  lemma FirstSlotSurvivesIff(slots: map<int, TxSlot>, p: Cpdu, base: nat, uwe: int, lwe: int, now: int)
    requires p.payload != []
    ensures var frames := FramesOf(p, base % SEQ_MOD, uwe, lwe);
      && frames != []
      && Slot(base) in Populate(slots, frames, now)
      && (Populate(slots, frames, now)[Slot(base)].encoded == frames[0] <==> |p.payload| <= WINDOW * MAX_DATA_BYTES)
  {
    var frames := FramesOf(p, base % SEQ_MOD, uwe, lwe);
    ChunkCount(p.payload, MAX_DATA_BYTES);
    FrameSlot(p, base, uwe, lwe, 0);
    var j := LastWriter(slots, frames, now, 0);
    FrameSlot(p, base, uwe, lwe, j);
    if |frames| > WINDOW {
      FrameSlot(p, base, uwe, lwe, WINDOW);
      assert !frames[j].pduStart;
    } else if j > 0 {
      SlotInjective(base + j, base);
    }
  }

  lemma FrameSlot(p: Cpdu, base: nat, uwe: int, lwe: int, i: nat)
    requires i < |FramesOf(p, base % SEQ_MOD, uwe, lwe)|
    ensures Slot(FramesOf(p, base % SEQ_MOD, uwe, lwe)[i].seqNo) == Slot(base + i)
    ensures i == WINDOW ==> Slot(base + i) == Slot(base)
  {
    AddExact(base, i);
    SlotExact(base + i);
  }

  // ---- Transmission -------------------------------------------------------

  /** The frame of number `s` lies in the window and is acknowledged. */
  predicate IsAcked(tx: Tx, t: nat, s: nat) {
    t <= s < t + tx.count && Slot(s) in tx.slots && tx.slots[Slot(s)].status == Acked
  }

  /** Retry accounting of one slot: `sent` counts every transmission of a number so far. */
  predicate Counted(slots: map<int, TxSlot>, sent: multiset<nat>, max: int, s: nat) {
    Slot(s) in slots ==>
      && 0 <= slots[Slot(s)].retx <= max
      && (slots[Slot(s)].status == Pending ==> sent[s] == 0 && slots[Slot(s)].retx == 0)
      && sent[s] <= 1 + slots[Slot(s)].retx
  }

  ghost predicate SentInv(tx: Tx, t: nat, sent: multiset<nat>, max: int) {
    && max >= 0
    && (forall s: nat :: sent[s] <= 1 + max)
    && (forall s: nat :: s >= t + tx.count ==> sent[s] == 0)
    && (forall s :: t <= s < t + tx.count ==> Counted(tx.slots, sent, max, s))
  }

  /** Changing the bookkeeping of one slot leaves every other number of the window alone. */
  lemma SetOne(tx: Tx, subs: seq<Cpdu>, t: nat, i: nat, slot: TxSlot)
    requires TxInv(tx, subs, t) && i < tx.count
    requires SlotOwn(tx.slots, AllSegs(subs), t + i)
    requires slot.seqNo == tx.slots[Slot(t + i)].seqNo && slot.encoded == tx.slots[Slot(t + i)].encoded
    ensures TxInv(SetSlot(tx, i, slot), subs, t)
    ensures SetSlot(tx, i, slot).slots[Slot(t + i)] == slot
    ensures forall x :: t <= x < t + tx.count && x != t + i ==>
      Slot(x) in tx.slots && SetSlot(tx, i, slot).slots[Slot(x)] == tx.slots[Slot(x)]
  {
    hide Carries, AllSegs;
    AtOffset(tx, t, i);
    TxInvWf(tx, subs, t);
    var b := SetSlot(tx, i, slot);
    assert b == tx.(slots := tx.slots[Slot(t + i) := slot]);
    forall x | t <= x < t + tx.count && x != t + i
      ensures Slot(x) in tx.slots && b.slots[Slot(x)] == tx.slots[Slot(x)]
    {
      assert SlotOwn(tx.slots, AllSegs(subs), x);
      if Slot(x) == Slot(t + i) { SlotInjective(x, t + i); }
    }
    assert b.slots.Keys == tx.slots.Keys;
    SameFramesKeeps(tx, b, subs, t);
  }

  /** One frame leaves: slot `i` becomes SENT_WAIT_ACK, and the count of its number grows by one. */
  lemma Transmit(tx: Tx, subs: seq<Cpdu>, t: nat, i: nat, now: int, retx: int, sent: multiset<nat>, max: int)
    requires TxInv(tx, subs, t) && i < tx.count
    requires SlotOwn(tx.slots, AllSegs(subs), t + i)
    requires SentInv(tx, t, sent, max)
    requires var s := tx.slots[Slot(t + i)];
      || (s.status == Pending && retx == s.retx)
      || (retx == s.retx + 1 && retx <= max)
    ensures var slot := tx.slots[Slot(t + i)].(status := SentWaitAck, txTime := now, retx := retx);
      var b := SetSlot(tx, i, slot);
      && TxInv(b, subs, t)
      && SentInv(b, t, sent + multiset{t + i}, max)
      && (forall x :: IsAcked(b, t, x) ==> IsAcked(tx, t, x))
      && Carries(slot.encoded, AllSegs(subs), t + i)
  {
    hide Carries, AllSegs;
    var slot := tx.slots[Slot(t + i)].(status := SentWaitAck, txTime := now, retx := retx);
    var b := SetSlot(tx, i, slot);
    var sent1 := sent + multiset{t + i};
    SetOne(tx, subs, t, i, slot);
    assert Counted(tx.slots, sent, max, t + i);
    forall x | t <= x < t + b.count ensures Counted(b.slots, sent1, max, x) {
      assert Counted(tx.slots, sent, max, x);
    }
  }

  lemma OwnNumber(f: DataFrame, segs: seq<Seg>, s: nat)
    requires Carries(f, segs, s)
    ensures f.seqNo == s % SEQ_MOD
  {
  }

  /** The send phase keeps the invariants; a frame it emits carries a number of the window. */
  lemma SendPhaseInv(tx: Tx, subs: seq<Cpdu>, t: nat, now: int, sent: multiset<nat>, max: int)
    requires TxInv(tx, subs, t) && SentInv(tx, t, sent, max) && tx.state == Send
    ensures StepInv(tx, SendPhase(tx, now), subs, t, sent, max)
  {
    hide Counted, Carries, AllSegs;
    var i := FirstWith(tx, Pending, 0);
    if i < tx.count {
      AtOffset(tx, t, i);
      assert SlotOwn(tx.slots, AllSegs(subs), t + i);
      Transmit(tx, subs, t, i, now, tx.slots[Slot(t + i)].retx, sent, max);
      OwnNumber(tx.slots[Slot(t + i)].encoded, AllSegs(subs), t + i);
      TxInvWf(tx, subs, t);
      DistExact(t, t + i);
    } else {
      SameFramesKeeps(tx, tx.(state := WaitAck), subs, t);
    }
  }

  /** The retransmit phase keeps the invariants, or declares the link failed. */
  lemma RetransmitPhaseInv(tx: Tx, subs: seq<Cpdu>, t: nat, now: int, cfg: Config, sent: multiset<nat>)
    requires TxInv(tx, subs, t) && SentInv(tx, t, sent, cfg.maxRetries) && tx.state == Retransmit
    ensures StepInv(tx, RetransmitPhase(tx, now, cfg), subs, t, sent, cfg.maxRetries)
  {
    hide Counted, Carries, AllSegs;
    var i := FirstWith(tx, Nacked, 0);
    if i < tx.count {
      AtOffset(tx, t, i);
      assert SlotOwn(tx.slots, AllSegs(subs), t + i);
      var s := tx.slots[Slot(t + i)];
      if s.retx + 1 <= cfg.maxRetries {
        Transmit(tx, subs, t, i, now, s.retx + 1, sent, cfg.maxRetries);
        OwnNumber(s.encoded, AllSegs(subs), t + i);
        TxInvWf(tx, subs, t);
        DistExact(t, t + i);
      }
    } else {
      SameFramesKeeps(tx, tx.(state := WaitAck), subs, t);
    }
  }

  /** The absolute number of a frame just sent from a window whose absolute lower edge is `t`. */
  function StampOf(tx: Tx, t: nat, f: DataFrame): nat {
    t + SeqDist(tx.lwe, f.seqNo)
  }

  /** What one engine step guarantees. */
  ghost predicate StepInv(tx: Tx, out: TxOut, subs: seq<Cpdu>, t: nat, sent: multiset<nat>, max: int) {
    || (out.failed && out.frame == None && out.tx == FRESH_TX)
    || (&& !out.failed
        && TxInv(out.tx, subs, t)
        && t + tx.count <= t + out.tx.count
        && (forall x :: IsAcked(out.tx, t, x) ==> IsAcked(tx, t, x))
        && (out.frame == None ==> SentInv(out.tx, t, sent, max))
        && (out.frame.Some? ==>
             var s := StampOf(out.tx, t, out.frame.value);
             && t <= s < t + out.tx.count
             && Carries(out.frame.value, AllSegs(subs), s)
             && SentInv(out.tx, t, sent + multiset{s}, max)))
  }

  /** Marking timeouts changes statuses only, and acknowledges nothing. */
  lemma TimeoutsInv(tx: Tx, subs: seq<Cpdu>, t: nat, now: int, cfg: Config, sent: multiset<nat>, max: int)
    requires TxInv(tx, subs, t) && SentInv(tx, t, sent, max) && tx.state == WaitAck
    ensures TxInv(MarkTimeouts(tx, now, cfg), subs, t)
    ensures SentInv(MarkTimeouts(tx, now, cfg), t, sent, max)
    ensures forall x :: IsAcked(MarkTimeouts(tx, now, cfg), t, x) ==> IsAcked(tx, t, x)
  {
    var b := MarkTimeouts(tx, now, cfg);
    assert b.slots.Keys == tx.slots.Keys;
    SameFramesKeeps(tx, b, subs, t);
    forall x | t <= x < t + b.count ensures Counted(b.slots, sent, max, x) {
      assert Counted(tx.slots, sent, max, x);
    }
  }

  /** Closing an empty window moves on to the next C_PDU with the window edge where it is. */
  lemma CompletedInv(tx: Tx, subs: seq<Cpdu>, t: nat, sent: multiset<nat>, max: int)
    requires TxInv(tx, subs, t) && SentInv(tx, t, sent, max) && tx.state == WaitAck && tx.count == 0
    ensures TxInv(Completed(tx), subs, t)
    ensures SentInv(Completed(tx), t, sent, max)
    ensures Done(Completed(tx), subs) == Done(tx, subs) + 1
  {
    AddExact(t, 0);
    assert Completed(tx).queue == subs[Done(tx, subs) + 1..];
  }

  /** Segmenting from IDLE keeps the retry accounting. */
  lemma SegmentedSent(tx: Tx, subs: seq<Cpdu>, t: nat, now: int, sent: multiset<nat>, max: int)
    requires TxInv(tx, subs, t) && SentInv(tx, t, sent, max) && tx.state == Idle && tx.queue != []
    ensures TxInv(Segmented(tx, now), subs, t)
    ensures SentInv(Segmented(tx, now), t, sent, max)
    ensures forall x :: !IsAcked(Segmented(tx, now), t, x)
  {
    SegmentedInv(tx, subs, t, now);
    var b := Segmented(tx, now);
    forall x | t <= x < t + b.count ensures Counted(b.slots, sent, max, x) && !IsAcked(b, t, x) {
      assert Unsent(b.slots, x);
    }
  }

  /** If everything is acknowledged, so is the frame at the window edge, unless the window is empty. */
  lemma EmptyWhenAllAcked(tx: Tx, t: nat)
    requires tx.lwe == t % SEQ_MOD && AllAcked(tx)
    ensures tx.count > 0 ==> IsAcked(tx, t, t)
  {
    if tx.count > 0 {
      AtOffset(tx, t, 0);
      assert HasStatus(tx, 0, Acked);
    }
  }

  /** Closing a C_PDU and starting the next one, if any, keeps the invariants. */
  lemma NextCpduInv(tx: Tx, subs: seq<Cpdu>, t: nat, now: int, cfg: Config, sent: multiset<nat>)
    requires TxInv(tx, subs, t) && SentInv(tx, t, sent, cfg.maxRetries) && tx.state == WaitAck && tx.count == 0
    ensures var next := Completed(tx);
      StepInv(tx, if next.queue == [] then TxOut(next, None, false) else SendPhase(Segmented(next, now), now),
              subs, t, sent, cfg.maxRetries)
  {
    CompletedInv(tx, subs, t, sent, cfg.maxRetries);
    var next := Completed(tx);
    if next.queue != [] {
      SegmentedSent(next, subs, t, now, sent, cfg.maxRetries);
      SendPhaseInv(Segmented(next, now), subs, t, now, sent, cfg.maxRetries);
    }
  }

  lemma WaitAckPhaseInv(tx: Tx, subs: seq<Cpdu>, t: nat, now: int, cfg: Config, sent: multiset<nat>)
    requires TxInv(tx, subs, t) && SentInv(tx, t, sent, cfg.maxRetries) && tx.state == WaitAck
    requires !IsAcked(tx, t, t)
    ensures StepInv(tx, WaitAckPhase(tx, now, cfg), subs, t, sent, cfg.maxRetries)
  {
    TimeoutsInv(tx, subs, t, now, cfg, sent, cfg.maxRetries);
    var marked := MarkTimeouts(tx, now, cfg);
    var waiting := FirstWith(tx, SentWaitAck, 0) < tx.count;
    var nacked := FirstWith(marked, Nacked, 0) < tx.count;
    if nacked && !waiting {
      var again := marked.(state := Retransmit);
      SameFramesKeeps(marked, again, subs, t);
      RetransmitPhaseInv(again, subs, t, now, cfg, sent);
    } else if AllAcked(marked) {
      EmptyWhenAllAcked(marked, t);
      NextCpduInv(marked, subs, t, now, cfg, sent);
    }
  }

  /** One pass of the state machine keeps the transmit invariants if the frame at the edge is not acknowledged. */
  lemma TxSingleInv(tx: Tx, subs: seq<Cpdu>, t: nat, now: int, cfg: Config, sent: multiset<nat>)
    requires TxInv(tx, subs, t) && SentInv(tx, t, sent, cfg.maxRetries) && TxWf(tx)
    requires !IsAcked(tx, t, t)
    ensures StepInv(tx, TxSingle(tx, now, cfg), subs, t, sent, cfg.maxRetries)
  {
    match tx.state
    case Idle =>
      if tx.queue != [] {
        SegmentedSent(tx, subs, t, now, sent, cfg.maxRetries);
        SendPhaseInv(Segmented(tx, now), subs, t, now, sent, cfg.maxRetries);
      }
    case Send => SendPhaseInv(tx, subs, t, now, sent, cfg.maxRetries);
    case Retransmit => RetransmitPhaseInv(tx, subs, t, now, cfg, sent);
    case WaitAck => WaitAckPhaseInv(tx, subs, t, now, cfg, sent);
  }

  // ---- One transmit opportunity -------------------------------------------

  /** In a sending phase the frame comes from the first wanted offset, and that offset is not wanted again. */
  lemma PhaseOrder(x: Tx, subs: seq<Cpdu>, t: nat, now: int, cfg: Config)
    requires TxInv(x, subs, t) && Bursting(x)
    ensures var out := if x.state == Send then SendPhase(x, now) else RetransmitPhase(x, now, cfg);
      out.frame.Some? ==>
        && out.tx.lwe == x.lwe && out.tx.state == x.state && out.tx.count == x.count
        && SeqDist(x.lwe, out.frame.value.seqNo) == FirstWith(x, Wanted(x), 0)
        && FirstWith(x, Wanted(x), 0) < FirstWith(out.tx, Wanted(x), 0)
  {
    hide WaitAckPhase, Segmented, HasStatus;
    var i := FirstWith(x, Wanted(x), 0);
    TxInvWf(x, subs, t);
    if i < x.count {
      AtOffset(x, t, i);
      assert SlotOwn(x.slots, AllSegs(subs), t + i);
      DistExact(t, t + i);
      if TxSingle(x, now, cfg).frame.Some? { PassProgress(x, now, cfg); }
    }
  }

  /** Every pass that gives a frame gives one below all offsets still wanted. */
  lemma PassOrder(tx: Tx, subs: seq<Cpdu>, t: nat, now: int, cfg: Config, sent: multiset<nat>)
    requires TxInv(tx, subs, t) && SentInv(tx, t, sent, cfg.maxRetries) && TxWf(tx)
    requires !IsAcked(tx, t, t)
    ensures var out := TxSingle(tx, now, cfg);
      out.frame.Some? ==>
        && SeqDist(out.tx.lwe, out.frame.value.seqNo) < FirstWith(out.tx, Wanted(out.tx), 0)
        && (Bursting(tx) ==> SeqDist(out.tx.lwe, out.frame.value.seqNo) == FirstWith(tx, Wanted(tx), 0))
  {
    hide SlotOwn, AllSegs, Admissible, Base, SentInv, FirstWith, SeqDist;
    if Bursting(tx) {
      PhaseOrder(tx, subs, t, now, cfg);
    } else if tx.state == Idle {
      if tx.queue != [] {
        SegmentedSent(tx, subs, t, now, sent, cfg.maxRetries);
        PhaseOrder(Segmented(tx, now), subs, t, now, cfg);
      }
    } else {
      TimeoutsInv(tx, subs, t, now, cfg, sent, cfg.maxRetries);
      var marked := MarkTimeouts(tx, now, cfg);
      var again := marked.(state := Retransmit);
      SameFramesKeeps(marked, again, subs, t);
      PhaseOrder(again, subs, t, now, cfg);
      if AllAcked(marked) {
        EmptyWhenAllAcked(marked, t);
        CompletedInv(marked, subs, t, sent, cfg.maxRetries);
        var next := Completed(marked);
        if next.queue != [] {
          SegmentedSent(next, subs, t, now, sent, cfg.maxRetries);
          PhaseOrder(Segmented(next, now), subs, t, now, cfg);
        }
      }
    }
  }

  /** The frames carry strictly increasing absolute numbers, all below `t + count`. */
  ghost predicate Increasing(frames: seq<DataFrame>, lwe: int, low: nat, count: nat) {
    && (forall i :: 0 <= i < |frames| ==> low <= SeqDist(lwe, frames[i].seqNo) < count)
    && (forall i, j :: 0 <= i < j < |frames| ==> SeqDist(lwe, frames[i].seqNo) < SeqDist(lwe, frames[j].seqNo))
  }

  lemma IncreasingCons(f: DataFrame, rest: seq<DataFrame>, lwe: int, low: nat, mid: nat, count: nat)
    requires Increasing(rest, lwe, mid, count)
    requires low <= SeqDist(lwe, f.seqNo) < mid && SeqDist(lwe, f.seqNo) < count
    ensures Increasing([f] + rest, lwe, low, count)
  {
  }

  /** A pass without a frame ends the call in IDLE or WAIT_ACK. */
  lemma QuietPass(tx: Tx, now: int, cfg: Config)
    requires TxWf(tx)
    ensures var out := TxSingle(tx, now, cfg);
      out.frame == None ==> (out.tx.state == Idle || out.tx.state == WaitAck) && (out.failed ==> out.tx == FRESH_TX)
  {
  }

  /**
   * One call of the transmit machine sends each number of the window at most once, in increasing order,
   * and leaves the engine idle or waiting for an acknowledgement.
   */
  lemma {:induction false} BurstOnce(tx: Tx, subs: seq<Cpdu>, t: nat, now: int, cfg: Config, sent: multiset<nat>)
    requires TxInv(tx, subs, t) && SentInv(tx, t, sent, cfg.maxRetries) && TxWf(tx)
    requires !IsAcked(tx, t, t)
    ensures var b := Burst(tx, now, cfg);
      && (b.tx.state == Idle || b.tx.state == WaitAck)
      && (b.failed ==> b.tx == FRESH_TX)
      && Increasing(b.frames, t % SEQ_MOD, if Bursting(tx) then FirstWith(tx, Wanted(tx), 0) else 0, WINDOW)
    decreases !Bursting(tx), Left(tx)
  {
    var out := TxSingle(tx, now, cfg);
    if out.frame == None {
      QuietPass(tx, now, cfg);
    } else {
      var f := out.frame.value;
      TxSingleInv(tx, subs, t, now, cfg, sent);
      PassProgress(tx, now, cfg);
      PassOrder(tx, subs, t, now, cfg, sent);
      TxInvWf(out.tx, subs, t);
      BurstOnce(out.tx, subs, t, now, cfg, sent + multiset{StampOf(out.tx, t, f)});
      IncreasingCons(f, Burst(out.tx, now, cfg).frames, t % SEQ_MOD,
                     if Bursting(tx) then FirstWith(tx, Wanted(tx), 0) else 0,
                     FirstWith(out.tx, Wanted(out.tx), 0), WINDOW);
    }
  }

  // ---- Acknowledgement ----------------------------------------------------

  /** Bit `x - edge - 1` of the bitmap is present and set. */
  predicate BitFor(bitmap: bytes, edge: nat, x: nat) {
    edge < x <= edge + 8 * |bitmap| && BitAt(bitmap, x - edge - 1)
  }

  /** Marking slots from the bitmap acknowledges nothing but set bits. */
  lemma MarkedInv(tx: Tx, subs: seq<Cpdu>, t: nat, edge: nat, bitmap: bytes, sent: multiset<nat>, max: int)
    requires TxInv(tx, subs, t) && SentInv(tx, t, sent, max)
    requires t <= edge <= t + tx.count && |bitmap| <= 16
    ensures var acks := ParseSelectiveAck(edge % SEQ_MOD, bitmap, tx.lwe, tx.count, 0);
      var b := tx.(slots := map k | k in tx.slots :: Marked(tx.slots[k], k, acks));
      && TxInv(b, subs, t) && SentInv(b, t, sent, max)
      && (forall x :: IsAcked(b, t, x) ==> IsAcked(tx, t, x) || BitFor(bitmap, edge, x))
  {
    TxInvWf(tx, subs, t);
    var acks := ParseSelectiveAck(edge % SEQ_MOD, bitmap, tx.lwe, tx.count, 0);
    var b := tx.(slots := map k | k in tx.slots :: Marked(tx.slots[k], k, acks));
    SameFramesKeeps(tx, b, subs, t);
    forall x | t <= x < t + b.count
      ensures Counted(b.slots, sent, max, x)
      ensures IsAcked(b, t, x) ==> IsAcked(tx, t, x) || BitFor(bitmap, edge, x)
    {
      assert Counted(tx.slots, sent, max, x) && SlotOwn(tx.slots, AllSegs(subs), x);
      ParsedBit(edge, bitmap, t, tx.count, x);
    }
  }

  /** Receipt of an ACK moves the edge to the receiver's edge and acknowledges nothing but set bits. */
  lemma OnAckInv(tx: Tx, subs: seq<Cpdu>, t: nat, edge: nat, a: AckFrame, sent: multiset<nat>, max: int)
    requires TxInv(tx, subs, t) && SentInv(tx, t, sent, max)
    requires t <= edge <= t + tx.count && |a.selAcks| <= 16 && a.rxLwe == edge % SEQ_MOD
    ensures var b := OnAck(tx, a);
      && TxInv(b, subs, edge) && SentInv(b, edge, sent, max)
      && edge + b.count == t + tx.count && b.queue == tx.queue && b.state == tx.state
      && (forall x :: IsAcked(b, edge, x) ==> IsAcked(tx, t, x) || BitFor(a.selAcks, edge, x))
  {
    hide Marked, AllSegs;
    MarkedInv(tx, subs, t, edge, a.selAcks, sent, max);
    TxInvWf(tx, subs, t);
    DistExact(t, edge);
    var acks := ParseSelectiveAck(edge % SEQ_MOD, a.selAcks, tx.lwe, tx.count, 0);
    var m := tx.(slots := map k | k in tx.slots :: Marked(tx.slots[k], k, acks));
    var n := edge - t;
    if n > 0 {
      AddExact(t, n);
      var b := OnAck(tx, a);
      assert b == m.(slots := AckPrefix(m, n), lwe := edge % SEQ_MOD, count := tx.count - n);
      forall x | edge <= x < edge + b.count
        ensures SlotOwn(b.slots, AllSegs(subs), x) && Counted(b.slots, sent, max, x)
        ensures b.slots[Slot(x)] == m.slots[Slot(x)]
      {
        assert SlotOwn(m.slots, AllSegs(subs), x) && Counted(m.slots, sent, max, x);
        DistExact(t, x);
      }
      forall x | IsAcked(b, edge, x) ensures IsAcked(m, t, x) {
      }
    }
  }
}

/** The limit of 128 segments for a C_PDU: within it the C_PDU can be delivered, beyond it never. */
module ArqLong {
  import opened Prelude
  import opened Chunking
  import opened ArqTypes
  import opened ArqSegs
  import opened ArqTx
  import opened ArqRx
  import opened ArqRxProof
  import opened ArqTxProof
  import opened ArqLimits
  import Link = ArqLink

  // ---- Beyond the limit ---------------------------------------------------

  /** No frame that starts a C_PDU is left in the slots. */
  predicate NoStart(slots: map<int, TxSlot>) {
    forall k :: k in slots ==> !slots[k].encoded.pduStart
  }

  /** The ring holds no segment that starts a C_PDU. */
  predicate NoStartHeld(ring: RxRing) {
    forall k :: 0 <= k < WINDOW && ring[k].status == RxStatus.Received ==> !ring[k].pduStart
  }

  predicate StartsOnlyAt(slots: map<int, TxSlot>, at: int, m: nat) {
    forall k :: k in slots && slots[k].encoded.pduStart ==> k == at && m <= WINDOW
  }

  /** After the first `m` frames are stored, at most the first one has its start flag, and only up to the 128th. */
  lemma {:induction false} StoredStarts(slots: map<int, TxSlot>, p: Cpdu, base: nat, uwe: int, lwe: int, now: int,
      m: nat)
    requires NoStart(slots) && m <= |FramesOf(p, base % SEQ_MOD, uwe, lwe)|
    ensures StartsOnlyAt(Populate(slots, FramesOf(p, base % SEQ_MOD, uwe, lwe)[..m], now), Slot(base), m)
    decreases m
  {
    if m > 0 {
      var frames := FramesOf(p, base % SEQ_MOD, uwe, lwe);
      StoredStarts(slots, p, base, uwe, lwe, now, m - 1);
      assert frames[..m][..m - 1] == frames[..m - 1] && frames[..m][m - 1] == frames[m - 1];
      FrameSlot(p, base, uwe, lwe, m - 1);
      var prev, stored := Populate(slots, frames[..m - 1], now), Populate(slots, frames[..m], now);
      var here := Slot(frames[m - 1].seqNo);
      assert stored == prev[here := FreshSlot(frames[m - 1], now)];
      assert frames[m - 1].pduStart <==> m == 1;
      forall k | k in stored && stored[k].encoded.pduStart ensures k == Slot(base) && m <= WINDOW {
        if k != here {
          assert k in prev && prev[k] == stored[k];
        }
      }
    }
  }

  /** Segmenting a C_PDU that is too long leaves no start of it behind. */
  lemma SegmentedHeadless(tx: Tx, now: int)
    requires tx.queue != [] && |CpduSegs(tx.queue[0].payload)| > WINDOW && 0 <= tx.nextSeq < SEQ_MOD
    requires NoStart(tx.slots)
    ensures NoStart(Segmented(tx, now).slots)
  {
    var p := tx.queue[0];
    assert tx.nextSeq % SEQ_MOD == tx.nextSeq;
    var frames := FramesOf(p, tx.nextSeq, LastSeq(p, tx.nextSeq), tx.lwe);
    StoredStarts(tx.slots, p, tx.nextSeq, LastSeq(p, tx.nextSeq), tx.lwe, now, |frames|);
    assert frames[..|frames|] == frames;
  }

  /** The transmit half has no start left, and nothing but C_PDUs that are too long to send. */
  predicate Sterile(tx: Tx) {
    && (forall p :: p in tx.queue ==> |CpduSegs(p.payload)| > WINDOW)
    && 0 <= tx.nextSeq < SEQ_MOD && tx.state != Segment && NoStart(tx.slots)
  }

  predicate SterileOut(out: TxOut) {
    Sterile(out.tx) && (out.frame.Some? ==> !out.frame.value.pduStart)
  }

  lemma PhaseSterile(tx: Tx, now: int, cfg: Config)
    requires Sterile(tx)
    ensures SterileOut(SendPhase(tx, now)) && SterileOut(RetransmitPhase(tx, now, cfg))
  {
  }

  lemma SegmentedSterile(tx: Tx, now: int)
    requires Sterile(tx) && tx.queue != []
    ensures Sterile(Segmented(tx, now))
  {
    SegmentedHeadless(tx, now);
  }

  lemma MarkedSterile(tx: Tx, now: int, cfg: Config)
    requires Sterile(tx) && tx.queue != []
    ensures Sterile(MarkTimeouts(tx, now, cfg)) && Sterile(MarkTimeouts(tx, now, cfg).(state := Retransmit))
    ensures MarkTimeouts(tx, now, cfg).queue == tx.queue && Sterile(Completed(MarkTimeouts(tx, now, cfg)))
  {
  }

  /** A pass of the transmit machine sends no start. */
  lemma PassSterile(tx: Tx, now: int, cfg: Config)
    requires TxWf(tx) && Sterile(tx)
    ensures SterileOut(TxSingle(tx, now, cfg))
  {
    hide RetransmitPhase;
    assert tx.state != Segment;
    hide NoStart, SendPhase, RetransmitPhase, Segmented, MarkTimeouts, Completed;
    PhaseSterile(tx, now, cfg);
    if tx.state == Idle && tx.queue != [] {
      SegmentedSterile(tx, now);
      PhaseSterile(Segmented(tx, now), now, cfg);
    } else if tx.state == WaitAck {
      var marked := MarkTimeouts(tx, now, cfg);
      MarkedSterile(tx, now, cfg);
      PhaseSterile(marked.(state := Retransmit), now, cfg);
      var next := Completed(marked);
      if next.queue != [] {
        SegmentedSterile(next, now);
        PhaseSterile(Segmented(next, now), now, cfg);
      }
    }
  }

  /** Without a start there is nothing to deliver. */
  lemma NothingToDeliver(rx: Rx)
    requires NoStartHeld(rx.ring)
    ensures TryDeliver(rx) == rx
  {
    var count := SeqDist(rx.deliverLwe, rx.lwe);
    var i := FirstEnd(rx, 0, count);
    if i < count {
      var s := SeqAdd(rx.deliverLwe, i);
      StartBackFound(rx.ring, s, WINDOW);
    }
  }

  lemma ReceiveHeadless(rx: Rx, f: DataFrame, crcBad: bool)
    requires NoStartHeld(rx.ring) && !f.pduStart
    ensures NoStartHeld(OnData(rx, f, crcBad).ring) && OnData(rx, f, crcBad).delivered == rx.delivered
  {
    var ring1 := rx.ring[Slot(f.seqNo) := Stored(f, crcBad)];
    assert NoStartHeld(ring1);
    NothingToDeliver(Advanced(rx.(ring := ring1)));
  }

  lemma HearHeadless(tx: Tx, a: AckFrame)
    requires NoStart(tx.slots)
    ensures NoStart(OnAck(tx, a).slots)
    ensures OnAck(tx, a).queue == tx.queue && OnAck(tx, a).nextSeq == tx.nextSeq && OnAck(tx, a).state == tx.state
  {
  }

  /** All queued C_PDUs are longer than the window, and no start of one is anywhere. */
  ghost predicate Headless(l: Link.Link) {
    && Sterile(l.tx) && NoStartHeld(l.rx.ring) && l.rx.delivered == []
    && forall i :: 0 <= i < |l.data| ==> !l.data[i].frame.pduStart
  }

  lemma StepHeadless(l: Link.Link, step: Link.Step, cfg: Config)
    requires Headless(l) && Link.Possible(l, step) && (step.Submit? ==> |CpduSegs(step.p.payload)| > WINDOW)
    ensures Headless(Link.Next(l, step, cfg))
  {
    match step
    case Transmit(now) => PassSterile(l.tx, now, cfg);
    case ReceiveData => ReceiveHeadless(l.rx, l.data[0].frame, false);
    case CorruptData => ReceiveHeadless(l.rx, l.data[0].frame, true);
    case ReceiveAck => HearHeadless(l.tx, l.acks[0].frame);
    case _ =>
  }

  /** C_PDUs of more than 128 segments are never delivered, whatever is lost, damaged or sent again, and how often. */
  lemma {:induction false} LongNeverDelivered(steps: seq<Link.Step>, cfg: Config)
    requires AfterAny(steps, cfg).Some?
    requires forall i :: 0 <= i < |steps| && steps[i].Submit? ==> |CpduSegs(steps[i].p.payload)| > WINDOW
    ensures AfterAny(steps, cfg).value.rx.delivered == []
  {
    RunHeadless(steps, cfg);
  }

  lemma {:induction false} RunHeadless(steps: seq<Link.Step>, cfg: Config)
    requires AfterAny(steps, cfg).Some?
    requires forall i :: 0 <= i < |steps| && steps[i].Submit? ==> |CpduSegs(steps[i].p.payload)| > WINDOW
    ensures Headless(AfterAny(steps, cfg).value)
    decreases |steps|
  {
    if steps != [] {
      var n := |steps| - 1;
      assert forall i :: 0 <= i < n ==> steps[..n][i] == steps[i];
      RunHeadless(steps[..n], cfg);
      StepHeadless(AfterAny(steps[..n], cfg).value, steps[n], cfg);
    }
  }

  // ---- Within the limit ---------------------------------------------------

  /** The frames below `k` have been sent, and the others not. */
  predicate SentUpTo(tx: Tx, n: nat, k: nat) {
    && tx.state == Send && tx.count == n <= WINDOW && tx.lwe == 0 && k <= n
    && (forall i :: 0 <= i < k ==> HasStatus(tx, i, SentWaitAck))
    && (forall i :: k <= i < n ==> HasStatus(tx, i, Pending))
  }

  lemma SendIs(tx: Tx, n: nat, k: nat)
    requires SentUpTo(tx, n, k) && k < n
    ensures k in tx.slots
    ensures var s := tx.slots[k];
      SendPhase(tx, 0) == TxOut(SetSlot(tx, k, s.(status := SentWaitAck, txTime := 0)), Some(s.encoded), false)
  {
    var i := FirstWith(tx, Pending, 0);
    assert HasStatus(tx, k, Pending) && (i < k ==> HasStatus(tx, i, SentWaitAck));
  }

  lemma SendNext(tx: Tx, n: nat, k: nat, s: TxSlot)
    requires SentUpTo(tx, n, k) && k < n && s.status == SentWaitAck
    ensures SentUpTo(SetSlot(tx, k, s), n, k + 1)
  {
    var tx1 := SetSlot(tx, k, s);
    assert forall j :: 0 <= j < n ==> Slot(SeqAt(tx, j)) == j && Slot(SeqAt(tx1, j)) == j;
    forall j | 0 <= j < k + 1 ensures HasStatus(tx1, j, SentWaitAck) {
      assert j < k ==> HasStatus(tx, j, SentWaitAck);
    }
    forall j | k + 1 <= j < n ensures HasStatus(tx1, j, Pending) {
      assert HasStatus(tx, j, Pending);
    }
  }

  /** The first `k` frames of the C_PDU are on the air, in order, and nothing has arrived. */
  ghost predicate OnAir(l: Link.Link, cfg: Config, c: Cpdu, k: nat) {
    && !l.failed && l.subs == [c] && l.t == 0 && l.r == 0 && l.rx == FreshRx() && TxInv(l.tx, l.subs, 0)
    && SentUpTo(l.tx, |CpduSegs(c.payload)|, k) && |l.data| == k && (forall i :: 0 <= i < k ==> l.data[i].stamp == i)
  }

  /** A run that submits nothing but this C_PDU. */
  ghost predicate RunOf(steps: seq<Link.Step>, cfg: Config, c: Cpdu) {
    && Link.After(steps, cfg).Some?
    && forall i :: 0 <= i < |steps| && steps[i].Submit? ==> steps[i].p == c
  }

  lemma Onward(steps: seq<Link.Step>, step: Link.Step, cfg: Config, c: Cpdu)
    requires RunOf(steps, cfg, c) && Link.Enabled(Link.After(steps, cfg).value, step) && (step.Submit? ==> step.p == c)
    ensures RunOf(steps + [step], cfg, c)
    ensures Link.After(steps + [step], cfg) == Some(Link.Next(Link.After(steps, cfg).value, step, cfg))
  {
    assert (steps + [step])[..|steps|] == steps;
  }

  /** A frame sent from a window whose edge is 0 is stamped with its offset. */
  lemma OwnStamp(tx: Tx, subs: seq<Cpdu>, k: nat)
    requires TxInv(tx, subs, 0) && k < tx.count <= WINDOW
    ensures k in tx.slots && tx.slots[k].encoded.seqNo == k
  {
    assert SlotOwn(tx.slots, AllSegs(subs), k);
  }

  function Queued(c: Cpdu): Tx { Tx(Idle, [c], 0, 0, 0, map[]) }

  /** The state after the submission. */
  lemma Submitted(c: Cpdu, cfg: Config) returns (steps: seq<Link.Step>)
    requires 0 < |CpduSegs(c.payload)| <= WINDOW
    ensures RunOf(steps, cfg, c)
    ensures Link.After(steps, cfg).value == Link.Link(Queued(c), FreshRx(), [], [], [c], 0, 0, multiset{}, false)
    ensures TxInv(Queued(c), [c], 0) && TxWf(Queued(c))
  {
    Onward([], Link.Step.Submit(c), cfg, c);
    steps := [] + [Link.Step.Submit(c)];
    assert [] + [c] == [c];
    assert TxInv(FRESH_TX, [], 0);
    Link.SubmitTx(FRESH_TX, [], 0, c);
    TxInvWf(Queued(c), [c], 0);
  }

  /** The window right after segmentation. */
  lemma Filled(c: Cpdu)
    requires TxInv(Queued(c), [c], 0)
    ensures var tx := Segmented(Queued(c), 0);
      TxInv(tx, [c], 0) && tx.count == |CpduSegs(c.payload)| > 0 && tx.queue == [c] && SentUpTo(tx, tx.count, 0)
  {
    hide Segmented, TxInv, SentUpTo, CpduSegs, Unsent;
    var tx := Segmented(Queued(c), 0);
    SegmentedInv(Queued(c), [c], 0, 0);
    FilledFields(c);
    FilledCount(tx, c);
    AllPending(tx, tx.count);
  }

  lemma FilledFields(c: Cpdu)
    ensures var tx := Segmented(Queued(c), 0); tx.queue == [c] && tx.state == Send && tx.lwe == 0
  {
  }

  lemma FilledCount(tx: Tx, c: Cpdu)
    requires TxInv(tx, [c], 0) && tx.queue == [c] && tx.state == Send
    ensures tx.count == |CpduSegs(c.payload)| <= WINDOW
  {
    TxInvWf(tx, [c], 0);
    CpduAt([c], 0);
  }

  lemma AllPending(tx: Tx, n: nat)
    requires tx.state == Send && tx.count == n <= WINDOW && tx.lwe == 0
    requires forall s :: 0 <= s < 0 + tx.count ==> Unsent(tx.slots, s)
    ensures SentUpTo(tx, n, 0)
  {
    forall i | 0 <= i < n ensures HasStatus(tx, i, Pending) {
      assert Unsent(tx.slots, i);
    }
  }

  /** The next frame leaves a window that is being sent. */
  lemma NextOut(tx: Tx, c: Cpdu, k: nat)
    requires TxInv(tx, [c], 0) && SentUpTo(tx, |CpduSegs(c.payload)|, k) && k < tx.count
    ensures var out := SendPhase(tx, 0);
      && TxInv(out.tx, [c], 0) && SentUpTo(out.tx, |CpduSegs(c.payload)|, k + 1) && !out.failed && out.frame.Some?
      && StampOf(out.tx, 0, out.frame.value) == k
  {
    var n := |CpduSegs(c.payload)|;
    assert n == tx.count <= WINDOW && tx.lwe == 0 && SlotOwn(tx.slots, AllSegs([c]), k);
    hide TxInv, SentUpTo, SendPhase, CpduSegs, Carries;
    SendIs(tx, n, k);
    OwnStamp(tx, [c], k);
    var s := tx.slots[k].(status := SentWaitAck, txTime := 0);
    SendNext(tx, n, k, s);
    SetOne(tx, [c], 0, k, s);
  }

  lemma {:induction false} AllOnAir(c: Cpdu, cfg: Config, k: nat) returns (steps: seq<Link.Step>)
    requires 0 < k <= |CpduSegs(c.payload)| <= WINDOW && cfg.maxRetries >= 0
    ensures RunOf(steps, cfg, c) && OnAir(Link.After(steps, cfg).value, cfg, c, k)
    decreases k
  {
    hide TxInv, SentUpTo, SendPhase, CpduSegs;
    if k == 1 {
      steps := Submitted(c, cfg);
      Filled(c);
      NextOut(Segmented(Queued(c), 0), c, 0);
      assert TxSingle(Queued(c), 0, cfg) == SendPhase(Segmented(Queued(c), 0), 0);
    } else {
      steps := AllOnAir(c, cfg, k - 1);
      var l := Link.After(steps, cfg).value;
      Sending(l.tx, c, k - 1);
      NextOut(l.tx, c, k - 1);
    }
    var l := Link.After(steps, cfg).value;
    Onward(steps, Link.Step.Transmit(0), cfg, c);
    steps := steps + [Link.Step.Transmit(0)];
    OneMoreOnAir(l, cfg, c, k - 1);
  }

  lemma Sending(tx: Tx, c: Cpdu, k: nat)
    requires TxInv(tx, [c], 0) && SentUpTo(tx, |CpduSegs(c.payload)|, k)
    ensures TxWf(tx) && tx.state == Send && tx.count == |CpduSegs(c.payload)|
  {
    TxInvWf(tx, [c], 0);
  }

  lemma OneMoreOnAir(l: Link.Link, cfg: Config, c: Cpdu, k: nat)
    requires !l.failed && l.subs == [c] && l.t == 0 && l.r == 0 && l.rx == FreshRx() && TxWf(l.tx)
    requires |l.data| == k && (forall i :: 0 <= i < k ==> l.data[i].stamp == i)
    requires var out := TxSingle(l.tx, 0, cfg);
      && TxInv(out.tx, [c], 0) && SentUpTo(out.tx, |CpduSegs(c.payload)|, k + 1) && !out.failed && out.frame.Some?
      && StampOf(out.tx, 0, out.frame.value) == k
    ensures OnAir(Link.Transmitted(l, 0, cfg), cfg, c, k + 1)
  {
    hide TxInv, SentUpTo, TxSingle;
  }

  /** The first `k` frames have arrived, in order, and the others are on the air. */
  ghost predicate Arrived(l: Link.Link, c: Cpdu, k: nat) {
    && !l.failed && l.subs == [c] && l.r == k && Link.Top(l) == |CpduSegs(c.payload)| == k + |l.data|
    && (forall i :: 0 <= i < |l.data| ==> l.data[i].stamp == k + i)
    && NothingFrom(l.rx.ring, k)
  }

  predicate NothingFrom(ring: RxRing, k: nat) {
    forall x: nat :: k <= x < SEQ_MOD ==> !Holds(ring, x)
  }

  lemma {:induction false} AllArrive(c: Cpdu, cfg: Config, k: nat) returns (steps: seq<Link.Step>)
    requires 0 < |CpduSegs(c.payload)| <= WINDOW && k <= |CpduSegs(c.payload)| && cfg.maxRetries >= 0
    ensures RunOf(steps, cfg, c) && Arrived(Link.After(steps, cfg).value, c, k)
    decreases k
  {
    hide CpduSegs, Arrived, OnAir;
    if k == 0 {
      steps := AllOnAir(c, cfg, |CpduSegs(c.payload)|);
      AirIsFull(Link.After(steps, cfg).value, cfg, c);
    } else {
      steps := AllArrive(c, cfg, k - 1);
      NextArrival(steps, c, cfg, k - 1);
      steps := steps + [Link.Step.ReceiveData];
    }
  }

  lemma NextArrival(steps: seq<Link.Step>, c: Cpdu, cfg: Config, k: nat)
    requires RunOf(steps, cfg, c) && Arrived(Link.After(steps, cfg).value, c, k)
    requires k < |CpduSegs(c.payload)| <= WINDOW && cfg.maxRetries >= 0
    ensures var more := steps + [Link.Step.ReceiveData];
      RunOf(more, cfg, c) && Arrived(Link.After(more, cfg).value, c, k + 1)
  {
    hide CpduSegs, NothingFrom, Link.LinkInv;
    Link.RunKeepsInv(steps, cfg);
    Onward(steps, Link.Step.ReceiveData, cfg, c);
    OneArrives(Link.After(steps, cfg).value, cfg, c, k);
  }

  lemma AirIsFull(l: Link.Link, cfg: Config, c: Cpdu)
    requires OnAir(l, cfg, c, |CpduSegs(c.payload)|)
    ensures Arrived(l, c, 0)
  {
  }

  lemma OneArrives(l: Link.Link, cfg: Config, c: Cpdu, k: nat)
    requires Link.LinkInv(l, cfg) && Arrived(l, c, k) && k < |CpduSegs(c.payload)| <= WINDOW
    ensures Arrived(Link.Received(l, false), c, k + 1)
  {
    EdgeMoves(l, cfg, k);
    hide Link.LinkInv, NothingFrom, OnData;
    assert l.data[1..] == l.data[1..];
  }

  /** A segment that follows directly on everything received moves the edge by one. */
  lemma EdgeMoves(l: Link.Link, cfg: Config, k: nat)
    requires Link.LinkInv(l, cfg) && l.data != [] && l.r == k == l.data[0].stamp && k < WINDOW
        && NothingFrom(l.rx.ring, k)
    ensures Link.Received(l, false).r == k + 1 && NothingFrom(Link.Received(l, false).rx.ring, k + 1)
  {
    hide OnData, AllSegs, Base;
    InCharge(l, cfg);
    var d := Base(l.subs, |l.rx.delivered|);
    var r1 := OnDataExact(l.rx, AllSegs(l.subs), d, k, Link.Top(l), l.data[0].frame, k);
    DistExact(k, r1);
    var ring, ring1 := l.rx.ring, OnData(l.rx, l.data[0].frame, false).ring;
    assert r1 >= k + 1;
    assert !Got(ring, k, k + 1) && !Got(ring1, r1, k + 1);
    forall x: nat | k + 1 <= x < SEQ_MOD ensures !Holds(ring1, x) {
      assert !Got(ring, k, x);
    }
  }

  /** What the receiver needs to know of the C_PDU in progress. */
  lemma InCharge(l: Link.Link, cfg: Config)
    requires Link.LinkInv(l, cfg) && l.data != []
    ensures |l.rx.delivered| <= |l.subs|
    ensures var segs, d, top := AllSegs(l.subs), Base(l.subs, |l.rx.delivered|), Link.Top(l);
      && RingInv(l.rx.ring, segs, d, l.r, top) && OneCpdu(segs, d, top)
      && l.rx.deliverLwe == d % SEQ_MOD && l.rx.lwe == l.r % SEQ_MOD && !Holds(l.rx.ring, l.r)
      && Carries(l.data[0].frame, segs, l.data[0].stamp) && l.r <= l.data[0].stamp + WINDOW && l.data[0].stamp < top
      && (l.r == top ==> d == top)
  {
    Link.HeadFacts(l, cfg);
    Link.InProgress(l);
    Link.Progress(l);
  }

  /** When all segments have arrived, the C_PDU has been delivered. */
  lemma AllIsDelivered(l: Link.Link, cfg: Config, c: Cpdu)
    requires Link.LinkInv(l, cfg) && l.subs == [c] && l.r == Link.Top(l) == |CpduSegs(c.payload)| > 0
    ensures l.rx.delivered == [c.payload]
  {
    CpduAt([c], 0);
    assert [c][..0] == [] && [c][..1] == [c];
    InCpduUnique(l.subs, l.r, |l.rx.delivered|, 1);
  }

  lemma ShortDelivered(c: Cpdu, cfg: Config) returns (steps: seq<Link.Step>)
    requires 0 < |CpduSegs(c.payload)| <= WINDOW && cfg.maxRetries >= 0
    ensures RunOf(steps, cfg, c) && Link.After(steps, cfg).value.rx.delivered == [c.payload]
  {
    steps := AllArrive(c, cfg, |CpduSegs(c.payload)|);
    Link.RunKeepsInv(steps, cfg);
    AllIsDelivered(Link.After(steps, cfg).value, cfg, c);
  }

  /** Some run that submits nothing but this C_PDU delivers it. */
  ghost predicate CanBeDelivered(c: Cpdu, cfg: Config) {
    exists steps: seq<Link.Step> ::
      && AfterAny(steps, cfg).Some? && c.payload in AfterAny(steps, cfg).value.rx.delivered
      && forall i :: 0 <= i < |steps| && steps[i].Submit? ==> steps[i].p == c
  }

  /** The limit is exact: a C_PDU can be delivered if and only if it fits 128 segments of 1023 octets. */
  lemma DeliverableIff(c: Cpdu, cfg: Config)
    requires c.payload != [] && cfg.maxRetries >= 0
    ensures CanBeDelivered(c, cfg) <==> |c.payload| <= 128 * 1023
  {
    CpduData(c.payload);
    if |CpduSegs(c.payload)| <= WINDOW {
      var steps := ShortDelivered(c, cfg);
      GuardedIsAny(steps, cfg);
    }
    if CanBeDelivered(c, cfg) && |CpduSegs(c.payload)| > WINDOW {
      var steps: seq<Link.Step> :|
        && AfterAny(steps, cfg).Some? && c.payload in AfterAny(steps, cfg).value.rx.delivered
        && forall i :: 0 <= i < |steps| && steps[i].Submit? ==> steps[i].p == c;
      LongNeverDelivered(steps, cfg);
    }
  }
}

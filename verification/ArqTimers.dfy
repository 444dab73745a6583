/** When the sender repeats a frame, and when it gives the link up, over every run. */
module ArqTimers {
  import opened Bits
  import opened Prelude
  import opened ArqTypes
  import opened ArqSegs
  import opened ArqTx
  import opened ArqRx
  import opened ArqRxProof
  import opened ArqTxProof
  import opened ArqLink
  import opened ArqSlots

  /** The number that a step puts on the air, if it puts one there. */
  function Sends(l: Link, step: Step, cfg: Config): Option<nat>
    requires Possible(l, step)
  {
    var l1 := Next(l, step, cfg);
    if |l1.data| > |l.data| then Some(l1.data[|l.data|].stamp) else None
  }

  /** The index of the step of the run that put number `x` on the air last. */
  function LastSent(steps: seq<Step>, cfg: Config, x: nat): (r: Option<nat>)
    requires After(steps, cfg).Some?
    ensures r.Some? ==> r.value < |steps| && steps[r.value].Transmit?
    decreases |steps|
  {
    if steps == [] then None
    else
      var n := |steps| - 1;
      if Sends(After(steps[..n], cfg).value, steps[n], cfg) == Some(x) then Some(n) else LastSent(steps[..n], cfg, x)
  }

  /** Since step `i`, an ACK has arrived, or a call has found the time of a frame sent at step `i` run out. */
  predicate Excused(steps: seq<Step>, i: nat, cfg: Config)
    requires i < |steps| && steps[i].Transmit?
  {
    exists j :: i < j < |steps| &&
      (steps[j].ReceiveAck? || (steps[j].Transmit? && steps[j].now - steps[i].now >= cfg.retxTimeout))
  }

  /** What the state keeps of a frame's history: the time of its last transmission, or why it counts as missing. */
  ghost predicate SlotTimed(steps: seq<Step>, cfg: Config, s: TxSlot, x: nat)
    requires After(steps, cfg).Some?
  {
    var last := LastSent(steps, cfg, x);
    && (s.status == SentWaitAck ==> last.Some? && s.txTime == steps[last.value].now)
    && (s.status == Nacked && last.Some? ==> Excused(steps, last.value, cfg))
  }

  ghost predicate Timed(steps: seq<Step>, cfg: Config)
    requires After(steps, cfg).Some?
  {
    var l := After(steps, cfg).value;
    && RingKeys(l.tx)
    && (forall x :: LastSent(steps, cfg, x).Some? <==> x in l.sent)
    && (forall x :: l.t <= x < Top(l) ==> Slot(x) in l.tx.slots && SlotTimed(steps, cfg, Of(l.tx, x), x))
  }

  // ---- One more step ------------------------------------------------------

  /** The state before the last step of a run. */
  function Before(steps: seq<Step>, cfg: Config): (l: Link)
    requires steps != [] && After(steps, cfg).Some?
    ensures After(steps[..|steps| - 1], cfg) == Some(l) && Enabled(l, steps[|steps| - 1])
    ensures After(steps, cfg) == Some(Next(l, steps[|steps| - 1], cfg))
  {
    After(steps[..|steps| - 1], cfg).value
  }

  /** What was recorded of a frame that the last step did not send still holds. */
  lemma StillTimed(steps: seq<Step>, cfg: Config, s: TxSlot, x: nat)
    requires steps != [] && After(steps, cfg).Some? && Sends(Before(steps, cfg), steps[|steps| - 1], cfg) != Some(x)
    requires SlotTimed(steps[..|steps| - 1], cfg, s, x)
    ensures SlotTimed(steps, cfg, s, x)
  {
    hide After, Sends, Next;
    var n := |steps| - 1;
    var last := LastSent(steps[..n], cfg, x);
    assert LastSent(steps, cfg, x) == last;
    if s.status == Nacked && last.Some? {
      var j :| last.value < j < n && (steps[..n][j].ReceiveAck? ||
        (steps[..n][j].Transmit? && steps[..n][j].now - steps[..n][last.value].now >= cfg.retxTimeout));
      assert steps[..n][j] == steps[j] && steps[..n][last.value] == steps[last.value];
    }
  }

  /** A step that leaves the transmit window alone. */
  lemma WindowAlone(steps: seq<Step>, cfg: Config)
    requires steps != [] && After(steps, cfg).Some?
    requires var l, l1 := Before(steps, cfg), After(steps, cfg).value;
      && l1.tx == l.tx.(queue := l1.tx.queue) && l1.t == l.t && l1.sent == l.sent && |l1.data| <= |l.data|
    requires Timed(steps[..|steps| - 1], cfg)
    ensures Timed(steps, cfg)
  {
    hide After, Next, LastSent, SlotTimed;
    var l, l1 := Before(steps, cfg), After(steps, cfg).value;
    forall x ensures LastSent(steps, cfg, x).Some? <==> x in l1.sent {
      SameLast(steps, cfg, x);
    }
    forall x | l.t <= x < Top(l)
      ensures Slot(x) in l1.tx.slots && SlotTimed(steps, cfg, Of(l1.tx, x), x)
    {
      assert SlotTimed(steps[..|steps| - 1], cfg, Of(l.tx, x), x);
      StillTimed(steps, cfg, Of(l.tx, x), x);
    }
  }

  lemma SameLast(steps: seq<Step>, cfg: Config, x: nat)
    requires steps != [] && After(steps, cfg).Some? && Sends(Before(steps, cfg), steps[|steps| - 1], cfg) != Some(x)
    ensures LastSent(steps, cfg, x) == LastSent(steps[..|steps| - 1], cfg, x)
  {
    hide After, Sends, Next;
  }

  lemma SentNow(steps: seq<Step>, cfg: Config, x: nat)
    requires steps != [] && After(steps, cfg).Some? && Sends(Before(steps, cfg), steps[|steps| - 1], cfg) == Some(x)
    ensures LastSent(steps, cfg, x) == Some(|steps| - 1)
  {
    hide After, Sends, Next;
  }

  // ---- Acknowledgements ---------------------------------------------------

  lemma AckTimed(steps: seq<Step>, cfg: Config)
    requires steps != [] && After(steps, cfg).Some? && steps[|steps| - 1].ReceiveAck?
    requires LinkInv(Before(steps, cfg), cfg) && Timed(steps[..|steps| - 1], cfg)
    ensures Timed(steps, cfg)
  {
    hide After, LastSent, SlotTimed, TxInv, OnAck, AfterAck;
    var l, l1 := Before(steps, cfg), After(steps, cfg).value;
    AckFacts(l, cfg);
    var a := l.acks[0];
    forall x ensures LastSent(steps, cfg, x).Some? <==> x in l1.sent {
      SameLast(steps, cfg, x);
    }
    forall x | l1.t <= x < Top(l1)
      ensures Slot(x) in l1.tx.slots && SlotTimed(steps, cfg, Of(l1.tx, x), x)
    {
      OnAckExact(l.tx, l.subs, l.t, a.stamp, a.frame, x);
      assert SlotTimed(steps[..|steps| - 1], cfg, Of(l.tx, x), x);
      StillTimed(steps, cfg, Of(l.tx, x), x);
      AckedTimed(steps, cfg, Of(l.tx, x), a.stamp, a.frame.selAcks, x);
    }
  }

  lemma AckFacts(l: Link, cfg: Config)
    requires LinkInv(l, cfg) && Possible(l, ReceiveAck)
    ensures var a, b := l.acks[0], OnAck(l.tx, l.acks[0].frame);
      && l.t <= a.stamp <= Top(l) && |a.frame.selAcks| <= 16 && a.frame.rxLwe == a.stamp % SEQ_MOD
      && a.stamp + b.count == Top(l) && b.slots.Keys == l.tx.slots.Keys
  {
    assert AckOk(l, 0);
    OnAckInv(l.tx, l.subs, l.t, l.acks[0].stamp, l.acks[0].frame, l.sent, cfg.maxRetries);
  }

  lemma AckedTimed(steps: seq<Step>, cfg: Config, s: TxSlot, edge: nat, bitmap: bytes, x: nat)
    requires steps != [] && After(steps, cfg).Some? && steps[|steps| - 1].ReceiveAck? && edge <= x
    requires SlotTimed(steps, cfg, s, x)
    ensures SlotTimed(steps, cfg, AfterAck(s, edge, bitmap, x), x)
  {
    hide After, LastSent, BitAt;
    var last := LastSent(steps, cfg, x);
    if last.Some? { assert steps[|steps| - 1].ReceiveAck?; }
  }

  // ---- Transmission -------------------------------------------------------

  lemma PassFacts(l: Link, now: int, cfg: Config)
    requires LinkInv(l, cfg) && Possible(l, Transmit(now))
    ensures TxWf(l.tx)
    ensures var out := TxSingle(l.tx, now, cfg);
      && (if out.failed then exists x :: Exhausted(l.tx, l.t, x, cfg) else PassOk(l.tx, l.t, now, cfg, out))
      && (!out.failed ==> l.tx.count <= out.tx.count)
      && (out.frame.Some? ==> l.t <= StampOf(out.tx, l.t, out.frame.value) < l.t + out.tx.count)
  {
    hide TxInv, TxSingle, RxInv;
    TxPass(l.tx, l.subs, l.t, now, cfg, l.sent);
    TxSingleInv(l.tx, l.subs, l.t, now, cfg, l.sent);
  }

  lemma SendsWhat(l: Link, now: int, cfg: Config)
    requires Possible(l, Transmit(now)) && !Next(l, Transmit(now), cfg).failed
    ensures var out, l1 := TxSingle(l.tx, now, cfg), Next(l, Transmit(now), cfg);
      && !out.failed && l1.tx == out.tx && l1.t == l.t
      && match out.frame
         case None => Sends(l, Transmit(now), cfg) == None && l1.sent == l.sent
         case Some(f) =>
           && Sends(l, Transmit(now), cfg) == Some(StampOf(out.tx, l.t, f))
           && l1.sent == l.sent + multiset{StampOf(out.tx, l.t, f)}
  {
    hide TxSingle;
  }

  /** One frame after a pass: it has just gone out, or it is as it was, or a call has found its time run out. */
  lemma PassTimed(steps: seq<Step>, cfg: Config, out: TxOut, x: nat)
    requires steps != [] && After(steps, cfg).Some? && steps[|steps| - 1].Transmit?
    requires var l := Before(steps, cfg);
      && PassOk(l.tx, l.t, steps[|steps| - 1].now, cfg, out) && l.t <= x < l.t + out.tx.count
      && Sends(l, steps[|steps| - 1], cfg) ==
           (if out.frame.Some? then Some(StampOf(out.tx, l.t, out.frame.value)) else None)
      && (x < Top(l) ==> Slot(x) in l.tx.slots && SlotTimed(steps[..|steps| - 1], cfg, Of(l.tx, x), x))
    ensures Slot(x) in out.tx.slots && SlotTimed(steps, cfg, Of(out.tx, x), x)
  {
    hide After, Sends, Next, LastSent;
    var l, n := Before(steps, cfg), |steps| - 1;
    assert PassAt(l.tx, l.t, steps[n].now, cfg, out, x);
    if Sends(l, steps[n], cfg) == Some(x) {
      SentNow(steps, cfg, x);
    } else if x < Top(l) {
      StillTimed(steps, cfg, Of(l.tx, x), x);
      var last := LastSent(steps, cfg, x);
      if Of(out.tx, x) != Of(l.tx, x) && last.Some? {
        assert last.value < n by { SameLast(steps, cfg, x); }
        assert Excused(steps, last.value, cfg);
      }
    }
  }

  lemma TransmitTimed(steps: seq<Step>, cfg: Config)
    requires steps != [] && After(steps, cfg).Some? && steps[|steps| - 1].Transmit?
    requires LinkInv(Before(steps, cfg), cfg) && Timed(steps[..|steps| - 1], cfg) && !After(steps, cfg).value.failed
    ensures Timed(steps, cfg)
  {
    hide After, LastSent, SlotTimed, LinkInv, TxSingle, Sends, PassAt, Next;
    var l, l1, now := Before(steps, cfg), After(steps, cfg).value, steps[|steps| - 1].now;
    var out := TxSingle(l.tx, now, cfg);
    PassFacts(l, now, cfg);
    SendsWhat(l, now, cfg);
    KeysKept(l.tx, now, cfg);
    forall x ensures LastSent(steps, cfg, x).Some? <==> x in l1.sent {
      if Sends(l, steps[|steps| - 1], cfg) == Some(x) { SentNow(steps, cfg, x); } else { SameLast(steps, cfg, x); }
    }
    forall x | l1.t <= x < Top(l1)
      ensures Slot(x) in l1.tx.slots && SlotTimed(steps, cfg, Of(l1.tx, x), x)
    {
      PassTimed(steps, cfg, out, x);
    }
  }

  lemma KeysKept(tx: Tx, now: int, cfg: Config)
    requires TxWf(tx) && RingKeys(tx)
    ensures RingKeys(TxSingle(tx, now, cfg).tx)
  {
    hide Segmented, SendPhase, RetransmitPhase;
    if tx.queue != [] {
      SegmentedKeys(tx, now);
      if tx.queue[1..] != [] { SegmentedKeys(Completed(MarkTimeouts(tx, now, cfg)), now); }
    }
    PhaseKeys(tx, now, cfg);
    PhaseKeys(MarkTimeouts(tx, now, cfg).(state := Retransmit), now, cfg);
  }

  lemma SegmentedKeys(tx: Tx, now: int)
    requires tx.queue != [] && RingKeys(tx)
    ensures RingKeys(Segmented(tx, now)) && RingKeys(SendPhase(Segmented(tx, now), now).tx)
  {
    PopulateKeys(tx.slots, FramesOf(tx.queue[0], tx.nextSeq, LastSeq(tx.queue[0], tx.nextSeq), tx.lwe), now);
    PhaseKeys(Segmented(tx, now), now, Config(0, 0));
  }

  lemma PhaseKeys(tx: Tx, now: int, cfg: Config)
    requires RingKeys(tx)
    ensures RingKeys(SendPhase(tx, now).tx) && RingKeys(RetransmitPhase(tx, now, cfg).tx)
  {
  }

  lemma {:induction false} PopulateKeys(slots: map<int, TxSlot>, frames: seq<DataFrame>, now: int)
    requires forall k :: k in slots ==> 0 <= k < WINDOW
    ensures forall k :: k in Populate(slots, frames, now) ==> 0 <= k < WINDOW
    decreases |frames|
  {
    if frames != [] { PopulateKeys(slots, frames[..|frames| - 1], now); }
  }

  // ---- Runs ---------------------------------------------------------------

  lemma {:induction false} RunTimed(steps: seq<Step>, cfg: Config)
    requires cfg.maxRetries >= 0 && After(steps, cfg).Some? && !After(steps, cfg).value.failed
    ensures Timed(steps, cfg)
    decreases |steps|
  {
    hide LinkInv, Safe, Timed, TxSingle, OnAck, OnData;
    if steps == [] {
      NothingTimed(cfg);
    } else {
      var n := |steps| - 1;
      RunTimed(steps[..n], cfg);
      RunKeepsInv(steps[..n], cfg);
      if steps[n].Transmit? {
        TransmitTimed(steps, cfg);
      } else if steps[n].ReceiveAck? {
        AckTimed(steps, cfg);
      } else {
        WindowAlone(steps, cfg);
      }
    }
  }

  lemma NothingTimed(cfg: Config)
    ensures Timed([], cfg)
  {
  }

  /**
   * In every reachable state, a call that puts a number on the air again has a reason: since that number was sent last,
   * an ACK has arrived, or this call or an earlier one has found its time run out.
   */
  lemma RepeatedLate(steps: seq<Step>, now: int, cfg: Config, x: nat)
    requires cfg.maxRetries >= 0 && After(steps, cfg).Some? && !After(steps, cfg).value.failed
    requires Possible(After(steps, cfg).value, Transmit(now))
    requires Sends(After(steps, cfg).value, Transmit(now), cfg) == Some(x) && LastSent(steps, cfg, x).Some?
    ensures Excused(steps + [Step.Transmit(now)], LastSent(steps, cfg, x).value, cfg)
  {
    hide After, LastSent, LinkInv, TxSingle, Next, Possible, Sends;
    RunTimed(steps, cfg);
    RunKeepsInv(steps, cfg);
    var l, i := After(steps, cfg).value, LastSent(steps, cfg, x).value;
    PassFacts(l, now, cfg);
    var more, out := steps + [Step.Transmit(now)], TxSingle(l.tx, now, cfg);
    FailSendsNothing(l, now, cfg);
    SendsWhat(l, now, cfg);
    assert x in l.sent;
    SentBefore(l, cfg, x);
    assert PassAt(l.tx, l.t, now, cfg, out, x);
    if Overdue(Of(l.tx, x), now, cfg) {
      assert more[|steps|].Transmit? && more[i] == steps[i];
    } else {
      assert Excused(steps, i, cfg);
      ExcusedStays(steps, Step.Transmit(now), i, cfg);
    }
  }

  lemma FailSendsNothing(l: Link, now: int, cfg: Config)
    requires Possible(l, Transmit(now)) && Sends(l, Transmit(now), cfg).Some?
    ensures !Next(l, Transmit(now), cfg).failed
  {
    hide TxSingle;
  }

  /** A number that has been sent and not passed yet lies in the window, and its frame is no longer PENDING. */
  lemma SentBefore(l: Link, cfg: Config, x: nat)
    requires LinkInv(l, cfg) && x in l.sent && l.t <= x
    ensures x < Top(l) && Slot(x) in l.tx.slots && Of(l.tx, x).status != Pending
  {
    InvFull(l.tx, l.subs, l.t);
    assert x < Top(l) ==> Counted(l.tx.slots, l.sent, cfg.maxRetries, x);
  }

  lemma ExcusedStays(steps: seq<Step>, step: Step, i: nat, cfg: Config)
    requires i < |steps| && steps[i].Transmit? && Excused(steps, i, cfg)
    ensures Excused(steps + [step], i, cfg)
  {
    var j :| i < j < |steps| &&
      (steps[j].ReceiveAck? || (steps[j].Transmit? && steps[j].now - steps[i].now >= cfg.retxTimeout));
    assert (steps + [step])[j] == steps[j] && (steps + [step])[i] == steps[i];
  }

  /** No ACK has arrived since step `i`, and the clock has not run backwards since. */
  predicate Undisturbed(steps: seq<Step>, i: nat, now: int) {
    forall j :: i < j < |steps| ==> !steps[j].ReceiveAck? && (steps[j].Transmit? ==> steps[j].now <= now)
  }

  /**
    * With no ACK since its last transmission, and a clock that does not run backwards, a number is put on the air again
    * only when its time has run out: at least `retxTimeout` after that transmission.
    */
  lemma RepeatedInTime(steps: seq<Step>, now: int, cfg: Config, x: nat)
    requires cfg.maxRetries >= 0 && After(steps, cfg).Some? && !After(steps, cfg).value.failed
    requires Possible(After(steps, cfg).value, Transmit(now))
    requires Sends(After(steps, cfg).value, Transmit(now), cfg) == Some(x) && LastSent(steps, cfg, x).Some?
    requires Undisturbed(steps, LastSent(steps, cfg, x).value, now)
    ensures now - steps[LastSent(steps, cfg, x).value].now >= cfg.retxTimeout
  {
    hide After, LastSent, Sends, Possible;
    RepeatedLate(steps, now, cfg, x);
    var i, more := LastSent(steps, cfg, x).value, steps + [Step.Transmit(now)];
    var j :| i < j < |more| &&
      (more[j].ReceiveAck? || (more[j].Transmit? && more[j].now - more[i].now >= cfg.retxTimeout));
    assert more[i] == steps[i];
    if j < |steps| { assert more[j] == steps[j]; }
  }

  /** The sender waits; no frame of the window is reported missing, and not all of them are acknowledged. */
  ghost predicate Waiting(l: Link) {
    && l.tx.state == WaitAck && Full(l.tx, l.t)
    && (forall x :: l.t <= x < Top(l) ==> Of(l.tx, x).status != Nacked)
    && (exists x :: l.t <= x < Top(l) && Of(l.tx, x).status != Acked)
  }

  /** Every frame of the window that waits for its acknowledgement was sent less than `retxTimeout` before `now`. */
  ghost predicate AllInTime(steps: seq<Step>, now: int, cfg: Config)
    requires After(steps, cfg).Some? && Waiting(After(steps, cfg).value)
  {
    var l := After(steps, cfg).value;
    forall x :: l.t <= x < Top(l) && Of(l.tx, x).status == SentWaitAck && LastSent(steps, cfg, x).Some? ==>
      now - steps[LastSent(steps, cfg, x).value].now < cfg.retxTimeout
  }

  /** While no time has run out, a waiting sender sends nothing, and a call leaves the whole system as it is. */
  lemma NothingBeforeTime(steps: seq<Step>, now: int, cfg: Config)
    requires cfg.maxRetries >= 0 && After(steps, cfg).Some? && !After(steps, cfg).value.failed
    requires Waiting(After(steps, cfg).value) && AllInTime(steps, now, cfg)
    ensures Enabled(After(steps, cfg).value, Transmit(now))
    ensures Next(After(steps, cfg).value, Transmit(now), cfg) == After(steps, cfg).value
  {
    hide After, LastSent, LinkInv, TxSingle;
    RunTimed(steps, cfg);
    RunKeepsInv(steps, cfg);
    var l := After(steps, cfg).value;
    SenderInv(l, cfg);
    forall x | l.t <= x < Top(l) && Of(l.tx, x).status == SentWaitAck
      ensures now - Of(l.tx, x).txTime < cfg.retxTimeout
    {
      assert SlotTimed(steps, cfg, Of(l.tx, x), x);
    }
    QuietWait(l.tx, l.subs, l.t, now, cfg);
  }

  lemma SenderInv(l: Link, cfg: Config)
    requires LinkInv(l, cfg)
    ensures TxInv(l.tx, l.subs, l.t) && TxWf(l.tx)
  {
    TxInvWf(l.tx, l.subs, l.t);
  }

  // ---- Every transmission is counted --------------------------------------

  /** `sent` and the retry counters agree, and nothing arrives that was not sent. */
  ghost predicate Accounted(l: Link) {
    && (forall x :: l.t <= x < Top(l) && Slot(x) in l.tx.slots && Of(l.tx, x).status != Pending ==>
          l.sent[x] == 1 + Of(l.tx, x).retx)
    && (forall x: nat :: x < Top(l) && Got(l.rx.ring, l.r, x) ==> x in l.sent)
    && (forall i :: 0 <= i < |l.data| ==> l.data[i].stamp in l.sent)
  }

  lemma TransmitAccounted(l: Link, now: int, cfg: Config)
    requires LinkInv(l, cfg) && Accounted(l) && Enabled(l, Transmit(now))
    requires !Next(l, Transmit(now), cfg).failed
    ensures Accounted(Next(l, Transmit(now), cfg))
  {
    hide TxSingle, LinkInv, PassAt;
    var l1, out := Next(l, Transmit(now), cfg), TxSingle(l.tx, now, cfg);
    PassFacts(l, now, cfg);
    SendsWhat(l, now, cfg);
    TransmitInv(l, now, cfg);
    NewUnheld(l, l1, cfg);
    forall x | l.t <= x < Top(l1) && Of(l1.tx, x).status != Pending
      ensures l1.sent[x] == 1 + Of(l1.tx, x).retx
    {
      OneAccounted(l, out, now, cfg, x);
    }
  }

  lemma NewUnheld(l: Link, l1: Link, cfg: Config)
    requires LinkInv(l, cfg) && LinkInv(l1, cfg) && l1.rx == l.rx && l1.r == l.r && l1.subs == l.subs && l1.t == l.t
    requires Top(l) <= Top(l1)
    ensures forall x: nat :: x < Top(l1) && Got(l1.rx.ring, l1.r, x) ==> x < Top(l) && Got(l.rx.ring, l.r, x)
  {
    TransmitRx(l, l1);
    forall x: nat | x < Top(l1) && Got(l1.rx.ring, l1.r, x) ensures x < Top(l) {
      if x >= Top(l) && Holds(l.rx.ring, x) {
        HeldIsSent(l.rx.ring, AllSegs(l.subs), Base(l.subs, |l.rx.delivered|), l.r, Top(l), x);
      }
    }
  }

  lemma OneAccounted(l: Link, out: TxOut, now: int, cfg: Config, x: nat)
    requires LinkInv(l, cfg) && Accounted(l)
    requires PassOk(l.tx, l.t, now, cfg, out) && l.t <= x < l.t + out.tx.count && Of(out.tx, x).status != Pending
    ensures var more := if out.frame.Some? then multiset{StampOf(out.tx, l.t, out.frame.value)} else multiset{};
      (l.sent + more)[x] == 1 + Of(out.tx, x).retx
  {
    assert PassAt(l.tx, l.t, now, cfg, out, x);
    if x < Top(l) { assert Counted(l.tx.slots, l.sent, cfg.maxRetries, x); }
  }

  lemma AckAccounted(l: Link, cfg: Config)
    requires LinkInv(l, cfg) && Accounted(l) && Enabled(l, ReceiveAck)
    ensures Accounted(Next(l, ReceiveAck, cfg))
  {
    hide TxInv, OnAck, BitAt, SentInv, RxInv;
    AckFacts(l, cfg);
    var l1, a := Next(l, ReceiveAck, cfg), l.acks[0];
    assert AckOk(l, 0) && BitsTrue(l, a);
    forall x | l1.t <= x < Top(l1) && Slot(x) in l1.tx.slots && Of(l1.tx, x).status != Pending
      ensures l1.sent[x] == 1 + Of(l1.tx, x).retx
    {
      OnAckExact(l.tx, l.subs, l.t, a.stamp, a.frame, x);
      CountedAt(l, cfg, x);
      assert BitFor(a.frame.selAcks, a.stamp, x) ==> Got(l.rx.ring, l.r, x);
    }
  }

  lemma CountedAt(l: Link, cfg: Config, x: nat)
    requires LinkInv(l, cfg) && l.t <= x < Top(l)
    ensures Counted(l.tx.slots, l.sent, cfg.maxRetries, x)
  {
  }

  /** A good frame adds at most its own segment. */
  lemma Gained(l: Link, cfg: Config)
    requires LinkInv(l, cfg) && Enabled(l, ReceiveData)
    ensures var l1 := Next(l, ReceiveData, cfg);
      forall x: nat :: x < Top(l) && Got(l1.rx.ring, l1.r, x) ==> Got(l.rx.ring, l.r, x) || x == l.data[0].stamp
  {
    hide TxInv, OnData;
    var l1 := Next(l, ReceiveData, cfg);
    var segs, d, s := AllSegs(l.subs), Base(l.subs, |l.rx.delivered|), l.data[0].stamp;
    assert DataOk(l, 0);
    HeadInRange(l);
    InProgress(l);
    Progress(l);
    var r1 := OnDataExact(l.rx, segs, d, l.r, Top(l), l.data[0].frame, s);
    DistExact(l.r, r1);
    forall x: nat | x < Top(l) && Got(l1.rx.ring, l1.r, x) ensures Got(l.rx.ring, l.r, x) || x == s {
      if x >= d { assert x < d + SEQ_MOD; }
    }
  }

  lemma {:induction false} RunAccounted(steps: seq<Step>, cfg: Config)
    requires cfg.maxRetries >= 0 && After(steps, cfg).Some? && !After(steps, cfg).value.failed
    ensures Accounted(After(steps, cfg).value)
    decreases |steps|
  {
    hide LinkInv, Safe, TxSingle, OnAck, OnData;
    if steps != [] {
      var n := |steps| - 1;
      RunAccounted(steps[..n], cfg);
      RunKeepsInv(steps[..n], cfg);
      var l := After(steps[..n], cfg).value;
      match steps[n]
      case Transmit(now) => TransmitAccounted(l, now, cfg);
      case ReceiveAck => AckAccounted(l, cfg);
      case ReceiveData => Gained(l, cfg);
      case CorruptData => Corrupted(l, cfg);
      case Submit(p) =>
      case Acknowledge =>
      case LoseData(i) =>
      case LoseAck(i) =>
    }
  }

  /**
    * The link is declared failed only when some number still in the window has been put on the air exactly
    * `1 + maxRetries` times and is missing again: since the last of them an ACK has arrived or its time has run out.
    */
  lemma FailsAfterAllRetries(steps: seq<Step>, now: int, cfg: Config)
    requires cfg.maxRetries >= 0 && After(steps, cfg).Some? && !After(steps, cfg).value.failed
    requires Possible(After(steps, cfg).value, Transmit(now))
    requires Next(After(steps, cfg).value, Transmit(now), cfg).failed
    ensures var l := After(steps, cfg).value;
      exists x: nat :: l.t <= x < Top(l) && l.sent[x] == 1 + cfg.maxRetries &&
        LastSent(steps, cfg, x).Some? && Excused(steps, LastSent(steps, cfg, x).value, cfg)
  {
    hide After, LastSent, LinkInv, TxSingle, Possible;
    RunTimed(steps, cfg);
    RunAccounted(steps, cfg);
    RunKeepsInv(steps, cfg);
    var l := After(steps, cfg).value;
    PassFacts(l, now, cfg);
    var x :| Exhausted(l.tx, l.t, x, cfg);
    CountedAt(l, cfg, x);
    assert x in l.sent;
    assert SlotTimed(steps, cfg, Of(l.tx, x), x);
  }
}

/** What a whole `process_tx` call gets done, in every reachable state. */
module ArqCalls {
  import opened Bits
  import opened Prelude
  import opened ArqTypes
  import opened ArqSegs
  import opened ArqTx
  import opened ArqTxProof
  import opened ArqLink
  import opened ArqSlots
  import opened ArqTimers

  /** No offset of the window has a slot with this status. */
  predicate Cleared(tx: Tx, st: AckStatus) {
    forall i :: 0 <= i < tx.count ==> !HasStatus(tx, i, st)
  }

  /** A call in a sending phase goes on until no frame with the wanted status is left. */
  lemma {:induction false} BurstClears(tx: Tx, now: int, cfg: Config)
    requires TxWf(tx) && Bursting(tx) && !Burst(tx, now, cfg).failed
    ensures var b := Burst(tx, now, cfg).tx;
      && b == tx.(slots := b.slots, state := WaitAck)
      && Cleared(b, Wanted(tx))
    decreases Left(tx)
  {
    var out := TxSingle(tx, now, cfg);
    if out.frame == None {
      forall i | 0 <= i < tx.count ensures !HasStatus(out.tx, i, Wanted(tx)) {
        assert !HasStatus(tx, i, Wanted(tx));
      }
    } else {
      PassProgress(tx, now, cfg);
      BurstClears(out.tx, now, cfg);
      SlotsOnly(tx, now, cfg);
    }
  }

  lemma SlotsOnly(tx: Tx, now: int, cfg: Config)
    requires TxWf(tx) && Bursting(tx) && TxSingle(tx, now, cfg).frame.Some?
    ensures var tx1 := TxSingle(tx, now, cfg).tx; tx1 == tx.(slots := tx1.slots)
  {
  }

  /** The first pass of a call decides what the call is for. */
  lemma FirstPass(tx: Tx, now: int, cfg: Config)
    requires TxWf(tx) && !Burst(tx, now, cfg).failed
    ensures var out, b := TxSingle(tx, now, cfg), Burst(tx, now, cfg).tx;
      && !out.failed
      && (out.frame == None ==> b == out.tx)
      && (out.frame.Some? ==>
           && Bursting(out.tx) && b == out.tx.(slots := b.slots, state := WaitAck)
           && Cleared(b, Wanted(out.tx)))
  {
    var out := TxSingle(tx, now, cfg);
    if out.frame.Some? {
      PassProgress(tx, now, cfg);
      BurstClears(out.tx, now, cfg);
      NoFrameOnFailure(tx, now, cfg);
    }
  }

  /** No frame of the window has this status. */
  predicate NoneIs(tx: Tx, t: nat, st: AckStatus) {
    Full(tx, t) && forall x :: t <= x < t + tx.count ==> Of(tx, x).status != st
  }

  lemma ByNumber(tx: Tx, subs: seq<Cpdu>, t: nat, st: AckStatus)
    requires TxInv(tx, subs, t) && Cleared(tx, st)
    ensures NoneIs(tx, t, st)
  {
    InvFull(tx, subs, t);
    LweIs(tx, subs, t);
    forall x | t <= x < t + tx.count ensures Of(tx, x).status != st {
      AtOffset(tx, t, x - t);
      assert !HasStatus(tx, x - t, st);
    }
  }

  // ---- The first pass of each kind ----------------------------------------

  lemma SendFirst(tx: Tx, now: int, cfg: Config)
    requires TxWf(tx) && tx.state == Send
    ensures var out := TxSingle(tx, now, cfg);
      if out.frame.Some? then out.tx.state == Send
      else out.tx == tx.(state := WaitAck) && Cleared(out.tx, Pending)
  {
    var out := TxSingle(tx, now, cfg);
    if out.frame == None {
      forall i | 0 <= i < tx.count ensures !HasStatus(out.tx, i, Pending) {
        assert !HasStatus(tx, i, Pending);
      }
    }
  }

  /** A C_PDU taken from the queue starts with its first frame. */
  lemma BeginFirst(tx: Tx, subs: seq<Cpdu>, t: nat, now: int)
    requires TxInv(tx, subs, t) && tx.state == Idle && tx.queue != []
    ensures var out := SendPhase(Segmented(tx, now), now);
      out.frame.Some? && out.tx.state == Send && out.tx.queue == tx.queue
      && out.tx.count == |CpduSegs(tx.queue[0].payload)| > 0
  {
    hide TxInv, Populate;
    SegmentedInv(tx, subs, t, now);
    var seg := Segmented(tx, now);
    assert Unsent(seg.slots, t);
    FirstAt(seg, subs, t, Pending);
  }

  lemma RetransmitFirst(tx: Tx, now: int, cfg: Config)
    requires tx.state == Retransmit && !RetransmitPhase(tx, now, cfg).failed
    ensures var out := RetransmitPhase(tx, now, cfg);
      if out.frame.Some? then out.tx.state == Retransmit
      else out.tx == tx.(state := WaitAck) && Cleared(out.tx, Nacked)
  {
    var out := RetransmitPhase(tx, now, cfg);
    if out.frame == None {
      forall i | 0 <= i < tx.count ensures !HasStatus(out.tx, i, Nacked) {
        assert !HasStatus(tx, i, Nacked);
      }
    }
  }

  // ---- Calls --------------------------------------------------------------

  /** Some frame is reported missing, and none is on its way any more. */
  ghost predicate TurnsBack(l: Link) {
    && l.tx.state == WaitAck && Full(l.tx, l.t) && NoneIs(l.tx, l.t, SentWaitAck)
    && exists x :: l.t <= x < Top(l) && Of(l.tx, x).status == Nacked
  }

  lemma TurnFirst(l: Link, now: int, cfg: Config)
    requires TxInv(l.tx, l.subs, l.t) && TxWf(l.tx) && TurnsBack(l) && !TxSingle(l.tx, now, cfg).failed
    ensures TxSingle(l.tx, now, cfg).frame.Some? && TxSingle(l.tx, now, cfg).tx.state == Retransmit
  {
    hide TxInv, Segmented, Completed, RetransmitPhase;
    var marked := MarkTimeouts(l.tx, now, cfg);
    var x :| l.t <= x < Top(l) && Of(l.tx, x).status == Nacked;
    FirstAt(l.tx, l.subs, l.t, SentWaitAck);
    MarksAt(l.tx, l.subs, l.t, now, cfg, x);
    LweIs(l.tx, l.subs, l.t);
    AtOffset(l.tx, l.t, x - l.t);
    assert HasStatus(marked, x - l.t, Nacked) && HasStatus(marked.(state := Retransmit), x - l.t, Nacked);
    RetransmitFirst(marked.(state := Retransmit), now, cfg);
  }

  /** With the whole C_PDU acknowledged the next one is begun, if there is one. */
  lemma CloseFirst(l: Link, now: int, cfg: Config)
    requires TxInv(l.tx, l.subs, l.t) && SentInv(l.tx, l.t, l.sent, cfg.maxRetries) && TxWf(l.tx)
    requires l.tx.state == WaitAck && l.tx.count == 0
    ensures var out := TxSingle(l.tx, now, cfg);
      && out.tx.queue == l.tx.queue[1..]
      && if l.tx.queue[1..] == [] then out.frame == None && out.tx.state == Idle && out.tx.count == 0
         else out.frame.Some? && out.tx.state == Send && out.tx.count == |CpduSegs(l.tx.queue[1].payload)| > 0
  {
    hide TxInv, SentInv, Segmented, SendPhase;
    var marked := MarkTimeouts(l.tx, now, cfg);
    TimeoutsInv(l.tx, l.subs, l.t, now, cfg, l.sent, cfg.maxRetries);
    LweIs(marked, l.subs, l.t);
    CompletedInv(marked, l.subs, l.t, l.sent, cfg.maxRetries);
    if l.tx.queue[1..] != [] { BeginFirst(Completed(marked), l.subs, l.t, now); }
  }

  lemma {:induction false} CallKeeps(l: Link, now: int, cfg: Config)
    requires TxWf(l.tx) && !l.failed
    ensures CallTx(l, now, cfg).failed == Burst(l.tx, now, cfg).failed && CallTx(l, now, cfg).t == l.t
    ensures CallTx(l, now, cfg).subs == l.subs
    decreases !Bursting(l.tx), Left(l.tx)
  {
    hide TxSingle;
    NoFrameOnFailure(l.tx, now, cfg);
    if TxSingle(l.tx, now, cfg).frame.Some? {
      PassProgress(l.tx, now, cfg);
      CallKeeps(Transmitted(l, now, cfg), now, cfg);
    }
  }

  /** The states in which a call can start, and the transmit half after it. */
  ghost predicate AroundCall(l: Link, now: int, cfg: Config) {
    && TxInv(l.tx, l.subs, l.t) && SentInv(l.tx, l.t, l.sent, cfg.maxRetries) && TxWf(l.tx)
    && !Burst(l.tx, now, cfg).failed && TxInv(Burst(l.tx, now, cfg).tx, l.subs, l.t)
  }

  lemma SendingCall(l: Link, now: int, cfg: Config)
    requires AroundCall(l, now, cfg)
    ensures l.tx.state == Send || (l.tx.state == Idle && l.tx.queue != []) ==>
      var b := Burst(l.tx, now, cfg).tx; b.state == WaitAck && b.queue == l.tx.queue && NoneIs(b, l.t, Pending)
  {
    hide TxInv, SentInv, Burst, TxSingle, NoneIs, Cleared, TxWf;
    FirstPass(l.tx, now, cfg);
    if l.tx.state == Send {
      SendFirst(l.tx, now, cfg);
      SendQueue(l.tx, now, cfg);
      ByNumber(Burst(l.tx, now, cfg).tx, l.subs, l.t, Pending);
    } else if l.tx.state == Idle && l.tx.queue != [] {
      IdleFirst(l, now, cfg);
      ByNumber(Burst(l.tx, now, cfg).tx, l.subs, l.t, Pending);
    }
  }

  lemma SendQueue(tx: Tx, now: int, cfg: Config)
    requires TxWf(tx) && tx.state == Send
    ensures TxSingle(tx, now, cfg).tx.queue == tx.queue
  {
  }

  lemma RetransmittingCall(l: Link, now: int, cfg: Config)
    requires AroundCall(l, now, cfg)
    ensures l.tx.state == Retransmit || TurnsBack(l) ==>
      var b := Burst(l.tx, now, cfg).tx; b.state == WaitAck && b.queue == l.tx.queue && NoneIs(b, l.t, Nacked)
  {
    hide TxInv, SentInv, Burst, TxSingle, NoneIs, Cleared, TxWf;
    FirstPass(l.tx, now, cfg);
    if l.tx.state == Retransmit {
      RetransmitIs(l.tx, now, cfg);
      RetransmitFirst(l.tx, now, cfg);
      ByNumber(Burst(l.tx, now, cfg).tx, l.subs, l.t, Nacked);
    } else if TurnsBack(l) {
      TurnFirst(l, now, cfg);
      TurnedQueue(l.tx, now, cfg);
      ByNumber(Burst(l.tx, now, cfg).tx, l.subs, l.t, Nacked);
    }
  }

  lemma ClosingCall(l: Link, now: int, cfg: Config)
    requires AroundCall(l, now, cfg)
    ensures l.tx.state == WaitAck && l.tx.count == 0 ==>
      var b, q := Burst(l.tx, now, cfg).tx, l.tx.queue;
      && q != [] && b.queue == q[1..]
      && if q[1..] == [] then b.state == Idle && CallTx(l, now, cfg).data == l.data
         else b.state == WaitAck && NoneIs(b, l.t, Pending) && b.count == |CpduSegs(q[1].payload)| > 0
  {
    hide TxInv, SentInv, Burst, TxSingle, NoneIs, Cleared, CpduSegs, CallTx;
    FirstPass(l.tx, now, cfg);
    if l.tx.state == WaitAck && l.tx.count == 0 {
      CloseFirst(l, now, cfg);
      if l.tx.queue[1..] != [] {
        ByNumber(Burst(l.tx, now, cfg).tx, l.subs, l.t, Pending);
      } else {
        NothingOut(l, now, cfg);
      }
    }
  }

  lemma AllOnAir(steps: seq<Step>, cfg: Config)
    requires cfg.maxRetries >= 0 && After(steps, cfg).Some? && !After(steps, cfg).value.failed
    ensures var l := After(steps, cfg).value;
      Full(l.tx, l.t) && forall x :: l.t <= x < Top(l) && Of(l.tx, x).status != Pending ==> x in l.sent
  {
    RunAccounted(steps, cfg);
    RunKeepsInv(steps, cfg);
    var l := After(steps, cfg).value;
    InvFull(l.tx, l.subs, l.t);
    forall x | l.t <= x < Top(l) && Of(l.tx, x).status != Pending ensures x in l.sent {
      CountedAt(l, cfg, x);
    }
  }

  lemma IdleFirst(l: Link, now: int, cfg: Config)
    requires TxInv(l.tx, l.subs, l.t) && TxWf(l.tx) && l.tx.state == Idle && l.tx.queue != []
    ensures var out := TxSingle(l.tx, now, cfg);
      out.frame.Some? && out.tx.state == Send && out.tx.queue == l.tx.queue
  {
    hide TxInv, Segmented, SendPhase;
    BeginFirst(l.tx, l.subs, l.t, now);
  }

  lemma RetransmitIs(tx: Tx, now: int, cfg: Config)
    requires TxWf(tx) && tx.state == Retransmit
    ensures TxSingle(tx, now, cfg) == RetransmitPhase(tx, now, cfg)
    ensures !RetransmitPhase(tx, now, cfg).failed ==> TxSingle(tx, now, cfg).tx.queue == tx.queue
  {
  }

  lemma TurnedQueue(tx: Tx, now: int, cfg: Config)
    requires TxWf(tx) && tx.state == WaitAck && TxSingle(tx, now, cfg).frame.Some?
    requires TxSingle(tx, now, cfg).tx.state == Retransmit
    ensures TxSingle(tx, now, cfg).tx.queue == tx.queue
  {
  }

  lemma NothingOut(l: Link, now: int, cfg: Config)
    requires TxWf(l.tx) && TxSingle(l.tx, now, cfg).frame == None
    ensures CallTx(l, now, cfg).data == l.data
  {
    hide TxSingle;
  }

  lemma CallReaches(steps: seq<Step>, now: int, cfg: Config)
    requires cfg.maxRetries >= 0 && After(steps, cfg).Some? && !After(steps, cfg).value.failed
    requires TxWf(After(steps, cfg).value.tx) && !Burst(After(steps, cfg).value.tx, now, cfg).failed
    ensures var l := After(steps, cfg).value;
      var l1 := CallTx(l, now, cfg);
      && AroundCall(l, now, cfg) && l1.tx == Burst(l.tx, now, cfg).tx && l1.t == l.t
      && Full(l1.tx, l1.t) && forall x :: l1.t <= x < Top(l1) && Of(l1.tx, x).status != Pending ==> x in l1.sent
  {
    hide TxInv, SentInv, Burst, CallTx, RxInv, After;
    RunKeepsInv(steps, cfg);
    var l := After(steps, cfg).value;
    CallTxIsBurst(l, now, cfg);
    CallKeeps(l, now, cfg);
    var more := CallTxIsRun(steps, now, cfg);
    RunKeepsInv(steps + more, cfg);
    AllOnAir(steps + more, cfg);
  }

  /**
    * The work of a call. One that begins a C_PDU or goes on sending one leaves no frame of the window PENDING; one that
    * retransmits, or finds a frame missing with none on its way, leaves no frame NACKED; one that finds everything
    * acknowledged closes the C_PDU and sends all of the next one.
    */
  ghost predicate CallDone(l: Link, l1: Link) {
    var q := l.tx.queue;
    && (l.tx.state == Send || (l.tx.state == Idle && q != []) ==>
          l1.tx.state == WaitAck && l1.tx.queue == q && NoneIs(l1.tx, l.t, Pending))
    && (l.tx.state == Retransmit || TurnsBack(l) ==>
          l1.tx.state == WaitAck && l1.tx.queue == q && NoneIs(l1.tx, l.t, Nacked))
    && (l.tx.state == WaitAck && l.tx.count == 0 ==>
          q != [] && l1.tx.queue == q[1..] &&
          if q[1..] == [] then l1.tx.state == Idle && l1.data == l.data
          else l1.tx.state == WaitAck && NoneIs(l1.tx, l.t, Pending) && l1.tx.count == |CpduSegs(q[1].payload)| > 0)
  }

  /** Every frame of the window that is no longer PENDING has been put on the air. */
  ghost predicate OnAir(l: Link) {
    Full(l.tx, l.t) && forall x :: l.t <= x < Top(l) && Of(l.tx, x).status != Pending ==> x in l.sent
  }

  /** In every reachable state a call gets its work done, unless it declares the link failed. */
  lemma CallDoesAll(steps: seq<Step>, now: int, cfg: Config)
    requires cfg.maxRetries >= 0 && After(steps, cfg).Some? && !After(steps, cfg).value.failed
    requires TxWf(After(steps, cfg).value.tx) && !Burst(After(steps, cfg).value.tx, now, cfg).failed
    ensures CallDone(After(steps, cfg).value, CallTx(After(steps, cfg).value, now, cfg))
    ensures OnAir(CallTx(After(steps, cfg).value, now, cfg))
  {
    hide TxWf, Burst, CallTx, NoneIs, After, CpduSegs, AroundCall, TurnsBack;
    CallReaches(steps, now, cfg);
    var l := After(steps, cfg).value;
    SendingCall(l, now, cfg);
    RetransmittingCall(l, now, cfg);
    ClosingCall(l, now, cfg);
  }
}

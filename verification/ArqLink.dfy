/** One transmit half and one receive half joined by two lossy FIFO channels: safety over every run. */
module ArqLink {
  import opened Bits
  import opened Prelude
  import opened ArqTypes
  import opened ArqSegs
  import opened ArqTx
  import opened ArqRx
  import opened ArqRxProof
  import opened ArqAckProof
  import opened ArqTxProof

  /** A frame on the air with its absolute sequence number, a history variable that no engine reads. */
  datatype DataInFlight = DataInFlight(frame: DataFrame, stamp: nat)

  /** An ACK on the air with the absolute lower window edge it was built from. */
  datatype AckInFlight = AckInFlight(frame: AckFrame, stamp: nat)

  /**
   * The system: both halves, both channels, and history. `subs` lists the C_PDUs submitted, `t` and `r` are the
   * absolute window edges, `sent` counts the transmissions of every number.
   */
  datatype Link = Link(tx: Tx, rx: Rx, data: seq<DataInFlight>, acks: seq<AckInFlight>,
                       subs: seq<Cpdu>, t: nat, r: nat, sent: multiset<nat>, failed: bool)

  function Init(): Link {
    Link(FRESH_TX, FreshRx(), [], [], [], 0, 0, multiset{}, false)
  }

  datatype Step =
    | Submit(p: Cpdu)
    | Transmit(now: int)
    | Acknowledge
    | ReceiveData
    | CorruptData
    | LoseData(i: nat)
    | ReceiveAck
    | LoseAck(i: nat)

  /** The frame falls in the receive window and the ring already holds its number intact. */
  predicate Overwrites(rx: Rx, f: DataFrame) {
    SeqInWindow(f.seqNo, rx.lwe, WINDOW) && Has(rx.ring, f.seqNo)
  }

  /** The sender has been told that the receiver holds segment `x` above its edge, or an ACK on the air says so. */
  predicate Reported(l: Link, x: nat) {
    IsAcked(l.tx, l.t, x) || exists i :: 0 <= i < |l.acks| && BitFor(l.acks[i].frame.selAcks, l.acks[i].stamp, x)
  }

  /** The next frame, arriving with a bad payload CRC, would wipe out a segment that has been reported. */
  predicate TakesBack(l: Link)
    requires l.data != []
  {
    Overwrites(l.rx, l.data[0].frame) && Reported(l, l.data[0].stamp)
  }

  /** When a step can happen at all. */
  predicate Possible(l: Link, step: Step) {
    !l.failed &&
    match step
    case Submit(p) => |CpduSegs(p.payload)| > 0
    case Transmit(_) => TxWf(l.tx)
    case Acknowledge => l.rx.ackDirty
    case ReceiveData => l.data != []
    case CorruptData => l.data != []
    case LoseData(i) => i < |l.data|
    case ReceiveAck => l.acks != []
    case LoseAck(i) => i < |l.acks|
  }

  /** The runs of the end-to-end results: a C_PDU has at most 128 segments, and no reported segment is wiped out. */
  predicate Enabled(l: Link, step: Step) {
    && Possible(l, step)
    && (step.Submit? ==> |CpduSegs(step.p.payload)| <= WINDOW)
    && (step.CorruptData? ==> !TakesBack(l))
  }

  function Transmitted(l: Link, now: int, cfg: Config): Link
    requires TxWf(l.tx)
  {
    var out := TxSingle(l.tx, now, cfg);
    if out.failed then l.(tx := out.tx, failed := true)
    else
      match out.frame
      case None => l.(tx := out.tx)
      case Some(f) =>
        var s := StampOf(out.tx, l.t, f);
        l.(tx := out.tx, data := l.data + [DataInFlight(f, s)], sent := l.sent + multiset{s})
  }

  function Received(l: Link, crcBad: bool): Link
    requires l.data != []
  {
    var rx := OnData(l.rx, l.data[0].frame, crcBad);
    l.(rx := rx, data := l.data[1..], r := l.r + SeqDist(l.rx.lwe, rx.lwe))
  }

  function Next(l: Link, step: Step, cfg: Config): Link
    requires Possible(l, step)
  {
    match step
    case Submit(p) => l.(tx := l.tx.(queue := l.tx.queue + [p]), subs := l.subs + [p])
    case Transmit(now) => Transmitted(l, now, cfg)
    case Acknowledge => l.(rx := l.rx.(ackDirty := false), acks := l.acks + [AckInFlight(AckOf(l.rx), l.r)])
    case ReceiveData => Received(l, false)
    case CorruptData => Received(l, true)
    case LoseData(i) => l.(data := l.data[..i] + l.data[i + 1..])
    case ReceiveAck => l.(tx := OnAck(l.tx, l.acks[0].frame), acks := l.acks[1..], t := l.acks[0].stamp)
    case LoseAck(i) => l.(acks := l.acks[..i] + l.acks[i + 1..])
  }

  /** The state after a run from the initial state, if every step of it can happen. */
  function After(steps: seq<Step>, cfg: Config): Option<Link> {
    if steps == [] then Some(Init())
    else
      var n := |steps| - 1;
      match After(steps[..n], cfg)
      case None => None
      case Some(l) => if Enabled(l, steps[n]) then Some(Next(l, steps[n], cfg)) else None
  }

  // ---- Invariants ---------------------------------------------------------

  /** First number that has not been assigned to a segment yet. */
  function Top(l: Link): nat {
    l.t + l.tx.count
  }

  /** The receiver has delivered exactly the C_PDUs whose segments all lie below its lower window edge. */
  ghost predicate RxInv(l: Link) {
    && InCpdu(l.subs, l.r, |l.rx.delivered|)
    && l.rx.lwe == l.r % SEQ_MOD
    && l.rx.deliverLwe == Base(l.subs, |l.rx.delivered|) % SEQ_MOD
    && RingInv(l.rx.ring, AllSegs(l.subs), Base(l.subs, |l.rx.delivered|), l.r, Top(l))
    && !Holds(l.rx.ring, l.r)
    && l.rx.delivered == Payloads(l.subs[..|l.rx.delivered|])
    && l.t <= l.r
  }

  /** Nothing received so far is a whole window ahead of a frame in flight. */
  ghost predicate NotTooOld(l: Link, stamp: nat) {
    forall x: nat :: stamp + WINDOW <= x < Top(l) ==> !Got(l.rx.ring, l.r, x)
  }

  /** Every set bit of an ACK names a number that the receiver has. */
  ghost predicate BitsTrue(l: Link, a: AckInFlight) {
    forall x: nat :: BitFor(a.frame.selAcks, a.stamp, x) ==> Got(l.rx.ring, l.r, x) && x < Top(l)
  }

  /** A frame in flight carries its own segment, is not too old, and nothing too new precedes it. */
  ghost predicate DataOk(l: Link, i: nat)
    requires i < |l.data|
  {
    && l.data[i].stamp < Top(l)
    && Carries(l.data[i].frame, AllSegs(l.subs), l.data[i].stamp)
    && NotTooOld(l, l.data[i].stamp)
    && (forall j :: 0 <= j < i ==> l.data[j].stamp < l.data[i].stamp + WINDOW)
  }

  /** An ACK in flight speaks the truth, and the edge it reports was not acknowledged by an earlier bitmap. */
  ghost predicate AckOk(l: Link, i: nat)
    requires i < |l.acks|
  {
    && l.acks[i].frame.rxLwe == l.acks[i].stamp % SEQ_MOD
    && |l.acks[i].frame.selAcks| <= 16
    && l.t <= l.acks[i].stamp <= l.r
    && BitsTrue(l, l.acks[i])
    && !IsAcked(l.tx, l.t, l.acks[i].stamp)
    && (forall j :: 0 <= j < i ==>
          && l.acks[j].stamp <= l.acks[i].stamp
          && !BitFor(l.acks[j].frame.selAcks, l.acks[j].stamp, l.acks[i].stamp))
  }

  ghost predicate LinkInv(l: Link, cfg: Config) {
    && TxInv(l.tx, l.subs, l.t)
    && SentInv(l.tx, l.t, l.sent, cfg.maxRetries)
    && RxInv(l)
    && !IsAcked(l.tx, l.t, l.t)
    && (forall x :: IsAcked(l.tx, l.t, x) ==> Got(l.rx.ring, l.r, x))
    && (forall i :: 0 <= i < |l.data| ==> DataOk(l, i))
    && (forall i :: 0 <= i < |l.acks| ==> AckOk(l, i))
  }

  // ---- Every step keeps the invariant -------------------------------------

  lemma SubmitTx(tx: Tx, subs: seq<Cpdu>, t: nat, p: Cpdu)
    requires TxInv(tx, subs, t) && 0 < |CpduSegs(p.payload)| <= WINDOW
    ensures TxInv(tx.(queue := tx.queue + [p]), subs + [p], t)
    ensures Done(tx.(queue := tx.queue + [p]), subs + [p]) == Done(tx, subs)
  {
    var tx1, subs1 := tx.(queue := tx.queue + [p]), subs + [p];
    Append(subs, p);
    TxInvWf(tx, subs, t);
    assert tx1.queue == subs1[Done(tx, subs)..];
    forall s | t <= s < t + tx.count ensures SlotOwn(tx1.slots, AllSegs(subs1), s) {
      assert SlotOwn(tx.slots, AllSegs(subs), s);
    }
  }

  lemma SubmitRx(l: Link, p: Cpdu, cfg: Config)
    requires RxInv(l) && TxInv(l.tx, l.subs, l.t) && Enabled(l, Submit(p))
    ensures RxInv(Next(l, Submit(p), cfg))
  {
    hide TxInv, OnData, TxSingle;
    var l1 := Next(l, Submit(p), cfg);
    var k := |l.rx.delivered|;
    Append(l.subs, p);
    TxInvWf(l.tx, l.subs, l.t);
    RingInvGrows(l.rx.ring, AllSegs(l.subs), AllSegs(l1.subs), Base(l.subs, k), l.r, Top(l), Top(l));
    assert l1.subs[..k] == l.subs[..k];
    SubmitInCpdu(l.subs, p, l.r, k);
    assert Top(l1) == Top(l) && l1.r == l.r && l1.t == l.t && l1.rx == l.rx;
    assert Base(l1.subs, k) == Base(l.subs, k);
  }

  lemma SubmitInCpdu(subs: seq<Cpdu>, p: Cpdu, r: nat, k: nat)
    requires InCpdu(subs, r, k) && r <= |AllSegs(subs)| && |CpduSegs(p.payload)| > 0
    ensures InCpdu(subs + [p], r, k)
  {
    Append(subs, p);
    assert subs[..|subs|] == subs;
    if k == |subs| {
      CpduAt(subs + [p], k);
    }
  }

  lemma SubmitInv(l: Link, p: Cpdu, cfg: Config)
    requires LinkInv(l, cfg) && Enabled(l, Submit(p))
    ensures LinkInv(Next(l, Submit(p), cfg), cfg)
  {
    hide TxInv, RxInv;
    var l1 := Next(l, Submit(p), cfg);
    SubmitTx(l.tx, l.subs, l.t, p);
    SubmitRx(l, p, cfg);
    Append(l.subs, p);
    forall i | 0 <= i < |l1.data| ensures DataOk(l1, i) {
      assert DataOk(l, i);
    }
    forall i | 0 <= i < |l1.acks| ensures AckOk(l1, i) {
      assert AckOk(l, i) && BitsTrue(l, l.acks[i]);
    }
  }

  lemma LoseDataInv(l: Link, i: nat, cfg: Config)
    requires LinkInv(l, cfg) && i < |l.data|
    ensures LinkInv(l.(data := l.data[..i] + l.data[i + 1..]), cfg)
  {
    hide TxInv;
    var l1 := l.(data := l.data[..i] + l.data[i + 1..]);
    forall k | 0 <= k < |l1.data| ensures DataOk(l1, k) {
      assert DataOk(l, if k < i then k else k + 1);
      assert NotTooOld(l1, l1.data[k].stamp);
    }
    forall k | 0 <= k < |l1.acks| ensures AckOk(l1, k) {
      assert AckOk(l, k);
    }
  }

  lemma LoseAckInv(l: Link, i: nat, cfg: Config)
    requires LinkInv(l, cfg) && i < |l.acks|
    ensures LinkInv(l.(acks := l.acks[..i] + l.acks[i + 1..]), cfg)
  {
    hide IsAcked, Got, BitFor, TxInv;
    var l1 := l.(acks := l.acks[..i] + l.acks[i + 1..]);
    forall k | 0 <= k < |l1.data| ensures DataOk(l1, k) {
      assert DataOk(l, k);
    }
    forall k | 0 <= k < |l1.acks| ensures AckOk(l1, k) {
      assert AckOk(l, if k < i then k else k + 1);
      assert BitsTrue(l1, l1.acks[k]);
    }
  }

  /** Where the receiver stands: inside the C_PDU in progress, or at its end with everything delivered. */
  lemma Progress(l: Link)
    requires TxInv(l.tx, l.subs, l.t) && l.t <= l.r <= Top(l) && InCpdu(l.subs, l.r, |l.rx.delivered|)
    ensures l.r < Top(l) ==>
      && l.tx.state != Idle
      && |l.rx.delivered| == Done(l.tx, l.subs)
      && Base(l.subs, |l.rx.delivered| + 1) == Top(l)
    ensures l.r == Top(l) ==>
      && Base(l.subs, |l.rx.delivered|) == Top(l)
      && |l.rx.delivered| == Done(l.tx, l.subs) + if l.tx.state == Idle then 0 else 1
  {
    var done := Done(l.tx, l.subs);
    if l.r < Top(l) {
      InCpduUnique(l.subs, l.r, |l.rx.delivered|, done);
    } else {
      var k := if l.tx.state == Idle then done else done + 1;
      if k < |l.subs| { BaseMonotone(l.subs, k, k + 1); }
      InCpduUnique(l.subs, l.r, |l.rx.delivered|, k);
    }
  }

  /** A frame sent now lies within a window of everything the receiver has and of every frame before it. */
  lemma TransmitInv(l: Link, now: int, cfg: Config)
    requires LinkInv(l, cfg) && Enabled(l, Transmit(now))
    ensures var l1 := Next(l, Transmit(now), cfg); l1.failed || LinkInv(l1, cfg)
  {
    hide TxInv, OnData, RetransmitPhase, TxSingle, SendPhase;
    var out := TxSingle(l.tx, now, cfg);
    var l1 := Next(l, Transmit(now), cfg);
    TxSingleInv(l.tx, l.subs, l.t, now, cfg, l.sent);
    if !l1.failed {
      Progress(l);
      TxInvWf(out.tx, l.subs, l.t);
      TransmitRx(l, l1);
      AcksKeep(l, l1);
      forall i | 0 <= i < |l1.data| ensures DataOk(l1, i) {
        if i < |l.data| {
          assert DataOk(l, i);
          NewNumbersUnheld(l, l1, l.data[i].stamp);
        } else {
          forall j | 0 <= j < i ensures l1.data[j].stamp < l1.data[i].stamp + WINDOW {
            assert DataOk(l, j);
          }
        }
      }
    }
  }

  /** More numbers assigned leave the receiver in step. */
  lemma TransmitRx(l: Link, l1: Link)
    requires RxInv(l) && TxInv(l.tx, l.subs, l.t) && TxInv(l1.tx, l1.subs, l1.t)
    requires l1.rx == l.rx && l1.r == l.r && l1.subs == l.subs && l1.t == l.t && Top(l) <= Top(l1)
    ensures RxInv(l1)
    ensures Top(l1) <= Base(l.subs, |l.rx.delivered|) + WINDOW
  {
    TxInvWf(l1.tx, l1.subs, l1.t);
    Progress(l1);
    RingInvGrows(l.rx.ring, AllSegs(l.subs), AllSegs(l.subs), Base(l.subs, |l.rx.delivered|), l.r, Top(l), Top(l1));
  }

  /** ACKs in flight stay good while the sender's edge stands still and the receiver only gains. */
  lemma AcksKeep(l: Link, l1: Link)
    requires forall i :: 0 <= i < |l.acks| ==> AckOk(l, i)
    requires l1.acks == l.acks && l1.t == l.t && l.r <= l1.r && Top(l) <= Top(l1)
    requires forall x: nat :: x < Top(l) && Got(l.rx.ring, l.r, x) ==> Got(l1.rx.ring, l1.r, x)
    requires forall x :: IsAcked(l1.tx, l1.t, x) ==> IsAcked(l.tx, l.t, x)
    ensures forall i :: 0 <= i < |l1.acks| ==> AckOk(l1, i)
  {
    forall i | 0 <= i < |l1.acks| ensures AckOk(l1, i) {
      assert AckOk(l, i) && BitsTrue(l, l.acks[i]);
      assert BitsTrue(l1, l1.acks[i]);
    }
  }

  /** Numbers assigned since the last state are not held. */
  lemma NewNumbersUnheld(l: Link, l1: Link, stamp: nat)
    requires RxInv(l) && NotTooOld(l, stamp) && l1.rx == l.rx && l1.r == l.r
    requires Top(l) <= Top(l1) <= Base(l.subs, |l.rx.delivered|) + WINDOW
    ensures NotTooOld(l1, stamp)
  {
    var d := Base(l.subs, |l.rx.delivered|);
    forall x: nat | stamp + WINDOW <= x < Top(l1) ensures !Got(l1.rx.ring, l1.r, x) {
      if x >= Top(l) && Holds(l.rx.ring, x) {
        HeldIsSent(l.rx.ring, AllSegs(l.subs), d, l.r, Top(l), x);
      }
    }
  }

  lemma DataSame(l: Link, l1: Link)
    requires forall i :: 0 <= i < |l.data| ==> DataOk(l, i)
    requires l1.data == l.data && l1.subs == l.subs && Top(l1) == Top(l)
    requires l1.rx.ring == l.rx.ring && l1.r == l.r
    ensures forall i :: 0 <= i < |l1.data| ==> DataOk(l1, i)
  {
    forall i | 0 <= i < |l1.data| ensures DataOk(l1, i) {
      assert DataOk(l, i) && NotTooOld(l1, l1.data[i].stamp);
    }
  }

  /** Building an ACK records true bits; its edge is not held, so no earlier bitmap acknowledged it. */
  lemma AcknowledgeInv(l: Link, cfg: Config)
    requires LinkInv(l, cfg) && Enabled(l, Acknowledge)
    ensures LinkInv(Next(l, Acknowledge, cfg), cfg)
  {
    hide TxInv;
    var l1 := Next(l, Acknowledge, cfg);
    var a := AckInFlight(AckOf(l.rx), l.r);
    AckOfTrue(l);
    DataSame(l, l1);
    forall i | 0 <= i < |l1.acks| ensures AckOk(l1, i) {
      if i < |l.acks| {
        assert AckOk(l, i) && BitsTrue(l1, l1.acks[i]);
      } else {
        assert BitsTrue(l1, a);
        EarlierAcks(l);
      }
    }
  }

  /** No ACK already in flight reports an edge beyond the present one or acknowledges it. */
  lemma EarlierAcks(l: Link)
    requires RxInv(l) && forall i :: 0 <= i < |l.acks| ==> AckOk(l, i)
    ensures forall j :: 0 <= j < |l.acks| ==>
      l.acks[j].stamp <= l.r && !BitFor(l.acks[j].frame.selAcks, l.acks[j].stamp, l.r)
  {
    forall j | 0 <= j < |l.acks|
      ensures l.acks[j].stamp <= l.r && !BitFor(l.acks[j].frame.selAcks, l.acks[j].stamp, l.r)
    {
      assert AckOk(l, j) && BitsTrue(l, l.acks[j]);
    }
  }

  lemma AckOfTrue(l: Link)
    requires RxInv(l) && TxInv(l.tx, l.subs, l.t)
    ensures BitsTrue(l, AckInFlight(AckOf(l.rx), l.r))
    ensures |AckOf(l.rx).selAcks| <= 16
  {
    hide SlotOwn, Payloads, Bitmap, Admissible;
    var d := Base(l.subs, |l.rx.delivered|);
    var bitmap := AckOf(l.rx).selAcks;
    Progress(l);
    BitmapExact(l.rx.ring, l.rx.lwe, 0);
    forall x: nat | BitFor(bitmap, l.r, x) ensures Got(l.rx.ring, l.r, x) && x < Top(l) {
      BitmapExact(l.rx.ring, l.rx.lwe, x - l.r - 1);
      AddExact(l.r, x - l.r);
      HeldIsSent(l.rx.ring, AllSegs(l.subs), d, l.r, Top(l), x);
    }
  }

  /** The remaining ACKs stay good when the sender's edge moves to the edge of the first one. */
  lemma AcksAfterFirst(l: Link, l1: Link)
    requires l.acks != [] && (forall i :: 0 <= i < |l.acks| ==> AckOk(l, i))
    requires l1.acks == l.acks[1..] && l1.t == l.acks[0].stamp && l1.r == l.r && l1.rx.ring == l.rx.ring
    requires Top(l1) == Top(l)
    requires forall x :: IsAcked(l1.tx, l1.t, x) ==>
      IsAcked(l.tx, l.t, x) || BitFor(l.acks[0].frame.selAcks, l.acks[0].stamp, x)
    ensures forall i :: 0 <= i < |l1.acks| ==> AckOk(l1, i)
  {
    forall i | 0 <= i < |l1.acks| ensures AckOk(l1, i) {
      assert AckOk(l, i + 1) && BitsTrue(l1, l1.acks[i]);
      forall j | 0 <= j < i
        ensures l1.acks[j].stamp <= l1.acks[i].stamp
        ensures !BitFor(l1.acks[j].frame.selAcks, l1.acks[j].stamp, l1.acks[i].stamp)
      {
        assert l1.acks[j] == l.acks[j + 1];
      }
    }
  }

  /** Receipt of an ACK moves the sender's edge to a number the receiver had reached. */
  lemma ReceiveAckInv(l: Link, cfg: Config)
    requires LinkInv(l, cfg) && Enabled(l, ReceiveAck)
    ensures LinkInv(Next(l, ReceiveAck, cfg), cfg)
  {
    var l1 := Next(l, ReceiveAck, cfg);
    var a := l.acks[0];
    assert AckOk(l, 0) && BitsTrue(l, a);
    OnAckInv(l.tx, l.subs, l.t, a.stamp, a.frame, l.sent, cfg.maxRetries);
    DataSame(l, l1);
    AcksAfterFirst(l, l1);
  }

  /** The C_PDU in progress, as one run of segments. */
  lemma InProgress(l: Link)
    requires TxInv(l.tx, l.subs, l.t) && RxInv(l)
    ensures OneCpdu(AllSegs(l.subs), Base(l.subs, |l.rx.delivered|), Top(l))
    ensures l.r < Top(l) ==>
      && |l.rx.delivered| < |l.subs|
      && Data(AllSegs(l.subs)[Base(l.subs, |l.rx.delivered|)..Top(l)]) == l.subs[|l.rx.delivered|].payload
      && InCpdu(l.subs, Top(l), |l.rx.delivered| + 1)
      && Payloads(l.subs[..|l.rx.delivered| + 1]) ==
        Payloads(l.subs[..|l.rx.delivered|]) + [l.subs[|l.rx.delivered|].payload]
  {
    hide SlotTrue, Has, AllSegs;
    Progress(l);
    var k := |l.rx.delivered|;
    var d := Base(l.subs, k);
    if l.r < Top(l) {
      forall s | d <= s < Top(l)
        ensures AllSegs(l.subs)[s].pduStart <==> s == d
        ensures AllSegs(l.subs)[s].pduEnd <==> s == Top(l) - 1
      {
        SegAt(l.subs, k, s);
      }
      CpduAt(l.subs, k);
      CpduData(l.subs[k].payload);
      if k + 1 < |l.subs| { BaseMonotone(l.subs, k + 1, k + 2); }
    }
  }

  /** Frames in flight stay good when the receiver gains at most segment `s`, itself in flight ahead of them. */
  lemma DataKeep(l: Link, l1: Link, s: nat)
    requires forall i :: 0 <= i < |l.data| ==> DataOk(l, i)
    requires l.data != [] && l1.data == l.data[1..] && l.data[0].stamp == s
    requires l1.subs == l.subs && Top(l1) == Top(l)
    requires forall x: nat :: x < Top(l) && Got(l1.rx.ring, l1.r, x) ==> Got(l.rx.ring, l.r, x) || x == s
    ensures forall i :: 0 <= i < |l1.data| ==> DataOk(l1, i)
  {
    forall i | 0 <= i < |l1.data| ensures DataOk(l1, i) {
      assert DataOk(l, i + 1) && l.data[0].stamp < l.data[i + 1].stamp + WINDOW;
      assert NotTooOld(l1, l1.data[i].stamp);
      forall j | 0 <= j < i ensures l1.data[j].stamp < l1.data[i].stamp + WINDOW {
        assert l1.data[j] == l.data[j + 1];
      }
    }
  }

  /** The head of the channel is not too old for the receiver's window. */
  lemma HeadInRange(l: Link)
    requires RxInv(l) && l.data != [] && DataOk(l, 0)
    ensures l.r <= l.data[0].stamp + WINDOW
  {
    if l.r > l.data[0].stamp + WINDOW {
      assert Got(l.rx.ring, l.r, l.r - 1);
    }
  }

  lemma ReceiveDataInv(l: Link, cfg: Config)
    requires LinkInv(l, cfg) && Enabled(l, ReceiveData)
    ensures LinkInv(Next(l, ReceiveData, cfg), cfg)
  {
    var l1 := Next(l, ReceiveData, cfg);
    var segs, d, s := AllSegs(l.subs), Base(l.subs, |l.rx.delivered|), l.data[0].stamp;
    assert DataOk(l, 0);
    HeadInRange(l);
    InProgress(l);
    Progress(l);
    var r1 := OnDataExact(l.rx, segs, d, l.r, Top(l), l.data[0].frame, s);
    DistExact(l.r, r1);
    assert l1.r == r1;
    forall x: nat | x < Top(l)
      ensures Got(l.rx.ring, l.r, x) ==> Got(l1.rx.ring, l1.r, x)
      ensures Got(l1.rx.ring, l1.r, x) ==> Got(l.rx.ring, l.r, x) || x == s
    {
      if x >= d { assert x < d + SEQ_MOD; }
    }
    ReceiveRx(l, l1);
    DataKeep(l, l1, s);
    AcksKeep(l, l1);
  }

  /** The receiver stays in step, whether or not the frame completed a C_PDU. */
  lemma ReceiveRx(l: Link, l1: Link)
    requires TxInv(l.tx, l.subs, l.t) && RxInv(l)
    requires l1.tx == l.tx && l1.subs == l.subs && l1.t == l.t && l.r <= l1.r <= Top(l)
    requires l1.rx.lwe == l1.r % SEQ_MOD && !Holds(l1.rx.ring, l1.r)
    requires l1.r == l.r == Top(l) ==> l1.rx == l.rx.(ackDirty := true)
    requires l1.r < Top(l) ==>
      && RingInv(l1.rx.ring, AllSegs(l.subs), Base(l.subs, |l.rx.delivered|), l1.r, Top(l))
      && l1.rx.deliverLwe == l.rx.deliverLwe && l1.rx.delivered == l.rx.delivered
    requires l.r < l1.r == Top(l) ==>
      && RingInv(l1.rx.ring, AllSegs(l.subs), Top(l), Top(l), Top(l))
      && l1.rx.deliverLwe == Top(l) % SEQ_MOD
      && l1.rx.delivered == l.rx.delivered + [Data(AllSegs(l.subs)[Base(l.subs, |l.rx.delivered|)..Top(l)])]
    ensures RxInv(l1)
  {
    hide TxInv, SlotTrue, RingInv;
    InProgress(l);
    Progress(l);
  }

  /** A corrupted frame that wipes out no reported segment changes nothing that matters. */
  lemma CorruptDataInv(l: Link, cfg: Config)
    requires LinkInv(l, cfg) && l.data != [] && !TakesBack(l)
    ensures LinkInv(Received(l, true), cfg)
  {
    var l1 := Received(l, true);
    Corrupted(l, cfg);
    hide Received, OnData;
    DataKeep(l, l1, l.data[0].stamp);
    ReportsKept(l, l1, cfg);
  }

  /** When every reported segment is still there, the reports stay true. */
  lemma ReportsKept(l: Link, l1: Link, cfg: Config)
    requires LinkInv(l, cfg) && l1.tx == l.tx && l1.acks == l.acks && l1.t == l.t && l1.r == l.r
    requires forall x: nat :: x < Top(l) && Got(l.rx.ring, l.r, x) && Reported(l, x) ==> Got(l1.rx.ring, l1.r, x)
    ensures forall i :: 0 <= i < |l1.acks| ==> AckOk(l1, i)
    ensures forall x :: IsAcked(l1.tx, l1.t, x) ==> Got(l1.rx.ring, l1.r, x)
  {
    hide TxInv, SentInv, RxInv, DataOk, Got, BitAt;
    forall i | 0 <= i < |l1.acks| ensures AckOk(l1, i) {
      assert AckOk(l, i) && BitsTrue(l, l.acks[i]);
      forall x: nat | BitFor(l1.acks[i].frame.selAcks, l1.acks[i].stamp, x)
        ensures Got(l1.rx.ring, l1.r, x) && x < Top(l1)
      {
        assert Reported(l, x);
      }
    }
    forall x: nat | IsAcked(l1.tx, l1.t, x) ensures Got(l1.rx.ring, l1.r, x) {
      assert Reported(l, x) && x < Top(l);
    }
  }

  /** What is left of the receiver after a corrupted frame: everything but the segment it falls on, if that was held. */
  lemma Corrupted(l: Link, cfg: Config)
    requires LinkInv(l, cfg) && l.data != []
    ensures var l1, s := Received(l, true), l.data[0].stamp;
      && l1 == l.(rx := l1.rx, data := l.data[1..]) && RxInv(l1) && s < Top(l)
      && (Overwrites(l.rx, l.data[0].frame) ==> Got(l.rx.ring, l.r, s) && !Got(l1.rx.ring, l.r, s))
      && forall x: nat :: x < Top(l) ==>
           (Got(l1.rx.ring, l.r, x) <==> Got(l.rx.ring, l.r, x) && !(Overwrites(l.rx, l.data[0].frame) && x == s))
  {
    hide LinkInv, RxInv, RingInv, Carries, Overwrites, OnData, AllSegs, Base;
    HeadFacts(l, cfg);
    CorruptRx(l.rx, AllSegs(l.subs), Base(l.subs, |l.rx.delivered|), l.r, Top(l), l.data[0].frame, l.data[0].stamp);
    DistExact(l.r, l.r);
    RxKept(l, Received(l, true));
  }

  lemma HeadFacts(l: Link, cfg: Config)
    requires LinkInv(l, cfg) && l.data != []
    ensures |l.rx.delivered| <= |l.subs| && RxInv(l)
    ensures RingInv(l.rx.ring, AllSegs(l.subs), Base(l.subs, |l.rx.delivered|), l.r, Top(l))
    ensures l.rx.lwe == l.r % SEQ_MOD && !Holds(l.rx.ring, l.r)
    ensures Carries(l.data[0].frame, AllSegs(l.subs), l.data[0].stamp)
    ensures l.data[0].stamp < Top(l) && l.r <= l.data[0].stamp + WINDOW
  {
    assert DataOk(l, 0);
    HeadInRange(l);
  }

  lemma RxKept(l: Link, l1: Link)
    requires RxInv(l) && l1 == l.(rx := l.rx.(ring := l1.rx.ring, ackDirty := true), data := l1.data)
    requires RingInv(l1.rx.ring, AllSegs(l.subs), Base(l.subs, |l.rx.delivered|), l.r, Top(l))
        && !Holds(l1.rx.ring, l.r)
    ensures RxInv(l1)
  {
    hide RingInv, Holds, AllSegs, Payloads;
  }

  lemma CorruptRx(rx: Rx, segs: seq<Seg>, d: nat, r: nat, top: nat, f: DataFrame, s: nat)
    requires RingInv(rx.ring, segs, d, r, top) && rx.lwe == r % SEQ_MOD && !Holds(rx.ring, r)
    requires Carries(f, segs, s) && r <= s + WINDOW && s < top
    ensures var rx1 := OnData(rx, f, true);
      && rx1 == rx.(ring := rx1.ring, ackDirty := true)
      && RingInv(rx1.ring, segs, d, r, top) && !Holds(rx1.ring, r)
      && (Overwrites(rx, f) <==> r <= s && Holds(rx.ring, s))
      && forall x: nat :: x < top ==>
           (Got(rx1.ring, r, x) <==> Got(rx.ring, r, x) && !(Overwrites(rx, f) && x == s))
  {
    WindowTestExact(s, r);
    SlotExact(s);
    if s >= r {
      MarkError(rx.ring, segs, d, r, top, s);
      forall x: nat | r <= x < top && x % SEQ_MOD == s % SEQ_MOD ensures x == s {
        LabelInjective(x, s);
      }
    }
  }

  /** Marking the slot of a number as an error takes that number away, if it was held, and no other. */
  lemma MarkError(ring: RxRing, segs: seq<Seg>, d: nat, r: nat, top: nat, s: nat)
    requires RingInv(ring, segs, d, r, top) && r <= s < top
    ensures var ring1 := ring[Slot(s) := ring[Slot(s)].(seqNo := s % SEQ_MOD, status := Error)];
      && RingInv(ring1, segs, d, r, top)
      && forall x: nat :: Holds(ring1, x) <==> Holds(ring, x) && x % SEQ_MOD != s % SEQ_MOD
  {
    var ring1 := ring[Slot(s) := ring[Slot(s)].(seqNo := s % SEQ_MOD, status := Error)];
    assert SlotTrue(ring, segs, top, s);
    SlotExact(s);
    forall x: nat ensures Holds(ring1, x) <==> Holds(ring, x) && x % SEQ_MOD != s % SEQ_MOD {
      SlotExact(x);
    }
    forall x | d <= x < r ensures Holds(ring1, x) {
      if x % SEQ_MOD == s % SEQ_MOD { LabelInjective(x, s); }
    }
    forall x | d <= x < d + WINDOW ensures SlotTrue(ring1, segs, top, x) {
      assert SlotTrue(ring, segs, top, x);
    }
  }

  lemma StepKeepsInv(l: Link, step: Step, cfg: Config)
    requires LinkInv(l, cfg) && Enabled(l, step)
    ensures Next(l, step, cfg).failed || LinkInv(Next(l, step, cfg), cfg)
  {
    hide TxInv;
    match step
    case Submit(p) => SubmitInv(l, p, cfg);
    case Transmit(now) => TransmitInv(l, now, cfg);
    case Acknowledge => AcknowledgeInv(l, cfg);
    case ReceiveData => ReceiveDataInv(l, cfg);
    case CorruptData => CorruptDataInv(l, cfg);
    case LoseData(i) => LoseDataInv(l, i, cfg);
    case ReceiveAck => ReceiveAckInv(l, cfg);
    case LoseAck(i) => LoseAckInv(l, i, cfg);
  }

  // ---- Main results -------------------------------------------------------

  lemma InitInv(cfg: Config)
    requires cfg.maxRetries >= 0
    ensures LinkInv(Init(), cfg)
  {
    InitTx(cfg);
    InitRx();
  }

  lemma InitTx(cfg: Config)
    requires cfg.maxRetries >= 0
    ensures var l := Init();
      TxInv(l.tx, l.subs, 0) && SentInv(l.tx, 0, l.sent, cfg.maxRetries) && forall x :: !IsAcked(l.tx, 0, x)
  {
  }

  lemma InitRx()
    ensures RxInv(Init())
  {
    forall s | 0 <= s < WINDOW ensures SlotTrue(Init().rx.ring, [], 0, s) {
    }
  }

  /** What holds even in the state in which the link has just been declared failed. */
  ghost predicate Safe(l: Link, cfg: Config) {
    && l.rx.delivered <= Payloads(l.subs)
    && (forall s: nat :: l.sent[s] <= 1 + cfg.maxRetries)
  }

  lemma InvSafe(l: Link, cfg: Config)
    requires LinkInv(l, cfg)
    ensures Safe(l, cfg)
  {
    var k := |l.rx.delivered|;
    assert Payloads(l.subs)[..k] == Payloads(l.subs[..k]);
  }

  lemma {:induction false} RunKeepsInv(steps: seq<Step>, cfg: Config)
    requires cfg.maxRetries >= 0 && After(steps, cfg).Some?
    ensures var l := After(steps, cfg).value; Safe(l, cfg) && (l.failed || LinkInv(l, cfg))
    decreases |steps|
  {
    if steps == [] {
      InitInv(cfg);
    } else {
      var n := |steps| - 1;
      RunKeepsInv(steps[..n], cfg);
      var l := After(steps[..n], cfg).value;
      StepKeepsInv(l, steps[n], cfg);
      var l1 := Next(l, steps[n], cfg);
      if !l1.failed { InvSafe(l1, cfg); }
    }
  }

  /**
   * In every reachable state the delivered list is a prefix of the submitted list, and no frame has been sent
   * more than `1 + max_retries` times; until the link is declared failed, the queue is what remains of the submitted
   * list after C_PDUs that have all been delivered.
   */
  lemma DeliveryIsPrefix(steps: seq<Step>, cfg: Config)
    requires cfg.maxRetries >= 0 && After(steps, cfg).Some?
    ensures var l := After(steps, cfg).value;
      && l.rx.delivered <= Payloads(l.subs)
      && (forall s: nat :: l.sent[s] <= 1 + cfg.maxRetries)
      && (!l.failed ==>
           && |l.tx.queue| <= |l.subs|
           && l.tx.queue == l.subs[|l.subs| - |l.tx.queue|..]
           && |l.subs| - |l.tx.queue| <= |l.rx.delivered|)
  {
    RunKeepsInv(steps, cfg);
    var l := After(steps, cfg).value;
    if !l.failed { Progress(l); }
  }

  /** Whenever the sender is idle both sides agree on the next sequence number, across any number of wraps. */
  lemma EdgesAgree(steps: seq<Step>, cfg: Config)
    requires cfg.maxRetries >= 0 && After(steps, cfg).Some?
    ensures var l := After(steps, cfg).value;
      !l.failed && l.tx.state == Idle ==>
        && l.tx.lwe == l.tx.nextSeq == l.rx.lwe == l.rx.deliverLwe
        && |l.rx.delivered| == |l.subs| - |l.tx.queue|
  {
    RunKeepsInv(steps, cfg);
    var l := After(steps, cfg).value;
    if !l.failed { Progress(l); }
  }

  /** While a C_PDU is in progress the window's upper end never moves: its first number plus its segment count. */
  lemma UpperEndIsFixed(steps: seq<Step>, cfg: Config)
    requires cfg.maxRetries >= 0 && After(steps, cfg).Some?
    ensures var l := After(steps, cfg).value;
      !l.failed && l.tx.state != Idle ==>
        && l.tx.queue != []
        && l.tx.count <= |CpduSegs(l.tx.queue[0].payload)|
        && SeqAdd(l.tx.lwe, l.tx.count) == SeqAdd(l.tx.nextSeq, |CpduSegs(l.tx.queue[0].payload)|)
  {
    RunKeepsInv(steps, cfg);
    var l := After(steps, cfg).value;
    if !l.failed && l.tx.state != Idle { UpperEndAt(l.tx, l.subs, l.t); }
  }

  lemma UpperEndAt(tx: Tx, subs: seq<Cpdu>, t: nat)
    requires TxInv(tx, subs, t) && tx.state != Idle
    ensures tx.count <= |CpduSegs(tx.queue[0].payload)|
    ensures SeqAdd(tx.lwe, tx.count) == SeqAdd(tx.nextSeq, |CpduSegs(tx.queue[0].payload)|)
  {
    var k := Done(tx, subs);
    CpduAt(subs, k);
    AddExact(t, tx.count);
    AddExact(Base(subs, k), |CpduSegs(tx.queue[0].payload)|);
  }

  /** The slot at window offset `i` is labelled with its own number and carries the matching segment of the C_PDU. */
  ghost predicate OwnFrame(tx: Tx, i: nat)
    requires tx.queue != [] && i < tx.count <= |CpduSegs(tx.queue[0].payload)|
  {
    var n := |CpduSegs(tx.queue[0].payload)| - tx.count + i;
    && Slot(SeqAt(tx, i)) in tx.slots
    && var slot := tx.slots[Slot(SeqAt(tx, i))];
    && slot.seqNo == slot.encoded.seqNo == SeqAt(tx, i) == SeqAdd(tx.nextSeq, n)
    && Seg(slot.encoded.chunk, slot.encoded.pduStart, slot.encoded.pduEnd) == CpduSegs(tx.queue[0].payload)[n]
  }

  /** Every slot of the window holds the frame of exactly its own sequence number, whatever is lost or sent again. */
  lemma SlotsHoldOwnFrames(steps: seq<Step>, cfg: Config, i: nat)
    requires cfg.maxRetries >= 0 && After(steps, cfg).Some?
    requires var l := After(steps, cfg).value; !l.failed && i < l.tx.count
    ensures var l := After(steps, cfg).value;
      l.tx.queue != [] && l.tx.count <= |CpduSegs(l.tx.queue[0].payload)| && OwnFrame(l.tx, i)
  {
    RunKeepsInv(steps, cfg);
    UpperEndIsFixed(steps, cfg);
    OwnFrameAt(After(steps, cfg).value.tx, After(steps, cfg).value.subs, After(steps, cfg).value.t, i);
  }

  lemma OwnFrameAt(tx: Tx, subs: seq<Cpdu>, t: nat, i: nat)
    requires TxInv(tx, subs, t) && i < tx.count
    ensures tx.queue != [] && tx.count <= |CpduSegs(tx.queue[0].payload)| && OwnFrame(tx, i)
  {
    hide AllSegs;
    var k := Done(tx, subs);
    CpduAt(subs, k);
    AtOffset(tx, t, i);
    AddExact(Base(subs, k), |CpduSegs(tx.queue[0].payload)| - tx.count + i);
    SegAt(subs, k, t + i);
    assert SlotOwn(tx.slots, AllSegs(subs), t + i);
  }

  // ---- Whole transmit opportunities ---------------------------------------

  /** The transmit passes of one `process_tx` call, as steps of the system. */
  function CallTx(l: Link, now: int, cfg: Config): Link
    requires TxWf(l.tx)
    decreases !Bursting(l.tx), Left(l.tx)
  {
    var l1 := Transmitted(l, now, cfg);
    if TxSingle(l.tx, now, cfg).frame == None then l1
    else
      PassProgress(l.tx, now, cfg);
      CallTx(l1, now, cfg)
  }

  function FramesIn(data: seq<DataInFlight>): seq<DataFrame> {
    seq(|data|, i requires 0 <= i < |data| => data[i].frame)
  }

  lemma TransmittedFrames(l: Link, now: int, cfg: Config)
    requires TxWf(l.tx)
    ensures var out := TxSingle(l.tx, now, cfg);
      && Transmitted(l, now, cfg).tx == out.tx
      && (out.frame == None ==> Transmitted(l, now, cfg).data == l.data)
      && (out.frame.Some? ==> FramesIn(Transmitted(l, now, cfg).data) == FramesIn(l.data) + [out.frame.value])
  {
    var out := TxSingle(l.tx, now, cfg);
    if out.frame.Some? { NoFrameOnFailure(l.tx, now, cfg); }
  }

  lemma NoFrameOnFailure(tx: Tx, now: int, cfg: Config)
    requires TxWf(tx)
    ensures TxSingle(tx, now, cfg).failed ==> TxSingle(tx, now, cfg).frame == None
  {
  }

  /** One call puts exactly the frames of its burst on the air, in order. */
  lemma {:induction false} CallTxIsBurst(l: Link, now: int, cfg: Config)
    requires TxWf(l.tx)
    ensures CallTx(l, now, cfg).tx == Burst(l.tx, now, cfg).tx
    ensures FramesIn(CallTx(l, now, cfg).data) == FramesIn(l.data) + Burst(l.tx, now, cfg).frames
    decreases !Bursting(l.tx), Left(l.tx)
  {
    var out := TxSingle(l.tx, now, cfg);
    NoFrameOnFailure(l.tx, now, cfg);
    TransmittedFrames(l, now, cfg);
    if out.frame.Some? {
      PassProgress(l.tx, now, cfg);
      CallTxIsBurst(Transmitted(l, now, cfg), now, cfg);
      var rest := Burst(out.tx, now, cfg).frames;
      assert FramesIn(l.data) + [out.frame.value] + rest == FramesIn(l.data) + ([out.frame.value] + rest);
    }
  }

  /** A whole call is a run of single transmit steps. */
  lemma {:induction false} CallTxIsRun(steps: seq<Step>, now: int, cfg: Config) returns (more: seq<Step>)
    requires After(steps, cfg).Some? && !After(steps, cfg).value.failed && TxWf(After(steps, cfg).value.tx)
    ensures After(steps + more, cfg) == Some(CallTx(After(steps, cfg).value, now, cfg))
    decreases !Bursting(After(steps, cfg).value.tx), Left(After(steps, cfg).value.tx)
  {
    var l := After(steps, cfg).value;
    var steps1 := steps + [Step.Transmit(now)];
    TransmitNext(steps, now, cfg);
    if TxSingle(l.tx, now, cfg).frame == None {
      more := [Step.Transmit(now)];
    } else {
      PassProgress(l.tx, now, cfg);
      var rest := CallTxIsRun(steps1, now, cfg);
      more := [Step.Transmit(now)] + rest;
      AppendAssoc(steps, [Step.Transmit(now)], rest);
    }
  }

  lemma TransmitNext(steps: seq<Step>, now: int, cfg: Config)
    requires After(steps, cfg).Some? && !After(steps, cfg).value.failed && TxWf(After(steps, cfg).value.tx)
    ensures After(steps + [Step.Transmit(now)], cfg) == Some(Transmitted(After(steps, cfg).value, now, cfg))
  {
    assert (steps + [Step.Transmit(now)])[..|steps|] == steps;
  }

  /**
   * In every reachable state one `process_tx` call ends, sends each number of the window at most once and in
   * order, and leaves the engine in IDLE or WAIT_ACK.
   */
  lemma CallSendsOnce(steps: seq<Step>, now: int, cfg: Config)
    requires cfg.maxRetries >= 0 && After(steps, cfg).Some? && !After(steps, cfg).value.failed
    ensures var tx := After(steps, cfg).value.tx;
      && TxWf(tx)
      && (Burst(tx, now, cfg).tx.state == Idle || Burst(tx, now, cfg).tx.state == WaitAck)
      && Increasing(Burst(tx, now, cfg).frames, tx.lwe, 0, WINDOW)
  {
    RunKeepsInv(steps, cfg);
    var l := After(steps, cfg).value;
    TxInvWf(l.tx, l.subs, l.t);
    BurstOnce(l.tx, l.subs, l.t, now, cfg, l.sent);
  }
}

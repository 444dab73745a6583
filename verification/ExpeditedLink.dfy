/** Two expedited engines joined by lossy FIFO channels: which C_PDUs are delivered, over every run. */
module ExpeditedLink {
  import opened Bits
  import opened Chunking
  import opened Expedited
  import opened Prelude

  /** Segment `index` of `count` of C_PDU number `cpdu`. Segments are numbered in the order of their frame numbers. */
  datatype Seg = Seg(cpdu: nat, index: nat, count: nat)

  /** D_PDUs on the air with the number of their segment, a history variable that no engine reads. */
  datatype DataIn = DataIn(frame: Frame, stamp: nat)
  datatype AckIn = AckIn(rxLwe: int, stamp: nat)

  /**
    * The system and its history: `cpdus` are the C_PDUs submitted, `segs` the segments they were cut into, `got` the
    * segments received, `acked` the last segment whose acknowledgement was accepted (-1 at first), and `done` the
    * C_PDUs delivered.
    */
  datatype Link = Link(tx: Tx, rx: Rx, pendingAck: Option<AckIn>, data: seq<DataIn>, acks: seq<AckIn>,
                       cpdus: seq<bytes>, segs: seq<Seg>, got: seq<nat>, acked: int, done: seq<nat>)

  function Init(): Link {
    Link(FRESH_TX, FRESH_RX, None, [], [], [], [], [], -1, [])
  }

  datatype Step =
    | Submit(payload: bytes) | Round(now: int) | Acknowledge
    | ReceiveData | LoseData(i: nat) | ReceiveAck | LoseAck(i: nat)

  function Current(l: Link): int { CurrentOf(l.tx, l.segs) }

  function LastGot(l: Link): int { LastOf(l.got) }

  /** How many segments in a row have been passed over since one was last acknowledged. */
  function Skipped(l: Link): int {
    Current(l) - 1 - l.acked
  }

  /** The segment is the first or the last, but not both, of its C_PDU. */
  predicate AtOneEnd(f: Frame) { f.pduStart != f.pduEnd }

  /** The step can happen. */
  predicate Possible(l: Link, step: Step) {
    match step
    case Submit(_) => true
    case Round(_) => 0 <= |l.cpdus| - |l.tx.queue|
    case Acknowledge => l.pendingAck.Some?
    case ReceiveData => l.data != []
    case LoseData(i) => i < |l.data|
    case ReceiveAck => l.acks != []
    case LoseAck(i) => i < |l.acks|
  }

  /**
    * The step passes over no more than `bound` segments in a row, and it receives a segment again only if that is the
    * first or the last of a longer C_PDU.
    */
  predicate Within(l: Link, step: Step, cfg: Config, bound: nat) {
    && Possible(l, step)
    && (step.Round? ==> Skipped(Rounded(l, step.now, cfg)) <= bound)
    && (step.ReceiveData? ==> LastGot(l) < l.data[0].stamp || AtOneEnd(l.data[0].frame))
  }

  /** The runs considered: fewer than 255 segments in a row are passed over. */
  predicate Enabled(l: Link, step: Step, cfg: Config) { Within(l, step, cfg, 254) }

  /** The segments of the C_PDU taken from the queue in this round, if one is. */
  function Cut(l: Link): seq<Seg>
    requires 0 <= |l.cpdus| - |l.tx.queue|
  {
    if l.tx.waiting == None && l.tx.segments == [] && l.tx.queue != [] then
      SegsOf(l.tx.queue[0], |l.cpdus| - |l.tx.queue|)
    else []
  }

  function SegsOf(p: bytes, cpdu: nat): (s: seq<Seg>)
    ensures |s| == |Chunks(p, MAX_DATA)|
  {
    seq(|Chunks(p, MAX_DATA)|, i requires 0 <= i < |Chunks(p, MAX_DATA)| => Seg(cpdu, i, |Chunks(p, MAX_DATA)|))
  }

  function Rounded(l: Link, now: int, cfg: Config): Link
    requires 0 <= |l.cpdus| - |l.tx.queue|
  {
    var r := OnRound(l.tx, now, cfg);
    var l1 := l.(tx := r.tx, segs := l.segs + Cut(l));
    if r.frame.Some? && Current(l1) >= 0 then l1.(data := l.data + [DataIn(r.frame.value, Current(l1))]) else l1
  }

  /** The receiver takes the first D_PDU on the air. */
  function Taken(l: Link): Link
    requires l.data != []
  {
    var d := l.data[0];
    var rx := OnData(l.rx, d.frame);
    l.(rx := rx, data := l.data[1..], pendingAck := Some(AckIn(AckOf(d.frame), d.stamp)),
       got := if LastGot(l) < d.stamp then l.got + [d.stamp] else l.got,
       done := if |rx.delivered| > |l.rx.delivered| && d.stamp < |l.segs| then l.done + [l.segs[d.stamp].cpdu]
               else l.done)
  }

  /** The sender takes the first acknowledgement on the air. */
  function Heard(l: Link): Link
    requires l.acks != []
  {
    var tx := OnAck(l.tx, l.acks[0].rxLwe);
    l.(tx := tx, acks := l.acks[1..], acked := if l.tx.waiting.Some? && tx.waiting == None then Current(l) else l.acked)
  }

  function Next(l: Link, step: Step, cfg: Config): Link
    requires Possible(l, step)
  {
    match step
    case Submit(p) => l.(tx := OnSubmit(l.tx, p), cpdus := if p == [] then l.cpdus else l.cpdus + [p])
    case Round(now) => Rounded(l, now, cfg)
    case Acknowledge => l.(acks := l.acks + [l.pendingAck.value], pendingAck := None)
    case ReceiveData => Taken(l)
    case LoseData(i) => l.(data := l.data[..i] + l.data[i + 1..])
    case ReceiveAck => Heard(l)
    case LoseAck(i) => l.(acks := l.acks[..i] + l.acks[i + 1..])
  }

  function AfterWithin(steps: seq<Step>, cfg: Config, bound: nat): Option<Link> {
    if steps == [] then Some(Init())
    else
      var n := |steps| - 1;
      match AfterWithin(steps[..n], cfg, bound)
      case None => None
      case Some(l) => if Within(l, steps[n], cfg, bound) then Some(Next(l, steps[n], cfg)) else None
  }

  function After(steps: seq<Step>, cfg: Config): Option<Link> { AfterWithin(steps, cfg, 254) }

  // ---- Invariant ----------------------------------------------------------

  /** Segment `k` belongs to a C_PDU of the list, and so do its neighbours. */
  ghost predicate Numbered(cpdus: seq<bytes>, segs: seq<Seg>, k: nat)
    requires k < |segs|
  {
    var s := segs[k];
    && s.cpdu < |cpdus| && s.index < s.count == |Chunks(cpdus[s.cpdu], MAX_DATA)|
    && s.index <= k && k - s.index + s.count <= |segs|
    && forall j :: 0 <= j < s.count ==> segs[k - s.index + j] == Seg(s.cpdu, j, s.count)
  }

  /** The D_PDU of segment `k`. */
  ghost function FrameAt(cpdus: seq<bytes>, segs: seq<Seg>, k: nat): Frame
    requires k < |segs| && Numbered(cpdus, segs, k)
  {
    var s := segs[k];
    Frame(k % FSN_MOD, s.cpdu % ID_MOD, s.index == 0, s.index + 1 == s.count, Chunks(cpdus[s.cpdu], MAX_DATA)[s.index])
  }

  ghost predicate IsFrame(cpdus: seq<bytes>, segs: seq<Seg>, k: int, f: Frame) {
    0 <= k < |segs| && Numbered(cpdus, segs, k) && f == FrameAt(cpdus, segs, k)
  }

  /** All segments of the same C_PDU before segment `k` have been received. */
  ghost predicate Prefix(segs: seq<Seg>, got: seq<nat>, k: int) {
    0 <= k < |segs| && forall j :: k - segs[k].index <= j < k ==> j in got
  }

  /** The segments are numbered C_PDU by C_PDU, for the C_PDUs already taken from the queue. */
  ghost predicate SegsOk(cpdus: seq<bytes>, segs: seq<Seg>, taken: int) {
    && (forall k :: 0 <= k < |segs| ==> Numbered(cpdus, segs, k))
    && (forall k :: 0 <= k < |segs| ==> segs[k].cpdu < taken)
    && (forall j, k :: 0 <= j < k < |segs| ==> segs[j].cpdu <= segs[k].cpdu)
    && (forall j, k :: 0 <= j < k < |segs| && segs[j].index + 1 == segs[j].count ==> segs[j].cpdu < segs[k].cpdu)
  }

  /**
    * The segment in flight carries the current frame number, those behind it the consecutive next ones, all under the
    * id of the C_PDU last taken from the queue.
    */
  ghost predicate TxOk(tx: Tx, cpdus: seq<bytes>, segs: seq<Seg>, got: seq<nat>, acked: int) {
    var taken, cur := |cpdus| - |tx.queue|, CurrentOf(tx, segs);
    && 0 <= taken && (forall i :: 0 <= i < |tx.queue| ==> tx.queue[i] == cpdus[taken + i])
      && (forall p :: p in cpdus ==> p != [])
    && 0 <= cur && tx.frameSeq == cur % FSN_MOD && SegsOk(cpdus, segs, taken) && FramesOk(tx, cpdus, segs)
    && (cur < |segs| ==> segs[cur].cpdu == taken - 1 && Prefix(segs, got, cur))
    && tx.cpduId == (taken - if cur < |segs| then 1 else 0) % ID_MOD
    && acked < cur && cur - 1 - acked <= 254
  }

  ghost predicate FramesOk(tx: Tx, cpdus: seq<bytes>, segs: seq<Seg>) {
    && (tx.waiting.Some? ==> IsFrame(cpdus, segs, CurrentOf(tx, segs), tx.waiting.value.frame))
    && (forall i :: 0 <= i < |tx.segments| ==> IsFrame(cpdus, segs, |segs| - |tx.segments| + i, tx.segments[i]))
  }

  /** The number of the segment in flight, or of the next one to be sent. */
  function CurrentOf(tx: Tx, segs: seq<Seg>): int {
    |segs| - |tx.segments| - if tx.waiting.Some? then 1 else 0
  }

  /** The number of segments sent so far. */
  function SentOf(tx: Tx, segs: seq<Seg>): int {
    |segs| - |tx.segments|
  }

  function LastOf(got: seq<nat>): int {
    if got == [] then -1 else got[|got| - 1]
  }

  ghost predicate DataOk(data: seq<DataIn>, cpdus: seq<bytes>, segs: seq<Seg>, got: seq<nat>, sent: int) {
    && (forall i :: 0 <= i < |data| ==>
          && LastOf(got) <= data[i].stamp < sent && IsFrame(cpdus, segs, data[i].stamp, data[i].frame)
          && Prefix(segs, got, data[i].stamp))
    && (forall i, j :: 0 <= i < j < |data| ==> data[i].stamp <= data[j].stamp)
  }

  ghost predicate AckOk(a: AckIn, got: seq<nat>, acked: int) {
    acked <= a.stamp <= LastOf(got) && a.stamp in got && a.rxLwe == (a.stamp + 1) % FSN_MOD
  }

  ghost predicate AcksOk(acks: seq<AckIn>, pending: Option<AckIn>, got: seq<nat>, acked: int) {
    && acked <= LastOf(got)
    && (forall i :: 0 <= i < |acks| ==> AckOk(acks[i], got, acked))
    && (forall i, j :: 0 <= i < j < |acks| ==> acks[i].stamp <= acks[j].stamp)
    && (pending.Some? ==> AckOk(pending.value, got, acked) && pending.value.stamp == LastOf(got))
  }

  ghost predicate GotOk(segs: seq<Seg>, got: seq<nat>, sent: int) {
    && (forall i :: 0 <= i < |got| ==> got[i] < |segs| && got[i] < sent)
    && (forall i, j :: 0 <= i < j < |got| ==> got[i] < got[j])
    && (forall k :: k in got ==> Prefix(segs, got, k))
  }

  /** The last segment of C_PDU `c` has been received. */
  ghost predicate EndReceived(segs: seq<Seg>, got: seq<nat>, c: nat) {
    exists k :: k in got && IsEndOf(segs, k, c)
  }

  predicate IsEndOf(segs: seq<Seg>, k: nat, c: nat) {
    k < |segs| && segs[k].cpdu == c && segs[k].index + 1 == segs[k].count
  }

  /** The receiver holds exactly the segments received so far of the C_PDU in progress. */
  ghost predicate RxOk(rx: Rx, cpdus: seq<bytes>, segs: seq<Seg>, got: seq<nat>) {
    if got == [] then rx.parts == []
    else
      var k := LastOf(got);
      && 0 <= k < |segs| && Numbered(cpdus, segs, k) && rx.cpduId == segs[k].cpdu % ID_MOD
      && rx.parts == (if segs[k].index + 1 == segs[k].count then []
                      else Chunks(cpdus[segs[k].cpdu], MAX_DATA)[..segs[k].index + 1])
  }

  ghost predicate DoneOk(delivered: seq<bytes>, cpdus: seq<bytes>, segs: seq<Seg>, got: seq<nat>, done: seq<nat>) {
    && |delivered| == |done|
    && (forall i :: 0 <= i < |done| ==> done[i] < |cpdus| && delivered[i] == cpdus[done[i]])
    && (forall i, j :: 0 <= i < j < |done| ==> done[i] < done[j])
    && (forall c :: c in done <==> EndReceived(segs, got, c))
  }

  ghost predicate LinkInv(l: Link) {
    var sent := SentOf(l.tx, l.segs);
    && TxOk(l.tx, l.cpdus, l.segs, l.got, l.acked) && GotOk(l.segs, l.got, sent)
    && DataOk(l.data, l.cpdus, l.segs, l.got, sent) && AcksOk(l.acks, l.pendingAck, l.got, l.acked)
    && RxOk(l.rx, l.cpdus, l.segs, l.got) && DoneOk(l.rx.delivered, l.cpdus, l.segs, l.got, l.done)
  }

  // ---- Losing and handing over --------------------------------------------

  lemma DropData(data: seq<DataIn>, i: nat, cpdus: seq<bytes>, segs: seq<Seg>, got: seq<nat>, sent: int)
    requires DataOk(data, cpdus, segs, got, sent) && i < |data|
    ensures DataOk(data[..i] + data[i + 1..], cpdus, segs, got, sent)
  {
    var rest := data[..i] + data[i + 1..];
    assert forall k :: 0 <= k < |rest| ==> rest[k] == data[if k < i then k else k + 1];
  }

  lemma DropAck(acks: seq<AckIn>, i: nat, pending: Option<AckIn>, got: seq<nat>, acked: int)
    requires AcksOk(acks, pending, got, acked) && i < |acks|
    ensures AcksOk(acks[..i] + acks[i + 1..], pending, got, acked)
  {
    var rest := acks[..i] + acks[i + 1..];
    assert forall k :: 0 <= k < |rest| ==> rest[k] == acks[if k < i then k else k + 1];
  }

  lemma SendAck(acks: seq<AckIn>, a: AckIn, got: seq<nat>, acked: int)
    requires AcksOk(acks, Some(a), got, acked)
    ensures AcksOk(acks + [a], None, got, acked)
  {
  }

  // ---- Submission ---------------------------------------------------------

  lemma NumberedMore(cpdus: seq<bytes>, p: bytes, segs: seq<Seg>, k: nat)
    requires k < |segs| && Numbered(cpdus, segs, k)
    ensures Numbered(cpdus + [p], segs, k) && FrameAt(cpdus + [p], segs, k) == FrameAt(cpdus, segs, k)
  {
  }

  lemma SubmitInv(l: Link, p: bytes, cfg: Config)
    requires LinkInv(l)
    ensures LinkInv(Next(l, Submit(p), cfg))
  {
    if p != [] {
      forall k | 0 <= k < |l.segs|
        ensures Numbered(l.cpdus + [p], l.segs, k)
        ensures forall f :: IsFrame(l.cpdus + [p], l.segs, k, f) <==> IsFrame(l.cpdus, l.segs, k, f)
      {
        NumberedMore(l.cpdus, p, l.segs, k);
      }
      SubmitTx(l.tx, l.cpdus, p, l.segs, l.got, l.acked);
    }
  }

  lemma SubmitTx(tx: Tx, cpdus: seq<bytes>, p: bytes, segs: seq<Seg>, got: seq<nat>, acked: int)
    requires TxOk(tx, cpdus, segs, got, acked) && p != []
    requires forall k :: 0 <= k < |segs| ==> Numbered(cpdus + [p], segs, k)
    requires forall k, f :: 0 <= k < |segs| ==> (IsFrame(cpdus + [p], segs, k, f) <==> IsFrame(cpdus, segs, k, f))
    ensures TxOk(tx.(queue := tx.queue + [p]), cpdus + [p], segs, got, acked)
  {
    hide Numbered, IsFrame, Prefix;
  }

  // ---- Acknowledgements ---------------------------------------------------

  lemma ModAdd(a: int, b: int, m: nat)
    requires m > 0
    ensures (a % m + b) % m == (a + b) % m
  {
    var q, r := a / m, a % m;
    var u, v := (r + b) / m, (r + b) % m;
    assert a + b == m * (q + u) + v;
    DivIs(a + b, m, q + u, v);
  }

  /** Frame numbers repeat only every 256 segments. */
  lemma SameNumber(a: int, b: int)
    requires a <= b < a + FSN_MOD && (a + 1) % FSN_MOD == (b % FSN_MOD + 1) % FSN_MOD
    ensures a == b
  {
  }

  lemma ReceiveAckInv(l: Link)
    requires LinkInv(l) && l.acks != []
    ensures LinkInv(Heard(l))
  {
    hide RxOk, FramesOk, DoneOk;
    var a, c := l.acks[0], CurrentOf(l.tx, l.segs);
    assert l.acks[..0] + l.acks[0 + 1..] == l.acks[1..];
    DropAck(l.acks, 0, l.pendingAck, l.got, l.acked);
    assert AckOk(a, l.got, l.acked);
    assert l.tx.frameSeq == c % FSN_MOD && 0 <= c && l.acked < c && c - 1 - l.acked <= 254;
    assert l.tx.waiting.Some? ==> LastOf(l.got) <= c;
    hide TxOk, GotOk, DataOk, AcksOk, RxOk, DoneOk;
    if l.tx.waiting.Some? && a.rxLwe == (l.tx.frameSeq + 1) % FSN_MOD {
      SameNumber(a.stamp, c);
      assert a.stamp == c && c in l.got;
      AckedTx(l.tx, l.cpdus, l.segs, l.got, l.acked);
      LaterAcks(l.acks, l.pendingAck, l.got, l.acked, c);
    }
  }

  /** Acknowledgements leave in the order of their segments, so those behind an accepted one are no older. */
  lemma LaterAcks(acks: seq<AckIn>, pending: Option<AckIn>, got: seq<nat>, acked: int, c: nat)
    requires AcksOk(acks, pending, got, acked) && acks != [] && acks[0].stamp == c
    ensures AcksOk(acks[1..], pending, got, c)
  {
  }

  lemma AckedTx(tx: Tx, cpdus: seq<bytes>, segs: seq<Seg>, got: seq<nat>, acked: int)
    requires TxOk(tx, cpdus, segs, got, acked) && tx.waiting.Some? && CurrentOf(tx, segs) in got
    ensures TxOk(OnAck(tx, (tx.frameSeq + 1) % FSN_MOD), cpdus, segs, got, CurrentOf(tx, segs))
  {
    var c, tx1 := CurrentOf(tx, segs), OnAck(tx, (tx.frameSeq + 1) % FSN_MOD);
    var taken := |cpdus| - |tx.queue|;
    assert CurrentOf(tx1, segs) == c + 1;
    ModAdd(c, 1, FSN_MOD);
    ModAdd(taken - 1, 1, ID_MOD);
    AckedFrames(tx, tx1, cpdus, segs);
    if tx.segments != [] {
      SameCpdu(cpdus, segs, taken, c);
      PrefixOn(cpdus, segs, taken, got, c);
    }
  }

  lemma AckedFrames(tx: Tx, tx1: Tx, cpdus: seq<bytes>, segs: seq<Seg>)
    requires FramesOk(tx, cpdus, segs) && tx1.waiting == None && tx1.segments == tx.segments
    ensures FramesOk(tx1, cpdus, segs)
  {
  }

  /** Segments behind one of the C_PDU taken last are of that C_PDU. */
  lemma SameCpdu(cpdus: seq<bytes>, segs: seq<Seg>, taken: int, c: nat)
    requires SegsOk(cpdus, segs, taken) && c + 1 < |segs| && segs[c].cpdu == taken - 1
    ensures segs[c + 1].cpdu == taken - 1
  {
  }

  /** When a segment and all before it have been received, the same can be said of those before the next one. */
  lemma PrefixOn(cpdus: seq<bytes>, segs: seq<Seg>, taken: int, got: seq<nat>, c: nat)
    requires SegsOk(cpdus, segs, taken) && c + 1 < |segs| && c in got && Prefix(segs, got, c)
    ensures Prefix(segs, got, c + 1)
  {
    var t := segs[c + 1];
    assert Numbered(cpdus, segs, c + 1);
    if t.index > 0 {
      assert segs[c + 1 - t.index + (t.index - 1)] == Seg(t.cpdu, t.index - 1, t.count);
      assert segs[c].index == t.index - 1;
    }
  }

  // ---- Rounds of the sender -----------------------------------------------

  /** Everything but the transmit fields stays good when only the sender moves on. */
  lemma MoreSent(l: Link, sent: int)
    requires GotOk(l.segs, l.got, SentOf(l.tx, l.segs)) && DataOk(l.data, l.cpdus, l.segs, l.got, SentOf(l.tx, l.segs))
    requires SentOf(l.tx, l.segs) <= sent
    ensures GotOk(l.segs, l.got, sent) && DataOk(l.data, l.cpdus, l.segs, l.got, sent)
  {
  }

  lemma GiveUpTx(tx: Tx, cpdus: seq<bytes>, segs: seq<Seg>, got: seq<nat>, acked: int)
    requires TxOk(tx, cpdus, segs, got, acked) && tx.waiting.Some?
    requires CurrentOf(GivenUp(tx), segs) - 1 - acked <= 254
    ensures TxOk(GivenUp(tx), cpdus, segs, got, acked)
  {
    var c, taken := CurrentOf(tx, segs), |cpdus| - |tx.queue|;
    assert c + 1 + |tx.segments| == |segs|;
    ModAdd(c, 1 + |tx.segments|, FSN_MOD);
    ModAdd(taken - 1, 1, ID_MOD);
  }

  /** A D_PDU of the current segment goes behind everything on the air. */
  lemma SendData(data: seq<DataIn>, cpdus: seq<bytes>, segs: seq<Seg>, got: seq<nat>, sent: int, f: Frame)
    requires DataOk(data, cpdus, segs, got, sent) && GotOk(segs, got, sent)
    requires IsFrame(cpdus, segs, sent - 1, f) && Prefix(segs, got, sent - 1)
    ensures DataOk(data + [DataIn(f, sent - 1)], cpdus, segs, got, sent)
  {
  }

  lemma ResendTx(tx: Tx, cpdus: seq<bytes>, segs: seq<Seg>, got: seq<nat>, acked: int, now: int)
    requires TxOk(tx, cpdus, segs, got, acked) && tx.waiting.Some?
    ensures var w := tx.waiting.value;
      var tx1 := tx.(waiting := Some(w.(sentAt := now, retx := w.retx + 1)));
      && TxOk(tx1, cpdus, segs, got, acked) && SentOf(tx1, segs) == SentOf(tx, segs)
      && IsFrame(cpdus, segs, SentOf(tx, segs) - 1, w.frame) && Prefix(segs, got, SentOf(tx, segs) - 1)
  {
    hide Numbered, IsFrame, Prefix, SegsOk;
  }

  /** A round in which a D_PDU of the current segment goes out again. */
  lemma ResendIs(l: Link, now: int, cfg: Config)
    requires 0 <= |l.cpdus| - |l.tx.queue| && 0 < SentOf(l.tx, l.segs)
    requires l.tx.waiting.Some? && OnRound(l.tx, now, cfg).frame.Some?
    ensures var w := l.tx.waiting.value;
      Rounded(l, now, cfg) == l.(tx := l.tx.(waiting := Some(w.(sentAt := now, retx := w.retx + 1))),
                                 data := l.data + [DataIn(w.frame, SentOf(l.tx, l.segs) - 1)])
  {
    assert l.segs + [] == l.segs;
  }

  lemma ResendInv(l: Link, now: int, cfg: Config)
    requires LinkInv(l) && l.tx.waiting.Some? && Enabled(l, Round(now), cfg) && OnRound(l.tx, now, cfg).frame.Some?
    ensures LinkInv(Rounded(l, now, cfg))
  {
    hide TxOk, GotOk, DataOk, AcksOk, RxOk, DoneOk;
    ResendTx(l.tx, l.cpdus, l.segs, l.got, l.acked, now);
    ResendIs(l, now, cfg);
    SendData(l.data, l.cpdus, l.segs, l.got, SentOf(l.tx, l.segs), l.tx.waiting.value.frame);
  }

  lemma GiveUpInv(l: Link, now: int, cfg: Config)
    requires LinkInv(l) && l.tx.waiting.Some? && Enabled(l, Round(now), cfg) && OnRound(l.tx, now, cfg).frame == None
    ensures LinkInv(Rounded(l, now, cfg))
  {
    var tx1 := OnRound(l.tx, now, cfg).tx;
    assert l.segs + [] == l.segs;
    if tx1 != l.tx {
      GiveUpTx(l.tx, l.cpdus, l.segs, l.got, l.acked);
    }
    MoreSent(l, SentOf(tx1, l.segs));
  }

  /** Cutting the next C_PDU numbers its segments on from the last one. */
  lemma CutSegs(cpdus: seq<bytes>, segs: seq<Seg>, taken: nat)
    requires SegsOk(cpdus, segs, taken) && taken < |cpdus|
    ensures SegsOk(cpdus, segs + SegsOf(cpdus[taken], taken), taken + 1)
    ensures forall k, f :: 0 <= k < |segs| ==>
      (IsFrame(cpdus, segs + SegsOf(cpdus[taken], taken), k, f) <==> IsFrame(cpdus, segs, k, f))
  {
    hide Chunks;
    var more := SegsOf(cpdus[taken], taken);
    var all := segs + more;
    forall k | 0 <= k < |segs| ensures Numbered(cpdus, all, k) {
      assert Numbered(cpdus, segs, k);
    }
    forall k | |segs| <= k < |all| ensures Numbered(cpdus, all, k) {
      assert all[k] == more[k - |segs|];
    }
  }

  lemma CutFrame(cpdus: seq<bytes>, segs: seq<Seg>, taken: nat, i: nat, frameSeq: int, cpduId: int)
    requires SegsOk(cpdus, segs, taken) && taken < |cpdus| && i < |Chunks(cpdus[taken], MAX_DATA)|
    requires frameSeq == |segs| % FSN_MOD && cpduId == taken % ID_MOD
    ensures IsFrame(cpdus, segs + SegsOf(cpdus[taken], taken), |segs| + i, Segments(cpdus[taken], frameSeq, cpduId)[i])
  {
    hide SegsOk;
    var more := SegsOf(cpdus[taken], taken);
    var all := segs + more;
    CutSegs(cpdus, segs, taken);
    assert all[|segs| + i] == more[i] == Seg(taken, i, |more|);
    ModAdd(|segs|, i, FSN_MOD);
    assert Numbered(cpdus, all, |segs| + i);
    hide SegsOk, Numbered;
  }

  lemma CutTx(tx: Tx, cpdus: seq<bytes>, segs: seq<Seg>, got: seq<nat>, acked: int)
    requires TxOk(tx, cpdus, segs, got, acked) && tx.waiting == None && tx.segments == [] && tx.queue != []
    ensures TxOk(Segmented(tx), cpdus, segs + SegsOf(tx.queue[0], |cpdus| - |tx.queue|), got, acked)
    ensures Segmented(tx).segments != []
  {
    hide SegsOk, FramesOk, IsFrame, Numbered, Prefix;
    var taken, n := |cpdus| - |tx.queue|, |segs|;
    var p, tx1 := tx.queue[0], Segmented(tx);
    assert p == cpdus[taken + 0];
    assert p in cpdus;
    CutSegs(cpdus, segs, taken);
    CutEach(cpdus, segs, taken, tx.frameSeq, tx.cpduId);
    CutFirst(p, segs, got, taken);
    SegmentedIs(tx);
    FramesFrom(tx1, Segments(p, tx.frameSeq, tx.cpduId), cpdus, segs + SegsOf(p, taken), n);
  }

  /** The first of the new segments starts the C_PDU, so none before it is needed. */
  lemma CutFirst(p: bytes, segs: seq<Seg>, got: seq<nat>, taken: nat)
    requires p != []
    ensures var all := segs + SegsOf(p, taken);
      |segs| < |all| && all[|segs|].cpdu == taken && Prefix(all, got, |segs|)
  {
    ChunksPartition(p, MAX_DATA);
    assert (segs + SegsOf(p, taken))[|segs|] == SegsOf(p, taken)[0];
  }

  lemma FramesFrom(tx: Tx, fs: seq<Frame>, cpdus: seq<bytes>, segs: seq<Seg>, base: int)
    requires tx.waiting == None && tx.segments == fs && base == |segs| - |fs|
    requires forall i :: 0 <= i < |fs| ==> IsFrame(cpdus, segs, base + i, fs[i])
    ensures FramesOk(tx, cpdus, segs)
  {
  }

  lemma SegmentedIs(tx: Tx)
    requires tx.queue != []
    ensures Segmented(tx).segments == Segments(tx.queue[0], tx.frameSeq, tx.cpduId)
    ensures Segmented(tx).waiting == tx.waiting
  {
  }

  lemma CutEach(cpdus: seq<bytes>, segs: seq<Seg>, taken: nat, frameSeq: int, cpduId: int)
    requires SegsOk(cpdus, segs, taken) && taken < |cpdus|
    requires frameSeq == |segs| % FSN_MOD && cpduId == taken % ID_MOD
    ensures var fs, more := Segments(cpdus[taken], frameSeq, cpduId), SegsOf(cpdus[taken], taken);
      |fs| == |more| && forall i :: 0 <= i < |fs| ==> IsFrame(cpdus, segs + more, |segs| + i, fs[i])
  {
    var fs, more := Segments(cpdus[taken], frameSeq, cpduId), SegsOf(cpdus[taken], taken);
    forall i | 0 <= i < |fs| ensures IsFrame(cpdus, segs + more, |segs| + i, fs[i]) {
      CutFrame(cpdus, segs, taken, i, frameSeq, cpduId);
    }
  }

  lemma CutRest(l: Link, more: seq<Seg>)
    requires GotOk(l.segs, l.got, SentOf(l.tx, l.segs)) && DataOk(l.data, l.cpdus, l.segs, l.got, SentOf(l.tx, l.segs))
    requires RxOk(l.rx, l.cpdus, l.segs, l.got) && DoneOk(l.rx.delivered, l.cpdus, l.segs, l.got, l.done)
    requires forall k, f :: 0 <= k < |l.segs| ==>
        (IsFrame(l.cpdus, l.segs + more, k, f) <==> IsFrame(l.cpdus, l.segs, k, f))
    requires forall k :: 0 <= k < |l.segs| ==> Numbered(l.cpdus, l.segs + more, k)
    ensures var sent, segs := SentOf(l.tx, l.segs), l.segs + more;
      && GotOk(segs, l.got, sent) && DataOk(l.data, l.cpdus, segs, l.got, sent)
      && RxOk(l.rx, l.cpdus, segs, l.got) && DoneOk(l.rx.delivered, l.cpdus, segs, l.got, l.done)
  {
    var segs := l.segs + more;
    forall k: nat | k in l.got ensures k < |l.segs| && Prefix(segs, l.got, k) {
      assert Prefix(l.segs, l.got, k);
    }
    forall c ensures EndReceived(segs, l.got, c) <==> EndReceived(l.segs, l.got, c) {
      EndsKept(l.segs, more, l.got, c);
    }
  }

  lemma EndsKept(segs: seq<Seg>, more: seq<Seg>, got: seq<nat>, c: nat)
    requires forall k :: k in got ==> k < |segs|
    ensures EndReceived(segs + more, got, c) <==> EndReceived(segs, got, c)
  {
    if EndReceived(segs + more, got, c) {
      var k :| k in got && IsEndOf(segs + more, k, c);
      assert IsEndOf(segs, k, c);
    }
    if EndReceived(segs, got, c) {
      var k :| k in got && IsEndOf(segs, k, c);
      assert IsEndOf(segs + more, k, c);
    }
  }

  /** The first waiting segment goes out. */
  lemma FirstInv(l: Link, now: int)
    requires LinkInv(l) && l.tx.waiting == None && l.tx.segments != []
    ensures var tx1 := l.tx.(waiting := Some(Waiting(l.tx.segments[0], now, 0)), segments := l.tx.segments[1..]);
      LinkInv(l.(tx := tx1, data := l.data + [DataIn(l.tx.segments[0], CurrentOf(l.tx, l.segs))]))
  {
    hide SegsOk;
    var tx1 := l.tx.(waiting := Some(Waiting(l.tx.segments[0], now, 0)), segments := l.tx.segments[1..]);
    var c := CurrentOf(l.tx, l.segs);
    assert CurrentOf(tx1, l.segs) == c && SentOf(tx1, l.segs) == c + 1;
    FirstTx(l.tx, l.cpdus, l.segs, l.got, l.acked, now);
    MoreSent(l, c + 1);
    SendData(l.data, l.cpdus, l.segs, l.got, c + 1, l.tx.segments[0]);
  }

  lemma FirstTx(tx: Tx, cpdus: seq<bytes>, segs: seq<Seg>, got: seq<nat>, acked: int, now: int)
    requires TxOk(tx, cpdus, segs, got, acked) && tx.waiting == None && tx.segments != []
    ensures TxOk(tx.(waiting := Some(Waiting(tx.segments[0], now, 0)), segments := tx.segments[1..]),
                 cpdus, segs, got, acked)
  {
    FirstFrames(tx, cpdus, segs, now);
  }

  lemma FirstFrames(tx: Tx, cpdus: seq<bytes>, segs: seq<Seg>, now: int)
    requires FramesOk(tx, cpdus, segs) && tx.waiting == None && tx.segments != []
    ensures var tx1 := tx.(waiting := Some(Waiting(tx.segments[0], now, 0)), segments := tx.segments[1..]);
      FramesOk(tx1, cpdus, segs) && CurrentOf(tx1, segs) == CurrentOf(tx, segs)
  {
    var tx1 := tx.(waiting := Some(Waiting(tx.segments[0], now, 0)), segments := tx.segments[1..]);
    assert IsFrame(cpdus, segs, |segs| - |tx.segments| + 0, tx.segments[0]);
    forall i | 0 <= i < |tx1.segments| ensures IsFrame(cpdus, segs, |segs| - |tx1.segments| + i, tx1.segments[i]) {
      assert IsFrame(cpdus, segs, |segs| - |tx.segments| + (i + 1), tx.segments[i + 1]);
    }
  }

  /** The state between taking a C_PDU from the queue and sending its first segment. */
  ghost function CutLink(l: Link): Link
    requires 0 <= |l.cpdus| - |l.tx.queue|
  {
    if l.tx.waiting == None && l.tx.segments == [] && l.tx.queue != [] then
      l.(tx := Segmented(l.tx), segs := l.segs + Cut(l))
    else l
  }

  lemma CutInv(l: Link)
    requires LinkInv(l)
    ensures LinkInv(CutLink(l))
  {
    if l.tx.waiting == None && l.tx.segments == [] && l.tx.queue != [] {
      NextQueued(l);
      CutTx(l.tx, l.cpdus, l.segs, l.got, l.acked);
      CutOthers(l);
      hide LinkInv, TxOk, GotOk, DataOk, RxOk, DoneOk, SegsOk, SegsOf, Segments;
      WithCut(l, Segmented(l.tx), l.segs + SegsOf(l.tx.queue[0], |l.cpdus| - |l.tx.queue|));
    }
  }

  lemma WithCut(l: Link, tx: Tx, segs: seq<Seg>)
    requires LinkInv(l) && TxOk(tx, l.cpdus, segs, l.got, l.acked) && SentOf(tx, segs) == SentOf(l.tx, l.segs)
    requires GotOk(segs, l.got, SentOf(tx, segs)) && DataOk(l.data, l.cpdus, segs, l.got, SentOf(tx, segs))
    requires RxOk(l.rx, l.cpdus, segs, l.got) && DoneOk(l.rx.delivered, l.cpdus, segs, l.got, l.done)
    ensures LinkInv(l.(tx := tx, segs := segs))
  {
    hide TxOk, GotOk, DataOk, AcksOk, RxOk, DoneOk;
  }

  /** The new segments change nothing for the rest of the system. */
  lemma CutOthers(l: Link)
    requires LinkInv(l) && l.tx.queue != []
    ensures var sent, segs := SentOf(l.tx, l.segs), l.segs + SegsOf(l.tx.queue[0], |l.cpdus| - |l.tx.queue|);
      && GotOk(segs, l.got, sent) && DataOk(l.data, l.cpdus, segs, l.got, sent)
      && RxOk(l.rx, l.cpdus, segs, l.got) && DoneOk(l.rx.delivered, l.cpdus, segs, l.got, l.done)
  {
    hide TxOk;
    var taken := |l.cpdus| - |l.tx.queue|;
    NextQueued(l);
    CutSegs(l.cpdus, l.segs, taken);
    hide TxOk, GotOk, DataOk, AcksOk, RxOk, DoneOk, IsFrame;
    CutRest(l, SegsOf(l.tx.queue[0], taken));
  }

  lemma NextQueued(l: Link)
    requires LinkInv(l) && l.tx.queue != []
    ensures var taken := |l.cpdus| - |l.tx.queue|;
      0 <= taken && l.tx.queue[0] == l.cpdus[taken] && SegsOk(l.cpdus, l.segs, taken)
  {
    assert l.tx.queue[0] == l.cpdus[|l.cpdus| - |l.tx.queue| + 0];
  }

  lemma RoundInv(l: Link, now: int, cfg: Config)
    requires LinkInv(l) && Enabled(l, Round(now), cfg)
    ensures LinkInv(Rounded(l, now, cfg))
  {
    if l.tx.waiting.Some? {
      if OnRound(l.tx, now, cfg).frame.Some? { ResendInv(l, now, cfg); } else { GiveUpInv(l, now, cfg); }
    } else {
      CutInv(l);
      FreshIs(l, now, cfg);
      if CutLink(l).tx.segments != [] { FirstInv(CutLink(l), now); }
    }
  }

  /** A round in which nothing is in flight: cut the next C_PDU if need be, and send the first waiting segment. */
  lemma FreshIs(l: Link, now: int, cfg: Config)
    requires 0 <= |l.cpdus| - |l.tx.queue| && l.tx.waiting == None && 0 <= CurrentOf(CutLink(l).tx, CutLink(l).segs)
    ensures var l1 := CutLink(l);
      Rounded(l, now, cfg) ==
        if l1.tx.segments == [] then l1
        else l1.(tx := l1.tx.(waiting := Some(Waiting(l1.tx.segments[0], now, 0)), segments := l1.tx.segments[1..]),
                 data := l1.data + [DataIn(l1.tx.segments[0], CurrentOf(l1.tx, l1.segs))])
  {
    assert l.segs + [] == l.segs;
  }

  // ---- Reception ----------------------------------------------------------

  lemma PrefixMore(segs: seq<Seg>, got: seq<nat>, k: int, g: nat)
    requires Prefix(segs, got, k)
    ensures Prefix(segs, got + [g], k)
  {
  }

  /** A segment not received before: what the receiver makes of it. */
  lemma NewSegment(rx: Rx, cpdus: seq<bytes>, segs: seq<Seg>, got: seq<nat>, taken: int, k: nat, f: Frame, sent: int)
    requires SegsOk(cpdus, segs, taken) && GotOk(segs, got, sent) && RxOk(rx, cpdus, segs, got)
    requires IsFrame(cpdus, segs, k, f) && Prefix(segs, got, k) && LastOf(got) < k
    ensures var rx1, s := OnData(rx, f), segs[k];
      && RxOk(rx1, cpdus, segs, got + [k])
      && rx1.delivered == rx.delivered + if s.index + 1 == s.count then [cpdus[s.cpdu]] else []
  {
    var s := segs[k];
    var cs := Chunks(cpdus[s.cpdu], MAX_DATA);
    assert (got + [k])[|got|] == k;
    if s.index > 0 {
      PreviousIsLast(cpdus, segs, got, k, sent);
      assert Numbered(cpdus, segs, k);
      assert segs[k - s.index + (s.index - 1)] == Seg(s.cpdu, s.index - 1, s.count);
      assert rx.parts == cs[..s.index] && rx.parts != [];
      assert cs[..s.index] + [cs[s.index]] == cs[..s.index + 1];
    } else {
      assert [] + [cs[0]] == cs[..1];
    }
    if s.index + 1 == s.count {
      assert cs[..s.index + 1] == cs;
      ChunksPartition(cpdus[s.cpdu], MAX_DATA);
    } else {
      assert rx.delivered + [] == rx.delivered;
    }
  }

  /** A segment inside a C_PDU follows directly on the last one received. */
  lemma PreviousIsLast(cpdus: seq<bytes>, segs: seq<Seg>, got: seq<nat>, k: nat, sent: int)
    requires GotOk(segs, got, sent) && k < |segs| && segs[k].index > 0 && Prefix(segs, got, k) && LastOf(got) < k
    ensures got != [] && LastOf(got) == k - 1
  {
    assert k - 1 in got;
    LastIsLargest(got, k - 1);
  }

  lemma LastIsLargest(got: seq<nat>, j: nat)
    requires forall i, k :: 0 <= i < k < |got| ==> got[i] < got[k]
    requires j in got
    ensures j <= LastOf(got)
  {
  }

  lemma NewCount(delivered: seq<bytes>, cpdus: seq<bytes>, s: Seg)
    requires s.cpdu < |cpdus|
    ensures |delivered + if s.index + 1 == s.count then [cpdus[s.cpdu]] else []| > |delivered| <==>
        s.index + 1 == s.count
    ensures s.index + 1 != s.count ==> delivered + [] == delivered
  {
  }

  lemma NewGot(segs: seq<Seg>, got: seq<nat>, k: nat, sent: int)
    requires GotOk(segs, got, sent) && Prefix(segs, got, k) && LastOf(got) < k < sent
    ensures GotOk(segs, got + [k], sent)
  {
    var more := got + [k];
    forall j | j in more ensures Prefix(segs, more, j) {
      PrefixMore(segs, got, j, k);
    }
    forall i | 0 <= i < |got| ensures got[i] < k {
      LastIsLargest(got, got[i]);
    }
  }

  lemma NewDone(delivered: seq<bytes>, cpdus: seq<bytes>, segs: seq<Seg>, got: seq<nat>, done: seq<nat>, taken: int,
      k: nat, sent: int)
    requires SegsOk(cpdus, segs, taken) && GotOk(segs, got, sent) && DoneOk(delivered, cpdus, segs, got, done)
    requires k < |segs| && LastOf(got) < k && segs[k].cpdu < |cpdus|
    ensures var s := segs[k];
      if s.index + 1 == s.count then DoneOk(delivered + [cpdus[s.cpdu]], cpdus, segs, got + [k], done + [s.cpdu])
      else DoneOk(delivered, cpdus, segs, got + [k], done)
  {
    var s := segs[k];
    forall c ensures EndReceived(segs, got + [k], c) <==>
        EndReceived(segs, got, c) || (s.index + 1 == s.count && s.cpdu == c) {
      EndsMore(segs, got, k, c);
    }
    forall c | c in done ensures c < s.cpdu || s.index + 1 < s.count {
      var j :| j in got && IsEndOf(segs, j, c);
      LastIsLargest(got, j);
    }
    if s.index + 1 == s.count {
      var more := done + [s.cpdu];
      forall i | 0 <= i < |done| ensures done[i] < s.cpdu {
        assert done[i] in done;
      }
    }
  }

  lemma EndsMore(segs: seq<Seg>, got: seq<nat>, k: nat, c: nat)
    requires k < |segs|
    ensures EndReceived(segs, got + [k], c) <==> EndReceived(segs, got, c) || IsEndOf(segs, k, c)
  {
    var more := got + [k];
    if EndReceived(segs, more, c) {
      var j :| j in more && IsEndOf(segs, j, c);
      assert j in got || j == k;
    }
    if EndReceived(segs, got, c) {
      var j :| j in got && IsEndOf(segs, j, c);
      assert j in more;
    }
    assert k in more;
  }

  lemma NewData(data: seq<DataIn>, cpdus: seq<bytes>, segs: seq<Seg>, got: seq<nat>, sent: int)
    requires DataOk(data, cpdus, segs, got, sent) && data != []
    ensures DataOk(data[1..], cpdus, segs, got + [data[0].stamp], sent)
    ensures DataOk(data[1..], cpdus, segs, got, sent)
  {
    var k := data[0].stamp;
    forall i | 0 <= i < |data| - 1 ensures Prefix(segs, got + [k], data[1..][i].stamp) {
      PrefixMore(segs, got, data[i + 1].stamp, k);
    }
  }

  lemma NewAcks(acks: seq<AckIn>, pending: Option<AckIn>, got: seq<nat>, acked: int, k: nat)
    requires AcksOk(acks, pending, got, acked) && LastOf(got) <= k
    ensures LastOf(got) < k ==> AcksOk(acks, Some(AckIn((k % FSN_MOD + 1) % FSN_MOD, k)), got + [k], acked)
    ensures LastOf(got) == k ==> AcksOk(acks, Some(AckIn((k % FSN_MOD + 1) % FSN_MOD, k)), got, acked)
  {
    assert (k % FSN_MOD + 1) % FSN_MOD == (k + 1) % FSN_MOD;
    forall i | 0 <= i < |acks| && LastOf(got) < k ensures AckOk(acks[i], got + [k], acked) {
      assert AckOk(acks[i], got, acked);
    }
  }

  lemma NewTx(tx: Tx, cpdus: seq<bytes>, segs: seq<Seg>, got: seq<nat>, acked: int, k: nat)
    requires TxOk(tx, cpdus, segs, got, acked)
    ensures TxOk(tx, cpdus, segs, got + [k], acked)
  {
    var c := CurrentOf(tx, segs);
    if c < |segs| { PrefixMore(segs, got, c, k); }
  }

  /** Receiving the first or the last segment of a longer C_PDU again changes nothing. */
  lemma RepeatedSegment(rx: Rx, cpdus: seq<bytes>, segs: seq<Seg>, got: seq<nat>, f: Frame)
    requires RxOk(rx, cpdus, segs, got) && got != [] && IsFrame(cpdus, segs, LastOf(got), f) && AtOneEnd(f)
    ensures OnData(rx, f) == rx
  {
    var s := segs[LastOf(got)];
    var cs := Chunks(cpdus[s.cpdu], MAX_DATA);
    assert [] + [cs[s.index]] == [cs[s.index]];
    if s.index == 0 { assert cs[..1] == [cs[0]]; }
  }

  /** What is known of the D_PDU that comes next. */
  lemma FirstData(l: Link)
    requires LinkInv(l) && l.data != []
    ensures var k := l.data[0].stamp;
      && SegsOk(l.cpdus, l.segs, |l.cpdus| - |l.tx.queue|) && LastOf(l.got) <= k < SentOf(l.tx, l.segs) <= |l.segs|
      && IsFrame(l.cpdus, l.segs, k, l.data[0].frame) && Prefix(l.segs, l.got, k) && l.segs[k].cpdu < |l.cpdus|
      && l.data[0].frame.seqNo == k % FSN_MOD
  {
  }

  /** What the receiver holds and has delivered after a segment that was not received before. */
  lemma NewHeld(l: Link)
    requires LinkInv(l) && l.data != [] && LastGot(l) < l.data[0].stamp < |l.segs|
    ensures var d := l.data[0];
      var s, rx1 := l.segs[d.stamp], OnData(l.rx, d.frame);
      && RxOk(rx1, l.cpdus, l.segs, l.got + [d.stamp])
        && (|rx1.delivered| > |l.rx.delivered| <==> s.index + 1 == s.count)
      && DoneOk(rx1.delivered, l.cpdus, l.segs, l.got + [d.stamp],
                if s.index + 1 == s.count then l.done + [s.cpdu] else l.done)
  {
    hide TxOk, GotOk, DataOk, AcksOk, RxOk, DoneOk, SegsOk, IsFrame, Prefix, OnData;
    FirstData(l);
    var d, sent, taken := l.data[0], SentOf(l.tx, l.segs), |l.cpdus| - |l.tx.queue|;
    NewSegment(l.rx, l.cpdus, l.segs, l.got, taken, d.stamp, d.frame, sent);
    NewDone(l.rx.delivered, l.cpdus, l.segs, l.got, l.done, taken, d.stamp, sent);
    NewCount(l.rx.delivered, l.cpdus, l.segs[d.stamp]);
  }

  /** What the system records when a segment comes that was not received before. */
  lemma NewIs(l: Link)
    requires LinkInv(l) && l.data != [] && LastGot(l) < l.data[0].stamp < |l.segs|
    ensures var d := l.data[0];
      var s, rx1 := l.segs[d.stamp], OnData(l.rx, d.frame);
      Taken(l) == l.(rx := rx1, data := l.data[1..], got := l.got + [d.stamp],
        pendingAck := Some(AckIn((d.stamp % FSN_MOD + 1) % FSN_MOD, d.stamp)),
        done := if s.index + 1 == s.count then l.done + [s.cpdu] else l.done)
  {
    hide LinkInv, RxOk, DoneOk, SegsOk, IsFrame, Prefix, OnData;
    FirstData(l);
    NewHeld(l);
  }

  lemma ReceiveNew(l: Link)
    requires LinkInv(l) && l.data != [] && LastGot(l) < l.data[0].stamp
    ensures LinkInv(Taken(l))
  {
    hide Taken, TxOk, GotOk, DataOk, AcksOk, RxOk, DoneOk, SegsOk, IsFrame, Prefix, OnData;
    var d, sent := l.data[0], SentOf(l.tx, l.segs);
    FirstData(l);
    NewHeld(l);
    NewIs(l);
    NewData(l.data, l.cpdus, l.segs, l.got, sent);
    NewAcks(l.acks, l.pendingAck, l.got, l.acked, d.stamp);
    NewGot(l.segs, l.got, d.stamp, sent);
    NewTx(l.tx, l.cpdus, l.segs, l.got, l.acked, d.stamp);
    Assemble(Taken(l));
  }

  lemma Assemble(l: Link)
    requires TxOk(l.tx, l.cpdus, l.segs, l.got, l.acked) && GotOk(l.segs, l.got, SentOf(l.tx, l.segs))
    requires DataOk(l.data, l.cpdus, l.segs, l.got, SentOf(l.tx, l.segs))
        && AcksOk(l.acks, l.pendingAck, l.got, l.acked)
    requires RxOk(l.rx, l.cpdus, l.segs, l.got) && DoneOk(l.rx.delivered, l.cpdus, l.segs, l.got, l.done)
    ensures LinkInv(l)
  {
    hide TxOk, GotOk, DataOk, AcksOk, RxOk, DoneOk;
  }

  lemma ReceiveAgain(l: Link)
    requires LinkInv(l) && l.data != [] && LastGot(l) == l.data[0].stamp && AtOneEnd(l.data[0].frame)
    ensures LinkInv(Taken(l))
  {
    hide TxOk, GotOk, DataOk, AcksOk, RxOk, DoneOk, SegsOk, Prefix, OnData;
    var d, sent := l.data[0], SentOf(l.tx, l.segs);
    FirstData(l);
    RepeatedSegment(l.rx, l.cpdus, l.segs, l.got, d.frame);
    NewData(l.data, l.cpdus, l.segs, l.got, sent);
    NewAcks(l.acks, l.pendingAck, l.got, l.acked, d.stamp);
  }

  lemma ReceiveDataInv(l: Link, cfg: Config)
    requires LinkInv(l) && Enabled(l, ReceiveData, cfg)
    ensures LinkInv(Taken(l))
  {
    if LastGot(l) < l.data[0].stamp { ReceiveNew(l); } else { ReceiveAgain(l); }
  }

  // ---- Main results -------------------------------------------------------

  lemma StepKeepsInv(l: Link, step: Step, cfg: Config)
    requires LinkInv(l) && Enabled(l, step, cfg)
    ensures LinkInv(Next(l, step, cfg))
  {
    hide TxOk, GotOk, DataOk, AcksOk, RxOk, DoneOk, Rounded, Taken, Heard;
    match step
    case Submit(p) => SubmitInv(l, p, cfg);
    case Round(now) => RoundInv(l, now, cfg);
    case Acknowledge => SendAck(l.acks, l.pendingAck.value, l.got, l.acked);
    case ReceiveData => ReceiveDataInv(l, cfg);
    case LoseData(i) => DropData(l.data, i, l.cpdus, l.segs, l.got, SentOf(l.tx, l.segs));
    case ReceiveAck => ReceiveAckInv(l);
    case LoseAck(i) => DropAck(l.acks, i, l.pendingAck, l.got, l.acked);
  }

  lemma {:induction false} RunKeepsInv(steps: seq<Step>, cfg: Config)
    requires After(steps, cfg).Some?
    ensures LinkInv(After(steps, cfg).value)
    decreases |steps|
  {
    if steps == [] {
      InitInv();
    } else {
      var n := |steps| - 1;
      RunKeepsInv(steps[..n], cfg);
      StepKeepsInv(After(steps[..n], cfg).value, steps[n], cfg);
    }
  }

  lemma InitInv()
    ensures LinkInv(Init())
  {
    InitTx();
    InitRest();
  }

  lemma InitTx()
    ensures TxOk(FRESH_TX, [], [], [], -1)
  {
    assert FramesOk(FRESH_TX, [], []);
    assert SegsOk([], [], 0);
  }

  lemma InitRest()
    ensures GotOk([], [], 0) && DataOk([], [], [], [], 0) && AcksOk([], None, [], -1)
    ensures RxOk(FRESH_RX, [], [], []) && DoneOk([], [], [], [], [])
  {
    forall c ensures !EndReceived([], [], c) {
    }
  }

  /** The segment in flight carries the current numbers, and those behind it the next ones under the same id. */
  ghost predicate NumbersAgree(tx: Tx) {
    && (tx.waiting.Some? ==> tx.waiting.value.frame.seqNo == tx.frameSeq && tx.waiting.value.frame.cpduId == tx.cpduId)
    && (forall i :: 0 <= i < |tx.segments| ==>
          && tx.segments[i].seqNo == (tx.frameSeq + i + if tx.waiting.Some? then 1 else 0) % FSN_MOD
          && tx.segments[i].cpduId == tx.cpduId)
  }

  /**
    * In every reachable state the numbers of the sender are those of the segment in flight and those behind it, and its
    * frame number is the count of all segments that were acknowledged or passed over, so that a give-up skips exactly
    * the numbers of the segments it abandons.
    */
  lemma NumbersInStep(steps: seq<Step>, cfg: Config)
    requires After(steps, cfg).Some?
    ensures var l := After(steps, cfg).value;
      NumbersAgree(l.tx) && 0 <= Current(l) && l.tx.frameSeq == Current(l) % 256
  {
    RunKeepsInv(steps, cfg);
    var l := After(steps, cfg).value;
    NumbersHold(l.tx, l.cpdus, l.segs, l.got, l.acked);
  }

  lemma NumbersHold(tx: Tx, cpdus: seq<bytes>, segs: seq<Seg>, got: seq<nat>, acked: int)
    requires TxOk(tx, cpdus, segs, got, acked)
    ensures NumbersAgree(tx)
  {
    if tx.waiting.Some? { NumberInFlight(tx, cpdus, segs, got, acked); }
    forall i | 0 <= i < |tx.segments|
      ensures tx.segments[i].seqNo == (tx.frameSeq + i + if tx.waiting.Some? then 1 else 0) % FSN_MOD
      ensures tx.segments[i].cpduId == tx.cpduId
    {
      NumberBehind(tx, cpdus, segs, got, acked, i);
    }
  }

  lemma NumberInFlight(tx: Tx, cpdus: seq<bytes>, segs: seq<Seg>, got: seq<nat>, acked: int)
    requires TxOk(tx, cpdus, segs, got, acked) && tx.waiting.Some?
    ensures tx.waiting.value.frame.seqNo == tx.frameSeq && tx.waiting.value.frame.cpduId == tx.cpduId
  {
  }

  lemma NumberBehind(tx: Tx, cpdus: seq<bytes>, segs: seq<Seg>, got: seq<nat>, acked: int, i: nat)
    requires TxOk(tx, cpdus, segs, got, acked) && i < |tx.segments|
    ensures tx.segments[i].seqNo == (tx.frameSeq + i + if tx.waiting.Some? then 1 else 0) % FSN_MOD
    ensures tx.segments[i].cpduId == tx.cpduId
  {
    var c, w, taken := CurrentOf(tx, segs), if tx.waiting.Some? then 1 else 0, |cpdus| - |tx.queue|;
    assert IsFrame(cpdus, segs, c + w + i, tx.segments[i]);
    ModAdd(c, i + w, FSN_MOD);
    LastTaken(cpdus, segs, taken, c, c + w + i);
  }

  lemma LastTaken(cpdus: seq<bytes>, segs: seq<Seg>, taken: int, c: nat, k: nat)
    requires SegsOk(cpdus, segs, taken) && c <= k < |segs| && segs[c].cpdu == taken - 1
    ensures segs[k].cpdu == taken - 1
  {
  }

  /** Every segment of C_PDU `c` has been received. */
  ghost predicate AllReceived(segs: seq<Seg>, got: seq<nat>, c: nat) {
    && (exists k :: 0 <= k < |segs| && segs[k].cpdu == c)
    && (forall k :: 0 <= k < |segs| && segs[k].cpdu == c ==> k in got)
  }

  /**
    * The deliveries are, in order and without repetition, exactly the C_PDUs all of whose segments arrived, whatever
    * was lost, abandoned or sent again.
    */
  lemma DeliveredExactly(steps: seq<Step>, cfg: Config)
    requires After(steps, cfg).Some?
    ensures var l := After(steps, cfg).value;
      && |l.rx.delivered| == |l.done|
      && (forall i :: 0 <= i < |l.done| ==> l.done[i] < |l.cpdus| && l.rx.delivered[i] == l.cpdus[l.done[i]])
      && (forall i, j :: 0 <= i < j < |l.done| ==> l.done[i] < l.done[j])
      && (forall c :: c in l.done <==> AllReceived(l.segs, l.got, c))
  {
    RunKeepsInv(steps, cfg);
    var l := After(steps, cfg).value;
    forall c ensures c in l.done <==> AllReceived(l.segs, l.got, c) {
      DoneIffAll(l.cpdus, l.segs, |l.cpdus| - |l.tx.queue|, l.got, SentOf(l.tx, l.segs), c);
    }
  }

  lemma DoneIffAll(cpdus: seq<bytes>, segs: seq<Seg>, taken: int, got: seq<nat>, sent: int, c: nat)
    requires SegsOk(cpdus, segs, taken) && GotOk(segs, got, sent)
    ensures EndReceived(segs, got, c) <==> AllReceived(segs, got, c)
  {
    if EndReceived(segs, got, c) {
      var e :| e in got && IsEndOf(segs, e, c);
      assert Prefix(segs, got, e);
      forall k | 0 <= k < |segs| && segs[k].cpdu == c ensures k in got {
        InsideCpdu(cpdus, segs, taken, e, k);
      }
    }
    if AllReceived(segs, got, c) {
      var k :| 0 <= k < |segs| && segs[k].cpdu == c;
      var e := EndOf(cpdus, segs, taken, k);
      assert IsEndOf(segs, e, c);
    }
  }

  lemma EndOf(cpdus: seq<bytes>, segs: seq<Seg>, taken: int, k: nat) returns (e: nat)
    requires SegsOk(cpdus, segs, taken) && k < |segs|
    ensures IsEndOf(segs, e, segs[k].cpdu) && k <= e && e - segs[e].index <= k
  {
    var s := segs[k];
    assert Numbered(cpdus, segs, k);
    e := k - s.index + (s.count - 1);
    assert segs[k - s.index + (s.count - 1)] == Seg(s.cpdu, s.count - 1, s.count);
  }

  /** The segments of a C_PDU lie between its first and its last. */
  lemma InsideCpdu(cpdus: seq<bytes>, segs: seq<Seg>, taken: int, e: nat, k: nat)
    requires SegsOk(cpdus, segs, taken) && k < |segs| && IsEndOf(segs, e, segs[k].cpdu)
    ensures e - segs[e].index <= k <= e
  {
    var f := EndOf(cpdus, segs, taken, k);
    assert f == e;
  }

  // ---- What a lost acknowledgement can do ---------------------------------

  /** Without the restriction on repeated segments a C_PDU of one segment is delivered twice. */
  lemma RepeatedDelivery()
    ensures var cfg := Expedited.Config(3000, 5);
      var sent := OnRound(OnSubmit(FRESH_TX, [7]), 0, cfg);
      var again := OnRound(sent.tx, 3000, cfg);
      sent.frame.Some? && again.frame.Some?
      && OnData(OnData(FRESH_RX, sent.frame.value), again.frame.value).delivered == [[7], [7]]
  {
    var cfg := Expedited.Config(3000, 5);
    assert [] + [[7]] == [[7]];
    assert Chunks([7], MAX_DATA) == [[7]];
    assert Join([[7]]) == [7] + Join([[7]][1..]) == [7];
  }
}

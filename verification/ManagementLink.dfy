/** Two management engines joined by lossy FIFO channels: what reaches the callback, over every run. */
module ManagementLink {
  import opened Prelude
  import opened Management

  /** A D_PDU on the air with the index of its message, a history variable that no engine reads. */
  datatype InFlight = InFlight(frame: MgmtFrame, stamp: nat)

  /**
   * The system and its history: `msgs` lists every message sent, `got` the indices handed to the callback,
   * `acked` the indices whose pending slot an acknowledgement cleared.
   */
  datatype Link = Link(tx: Tx, rx: Rx, data: seq<InFlight>, acks: seq<InFlight>,
                       msgs: seq<Msg>, got: seq<nat>, acked: seq<nat>)

  function Init(): Link {
    Link(FRESH_TX, FRESH_RX, [], [], [], [], [])
  }

  datatype Step = Send(m: Msg) | Tick(now: int) | ReceiveData | LoseData(i: nat) | ReceiveAck | LoseAck(i: nat)

  /** Number of messages taken from the queue so far. */
  function Popped(l: Link): int {
    |l.msgs| - |l.tx.queue|
  }

  /** Index of the last message cleared by an acknowledgement, or -1. */
  function LastAcked(l: Link): int {
    if l.acked == [] then -1 else l.acked[|l.acked| - 1]
  }

  /** How many messages in a row have been abandoned since one was last acknowledged. */
  function Abandoned(l: Link): int {
    Popped(l) - 1 - LastAcked(l) - if l.tx.pending.Some? then 1 else 0
  }

  function Stamped(frames: seq<MgmtFrame>, stamp: nat): seq<InFlight> {
    seq(|frames|, i requires 0 <= i < |frames| => InFlight(frames[i], stamp))
  }

  /** `bound` is the largest number of messages that may be abandoned in a row. */
  predicate Enabled(l: Link, step: Step, cfg: Config, bound: nat) {
    match step
    case Send(_) => true
    case Tick(now) => Popped(l) >= 0 && Abandoned(Ticked(l, now, cfg)) <= bound
    case ReceiveData => l.data != [] && l.data[0].frame.Message?
    case LoseData(i) => i < |l.data|
    case ReceiveAck => l.acks != [] && Popped(l) > 0
    case LoseAck(i) => i < |l.acks|
  }

  function Ticked(l: Link, now: int, cfg: Config): Link
    requires Popped(l) >= 0
  {
    var out := OnTick(l.tx, now, cfg);
    var l1 := l.(tx := out.tx);
    if out.frames == [] then l1 else if Popped(l1) == 0 then l1
    else l1.(data := l.data + Stamped(out.frames, Popped(l1) - 1))
  }

  function Next(l: Link, step: Step, cfg: Config): Link
    requires match step
             case Tick(_) => Popped(l) >= 0
             case ReceiveData => l.data != [] && l.data[0].frame.Message?
             case LoseData(i) => i < |l.data|
             case ReceiveAck => l.acks != [] && Popped(l) > 0
             case LoseAck(i) => i < |l.acks|
             case _ => true
  {
    match step
    case Send(m) => l.(tx := OnSend(l.tx, m), msgs := l.msgs + [m])
    case Tick(now) => Ticked(l, now, cfg)
    case ReceiveData =>
      var d := l.data[0];
      var rx := OnMessage(l.rx, d.frame);
      l.(rx := rx, data := l.data[1..], acks := l.acks + [InFlight(Ack(d.frame.id), d.stamp)],
         got := if |rx.handed| > |l.rx.handed| then l.got + [d.stamp] else l.got)
    case LoseData(i) => l.(data := l.data[..i] + l.data[i + 1..])
    case ReceiveAck =>
      var tx := OnAck(l.tx, l.acks[0].frame.id);
      l.(tx := tx, acks := l.acks[1..],
         acked := if l.tx.pending.Some? && tx.pending == None then l.acked + [Popped(l) - 1] else l.acked)
    case LoseAck(i) => l.(acks := l.acks[..i] + l.acks[i + 1..])
  }

  /** The state after a run in which at most `bound` messages in a row are abandoned. */
  function After(steps: seq<Step>, cfg: Config, bound: nat): Option<Link> {
    if steps == [] then Some(Init())
    else
      var n := |steps| - 1;
      match After(steps[..n], cfg, bound)
      case None => None
      case Some(l) => if Enabled(l, steps[n], cfg, bound) then Some(Next(l, steps[n], cfg)) else None
  }

  // ---- Invariant ----------------------------------------------------------

  /** The callback list is the list of the messages at the indices `got`, which strictly increase. */
  ghost predicate HandedOver(l: Link) {
    && |l.rx.handed| == |l.got|
    && (forall i :: 0 <= i < |l.got| ==>
          l.got[i] < Popped(l) && l.rx.handed[i] == WireOf(l.msgs[l.got[i]], l.got[i] % ID_MOD))
    && (forall i, j :: 0 <= i < j < |l.got| ==> l.got[i] < l.got[j])
    && l.rx.lastId == if l.got == [] then None else Some(l.got[|l.got| - 1] % ID_MOD)
  }

  /** Index of the last message handed over, or -1. */
  function LastGot(l: Link): int {
    if l.got == [] then -1 else l.got[|l.got| - 1]
  }

  ghost predicate DataOk(l: Link) {
    && (forall i :: 0 <= i < |l.data| ==>
          && LastGot(l) <= l.data[i].stamp < Popped(l)
          && l.data[i].frame == WireOf(l.msgs[l.data[i].stamp], l.data[i].stamp % ID_MOD))
    && (forall i, j :: 0 <= i < j < |l.data| ==> l.data[i].stamp <= l.data[j].stamp)
  }

  ghost predicate AcksOk(l: Link) {
    && (forall i :: 0 <= i < |l.acks| ==>
          && LastAcked(l) <= l.acks[i].stamp <= LastGot(l)
          && l.acks[i].stamp in l.got
          && l.acks[i].frame == Ack(l.acks[i].stamp % ID_MOD))
    && (forall i, j :: 0 <= i < j < |l.acks| ==> l.acks[i].stamp <= l.acks[j].stamp)
  }

  /** The queue and the pending slot hold the messages after those already taken, under their own ids. */
  ghost predicate TxOk(l: Link, bound: nat) {
    && 0 <= Popped(l) <= |l.msgs|
    && l.tx.nextId == |l.msgs| % ID_MOD
    && (forall i :: 0 <= i < |l.tx.queue| ==>
          l.tx.queue[i] == Queued(l.msgs[Popped(l) + i], (Popped(l) + i) % ID_MOD))
    && (l.tx.pending.Some? ==>
          Popped(l) > 0 && l.tx.pending.value.frame == WireOf(l.msgs[Popped(l) - 1], (Popped(l) - 1) % ID_MOD))
    && LastAcked(l) < Popped(l) - (if l.tx.pending.Some? then 1 else 0)
    && Abandoned(l) <= bound
  }

  /** Only messages that were handed over have been acknowledged. */
  ghost predicate AckedOk(l: Link) {
    && LastAcked(l) <= LastGot(l)
    && forall i :: 0 <= i < |l.acked| ==> l.acked[i] in l.got
  }

  ghost predicate LinkInv(l: Link, bound: nat) {
    TxOk(l, bound) && AckedOk(l) && HandedOver(l) && DataOk(l) && AcksOk(l)
  }

  lemma SendInv(l: Link, m: Msg, cfg: Config, bound: nat)
    requires LinkInv(l, bound)
    ensures LinkInv(Next(l, Send(m), cfg), bound)
  {
    SendTx(l, m, bound);
  }

  /** The new message waits behind the others, under the next id. */
  lemma SendTx(l: Link, m: Msg, bound: nat)
    requires TxOk(l, bound)
    ensures TxOk(l.(tx := OnSend(l.tx, m), msgs := l.msgs + [m]), bound)
  {
    hide WireOf;
    var n := |l.msgs|;
    assert (n + 1) % ID_MOD == (n % ID_MOD + 1) % ID_MOD;
  }

  lemma TickTx(l: Link, now: int, cfg: Config, bound: nat)
    requires TxOk(l, bound) && Enabled(l, Tick(now), cfg, bound)
    ensures var l1 := Ticked(l, now, cfg);
      && TxOk(l1, bound) && Popped(l) <= Popped(l1)
      && (forall f :: f in OnTick(l.tx, now, cfg).frames ==> l1.tx.pending.Some? && f == l1.tx.pending.value.frame)
  {
    hide Stamped, WireOf;
    var l1 := Ticked(l, now, cfg);
    if l.tx.pending == None && l.tx.queue != [] {
      assert Popped(l1) == Popped(l) + 1;
      assert l.tx.queue[0] == Queued(l.msgs[Popped(l)], Popped(l) % ID_MOD);
      forall i | 0 <= i < |l1.tx.queue|
        ensures l1.tx.queue[i] == Queued(l1.msgs[Popped(l1) + i], (Popped(l1) + i) % ID_MOD)
      {
        assert l1.tx.queue[i] == l.tx.queue[i + 1];
      }
    }
  }

  /** The pending message is the last one taken from the queue. */
  lemma PendingIs(l: Link, bound: nat)
    requires TxOk(l, bound)
    ensures 0 <= Popped(l) <= |l.msgs|
    ensures l.tx.pending.Some? ==>
      && Popped(l) > 0 && l.tx.pending.value.frame.id == (Popped(l) - 1) % ID_MOD
      && l.tx.pending.value.frame == WireOf(l.msgs[Popped(l) - 1], (Popped(l) - 1) % ID_MOD)
  {
  }

  lemma TickInv(l: Link, now: int, cfg: Config, bound: nat)
    requires LinkInv(l, bound) && Enabled(l, Tick(now), cfg, bound)
    ensures LinkInv(Ticked(l, now, cfg), bound)
  {
    hide OnTick, WireOf, TxOk;
    var out := OnTick(l.tx, now, cfg);
    var l1 := Ticked(l, now, cfg);
    TickTx(l, now, cfg, bound);
    PendingIs(l, bound);
    PendingIs(l1, bound);
    if out.frames != [] {
      assert out.frames[0] in out.frames;
      var more := Stamped(out.frames, Popped(l1) - 1);
      forall i | 0 <= i < |more| ensures more[i] == InFlight(l1.tx.pending.value.frame, Popped(l1) - 1) {
        assert out.frames[i] in out.frames;
      }
      SentData(l, l1, more);
    }
  }

  /** Frames of the pending message go behind everything in flight. */
  lemma SentData(l: Link, l1: Link, more: seq<InFlight>)
    requires DataOk(l) && HandedOver(l) && 0 <= Popped(l) <= Popped(l1) <= |l1.msgs| && l1.msgs == l.msgs
    requires l1.got == l.got && l1.data == l.data + more && l1.tx.pending.Some? && Popped(l1) > 0
    requires l1.tx.pending.value.frame == WireOf(l1.msgs[Popped(l1) - 1], (Popped(l1) - 1) % ID_MOD)
    requires forall i :: 0 <= i < |more| ==> more[i] == InFlight(l1.tx.pending.value.frame, Popped(l1) - 1)
    ensures DataOk(l1)
  {
  }

  /** Any message in flight is recent enough to have an id of its own. */
  lemma FreshId(l: Link, bound: nat)
    requires TxOk(l, bound) && AckedOk(l) && DataOk(l) && bound < 255 && l.data != []
    requires HandedOver(l)
    ensures l.rx.lastId == Some(l.data[0].frame.id) <==> LastGot(l) == l.data[0].stamp
  {
    var s := l.data[0].stamp;
    if l.got != [] && s % ID_MOD == LastGot(l) % ID_MOD {
      SameId(LastGot(l), s);
    }
  }

  /** Ids repeat only every 256 messages. */
  lemma SameId(a: int, b: int)
    requires a <= b < a + ID_MOD && a % ID_MOD == b % ID_MOD
    ensures a == b
  {
  }

  lemma ReceiveDataInv(l: Link, cfg: Config, bound: nat)
    requires LinkInv(l, bound) && bound < 255 && Enabled(l, ReceiveData, cfg, bound)
    ensures LinkInv(Next(l, ReceiveData, cfg), bound)
  {
    hide Stamped, WireOf, TxOk;
    var l1 := Next(l, ReceiveData, cfg);
    var d := l.data[0];
    PendingIs(l, bound);
    SameTx(l, l1, bound);
    FreshId(l, bound);
    HandedIff(l.rx, d.frame);
    if LastGot(l) != d.stamp {
      assert l1.got == l.got + [d.stamp];
      HandedNext(l, l1, d);
    } else {
      assert l1.got == l.got && d.stamp in l.got;
    }
    assert l1.acks == l.acks + [InFlight(Ack(d.frame.id), d.stamp)];
    assert d.stamp in l1.got;
    AnsweredAcks(l, l1, d);
    DataBehind(l, l1);
  }

  lemma SameTx(l: Link, l1: Link, bound: nat)
    requires TxOk(l, bound) && l1.tx == l.tx && l1.msgs == l.msgs && l1.acked == l.acked
    ensures TxOk(l1, bound)
  {
  }

  /** Messages behind the first one are no older than it. */
  lemma DataBehind(l: Link, l1: Link)
    requires DataOk(l) && 0 <= Popped(l) <= |l.msgs| && l.data != [] && l1.data == l.data[1..]
    requires LastGot(l1) == l.data[0].stamp && l1.msgs == l.msgs && l1.tx.queue == l.tx.queue
    ensures DataOk(l1)
  {
    hide WireOf;
  }

  lemma HandedNext(l: Link, l1: Link, d: InFlight)
    requires HandedOver(l) && LastGot(l) < d.stamp < Popped(l) <= |l.msgs|
    requires d.frame == WireOf(l.msgs[d.stamp], d.stamp % ID_MOD)
    requires l1.msgs == l.msgs && Popped(l1) == Popped(l)
    requires l1.got == l.got + [d.stamp] && l1.rx == Rx(Some(d.frame.id), l.rx.handed + [d.frame])
    ensures HandedOver(l1)
  {
    if l.got != [] {
      forall i | 0 <= i < |l.got| ensures l.got[i] < d.stamp {
        assert l.got[i] <= l.got[|l.got| - 1];
      }
    }
  }

  /** The new acknowledgement is the latest. */
  lemma AnsweredAcks(l: Link, l1: Link, d: InFlight)
    requires AcksOk(l) && LastAcked(l1) == LastAcked(l) <= LastGot(l) <= d.stamp == LastGot(l1)
    requires forall g :: g in l.got ==> g in l1.got
    requires d.stamp in l1.got && d.frame.id == d.stamp % ID_MOD
    requires l1.acks == l.acks + [InFlight(Ack(d.frame.id), d.stamp)]
    ensures AcksOk(l1)
  {
  }

  lemma ReceiveAckInv(l: Link, cfg: Config, bound: nat)
    requires LinkInv(l, bound) && bound < 255 && Enabled(l, ReceiveAck, cfg, bound)
    ensures LinkInv(Next(l, ReceiveAck, cfg), bound)
  {
    hide OnTick, Stamped, WireOf;
    var l1 := Next(l, ReceiveAck, cfg);
    var s := l.acks[0].stamp;
    PendingIs(l, bound);
    if l.tx.pending.Some? && s % ID_MOD == (Popped(l) - 1) % ID_MOD {
      assert LastGot(l) < Popped(l);
      SameId(s, Popped(l) - 1);
      assert l1.acked == l.acked + [s];
    }
    LaterAcks(l, l1);
  }

  /** The acknowledgements behind the first one are no older than it. */
  lemma LaterAcks(l: Link, l1: Link)
    requires AcksOk(l) && l.acks != [] && l1.acks == l.acks[1..] && l1.got == l.got
    requires LastAcked(l1) == LastAcked(l) || LastAcked(l1) == l.acks[0].stamp
    ensures AcksOk(l1)
  {
  }

  lemma LoseDataInv(l: Link, i: nat, cfg: Config, bound: nat)
    requires LinkInv(l, bound) && i < |l.data|
    ensures LinkInv(Next(l, LoseData(i), cfg), bound)
  {
    var l1 := Next(l, LoseData(i), cfg);
    DropData(l, i, l1);
  }

  lemma DropData(l: Link, i: nat, l1: Link)
    requires DataOk(l) && 0 <= Popped(l) <= |l.msgs| && i < |l.data| && l1.data == l.data[..i] + l.data[i + 1..]
    requires l1.got == l.got && l1.msgs == l.msgs && l1.tx.queue == l.tx.queue
    ensures DataOk(l1)
  {
    hide WireOf;
    assert forall k :: 0 <= k < |l1.data| ==> l1.data[k] == l.data[if k < i then k else k + 1];
  }

  lemma LoseAckInv(l: Link, i: nat, cfg: Config, bound: nat)
    requires LinkInv(l, bound) && i < |l.acks|
    ensures LinkInv(Next(l, LoseAck(i), cfg), bound)
  {
    hide WireOf;
    var l1 := Next(l, LoseAck(i), cfg);
    DropAcks(l, i, l1);
  }

  lemma DropAcks(l: Link, i: nat, l1: Link)
    requires AcksOk(l) && i < |l.acks| && l1.acks == l.acks[..i] + l.acks[i + 1..]
    requires l1.got == l.got && LastAcked(l1) == LastAcked(l)
    ensures AcksOk(l1)
  {
    assert forall k :: 0 <= k < |l1.acks| ==> l1.acks[k] == l.acks[if k < i then k else k + 1];
  }

  lemma StepKeepsInv(l: Link, step: Step, cfg: Config, bound: nat)
    requires LinkInv(l, bound) && bound < 255 && Enabled(l, step, cfg, bound)
    ensures LinkInv(Next(l, step, cfg), bound)
  {
    match step
    case Send(m) => SendInv(l, m, cfg, bound);
    case Tick(now) => TickInv(l, now, cfg, bound);
    case ReceiveData => ReceiveDataInv(l, cfg, bound);
    case ReceiveAck => ReceiveAckInv(l, cfg, bound);
    case LoseData(i) => LoseDataInv(l, i, cfg, bound);
    case LoseAck(i) => LoseAckInv(l, i, cfg, bound);
  }

  lemma {:induction false} RunKeepsInv(steps: seq<Step>, cfg: Config, bound: nat)
    requires bound < 255 && After(steps, cfg, bound).Some?
    ensures LinkInv(After(steps, cfg, bound).value, bound)
    decreases |steps|
  {
    if steps != [] {
      var n := |steps| - 1;
      RunKeepsInv(steps[..n], cfg, bound);
      StepKeepsInv(After(steps[..n], cfg, bound).value, steps[n], cfg, bound);
    }
  }

  // ---- Main results -------------------------------------------------------

  /**
   * While fewer than 255 messages in a row are abandoned, the callback receives an in-order, duplicate-free
   * subsequence of the messages sent, and every message whose pending slot an acknowledgement cleared is in it.
   */
  lemma InOrderOnce(steps: seq<Step>, cfg: Config)
    requires After(steps, cfg, 254).Some?
    ensures var l := After(steps, cfg, 254).value;
      && |l.rx.handed| == |l.got|
      && (forall i :: 0 <= i < |l.got| ==>
            l.got[i] < |l.msgs| &&
            var m := l.msgs[l.got[i]];
            l.rx.handed[i] == Message(l.got[i] % 256, m.kind % 16, m.contents % 256, m.data))
      && (forall i, j :: 0 <= i < j < |l.got| ==> l.got[i] < l.got[j])
      && (forall i :: 0 <= i < |l.acked| ==> l.acked[i] in l.got)
  {
    RunKeepsInv(steps, cfg, 254);
  }

  // ---- The bound is tight -------------------------------------------------

  const SHORT := Msg(1, 0, [])
  const ONCE := Config(0, 0, 1)

  function QueueOf(a: nat, b: nat): seq<Queued>
    requires a <= b
  {
    seq(b - a, i requires 0 <= i < b - a => Queued(SHORT, (a + i) % ID_MOD))
  }

  /** The state in which `n` messages have been submitted and nothing else has happened. */
  function Submitted(n: nat): Link {
    Link(Tx(n % ID_MOD, None, QueueOf(0, n)), FRESH_RX, [], [], Copies(SHORT, n), [], [])
  }

  /** Of 257 messages the first was delivered and acknowledged, and the next `n` were abandoned. */
  function Dropped(n: nat): Link
    requires n <= 256
  {
    Link(Tx(1, None, QueueOf(1 + n, 257)), Rx(Some(0), [WireOf(SHORT, 0)]), [], [], Copies(SHORT, 257), [0], [0])
  }

  lemma Extend(steps: seq<Step>, step: Step)
    requires After(steps, ONCE, 255).Some? && Enabled(After(steps, ONCE, 255).value, step, ONCE, 255)
    ensures After(steps + [step], ONCE, 255) == Some(Next(After(steps, ONCE, 255).value, step, ONCE))
  {
    assert (steps + [step])[..|steps|] == steps;
  }

  lemma SubmitOne(n: nat)
    ensures Next(Submitted(n), Send(SHORT), ONCE) == Submitted(n + 1)
  {
    assert QueueOf(0, n + 1) == QueueOf(0, n) + [Queued(SHORT, n % ID_MOD)];
    assert (n % ID_MOD + 1) % ID_MOD == (n + 1) % ID_MOD;
    assert Copies(SHORT, n + 1) == Copies(SHORT, n) + [SHORT];
  }

  lemma {:induction false} SubmitMany(n: nat) returns (steps: seq<Step>)
    ensures After(steps, ONCE, 255) == Some(Submitted(n))
    decreases n
  {
    steps := [];
    if n == 0 {
      assert Init() == Submitted(0);
    } else {
      steps := SubmitMany(n - 1);
      Extend(steps, Send(SHORT));
      SubmitOne(n - 1);
      steps := steps + [Send(SHORT)];
    }
  }

  /** Message `n + 1` is started: it is pending, and its only copy is on the air. */
  function Begun(l: Link, n: nat): Link
    requires l.tx.queue != []
  {
    var f := WireOf(SHORT, n % ID_MOD);
    l.(tx := l.tx.(pending := Some(Waiting(f, 0, 0)), queue := l.tx.queue[1..]), data := [InFlight(f, n)])
  }

  lemma Begin(l: Link, n: nat)
    requires l.tx.pending == None && l.data == [] && |l.msgs| == n + |l.tx.queue| && l.tx.queue != []
    requires l.tx.queue[0] == Queued(SHORT, n % ID_MOD)
    ensures Popped(l) == n && Next(l, Tick(0), ONCE) == Begun(l, n)
  {
    var l1 := Next(l, Tick(0), ONCE);
    assert Popped(l1) == n + 1;
    assert l1.data == Stamped(Copies(WireOf(SHORT, n % ID_MOD), 1), n);
  }

  /** The message begun is received, answered, and its answer received. */
  lemma Exchange(steps: seq<Step>, l: Link, n: nat) returns (more: seq<Step>)
    requires l.tx.queue != [] && l.data == [] && l.acks == [] && |l.msgs| == n + |l.tx.queue|
    requires After(steps, ONCE, 255) == Some(Begun(l, n))
    ensures var f := WireOf(SHORT, n % ID_MOD);
      After(more, ONCE, 255) == Some(l.(
        tx := l.tx.(pending := None, queue := l.tx.queue[1..]),
        rx := OnMessage(l.rx, f),
        got := if l.rx.lastId == Some(f.id) then l.got else l.got + [n],
        acked := l.acked + [n]))
  {
    var f := WireOf(SHORT, n % ID_MOD);
    var l1 := Begun(l, n);
    HandedIff(l.rx, f);
    Extend(steps, ReceiveData);
    var l2 := Next(l1, ReceiveData, ONCE);
    assert l2.acks == [InFlight(Ack(f.id), n)] && l2.data == [] && l2.tx == l1.tx && Popped(l2) == n + 1;
    assert l2.got == if l.rx.lastId == Some(f.id) then l.got else l.got + [n];
    more := steps + [ReceiveData];
    Extend(more, ReceiveAck);
    more := more + [ReceiveAck];
    var l3 := Next(l2, ReceiveAck, ONCE);
    assert l3.acks == [] && l3.acked == l.acked + [n];
  }

  lemma FirstExchange()
    ensures var l := Submitted(257);
      l.(tx := l.tx.(pending := None, queue := l.tx.queue[1..]), rx := OnMessage(l.rx, WireOf(SHORT, 0)),
         got := l.got + [0], acked := l.acked + [0]) == Dropped(0)
  {
    assert QueueOf(0, 257)[1..] == QueueOf(1, 257);
    assert [] + [0] == [0];
  }

  lemma FirstDelivered() returns (steps: seq<Step>)
    ensures After(steps, ONCE, 255) == Some(Dropped(0))
  {
    steps := SubmitMany(257);
    var l := Submitted(257);
    Begin(l, 0);
    Extend(steps, Tick(0));
    steps := Exchange(steps + [Tick(0)], l, 0);
    FirstExchange();
  }

  lemma {:induction false} DropMany(n: nat) returns (steps: seq<Step>)
    requires n <= 255
    ensures After(steps, ONCE, 255) == Some(Dropped(n))
    decreases n
  {
    hide *;
    if n == 0 {
      steps := FirstDelivered();
    } else {
      steps := DropMany(n - 1);
      DropBegins(n);
      Extend(steps, Tick(0));
      steps := steps + [Tick(0)];
      DropOne(n);
      Extend(steps, LoseData(0));
      steps := steps + [LoseData(0)];
      Extend(steps, Tick(0));
      steps := steps + [Tick(0)];
    }
  }

  lemma DropBegins(n: nat)
    requires 0 < n <= 255
    ensures var l := Dropped(n - 1);
      l.tx.queue != [] && Enabled(l, Tick(0), ONCE, 255) && Next(l, Tick(0), ONCE) == Begun(l, n)
  {
    Begin(Dropped(n - 1), n);
  }

  /** Message `n` is begun, its only copy is lost, and it is given up. */
  lemma DropOne(n: nat)
    requires 0 < n <= 255
    ensures var l := Begun(Dropped(n - 1), n);
      && Enabled(l, LoseData(0), ONCE, 255)
      && Enabled(Next(l, LoseData(0), ONCE), Tick(0), ONCE, 255)
      && Next(Next(l, LoseData(0), ONCE), Tick(0), ONCE) == Dropped(n)
  {
    var l2 := Next(Begun(Dropped(n - 1), n), LoseData(0), ONCE);
    assert l2.data == [] && Popped(l2) == n + 1;
    QueueTail(n);
  }

  lemma QueueTail(n: nat)
    requires 0 < n <= 256
    ensures QueueOf(n, 257)[1..] == QueueOf(n + 1, 257)
  {
    var a, b := QueueOf(n, 257)[1..], QueueOf(n + 1, 257);
    forall i | 0 <= i < |b| ensures a[i] == b[i] {
      assert n + (i + 1) == n + 1 + i;
    }
  }

  /** The bound is tight: with 255 messages abandoned in a row, a message can be acknowledged and never handed over. */
  lemma BoundIsTight() returns (steps: seq<Step>)
    ensures After(steps, ONCE, 255).Some?
    ensures var l := After(steps, ONCE, 255).value; exists i :: 0 <= i < |l.acked| && l.acked[i] !in l.got
  {
    steps := DropMany(255);
    var l := Dropped(255);
    Begin(l, 256);
    Extend(steps, Tick(0));
    steps := Exchange(steps + [Tick(0)], l, 256);
    var l1 := After(steps, ONCE, 255).value;
    assert l1.acked == [0, 256] && l1.got == [0];
    assert l1.acked[1] !in l1.got;
  }
}

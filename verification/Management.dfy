/** Management D_PDUs: the stop-and-wait engine, as functions of its state and as a mutable class. */
module Management {
  import opened Prelude

  const ID_MOD := 256
  const MAX_EXTENDED := 23

  /** A message as handed to `send`. */
  datatype Msg = Msg(kind: int, contents: int, data: bytes)

  /** A message waiting in the queue under its frame id. */
  datatype Queued = Queued(msg: Msg, id: int)

  /** A management D_PDU as it travels: a message, or an acknowledgement that carries only the id. */
  datatype MgmtFrame =
    | Message(id: int, kind: int, contents: int, data: bytes)
    | Ack(id: int)

  datatype Waiting = Waiting(frame: MgmtFrame, sentAt: int, retx: nat)

  /** Timeout, retry limit, and the number of copies per transmission (Table C-4). */
  datatype Config = Config(timeout: int, maxRetries: nat, reps: nat)

  /** Transmit fields of the engine. */
  datatype Tx = Tx(nextId: int, pending: Option<Waiting>, queue: seq<Queued>)

  /** Receive fields of the engine; `handed` is the list passed to the callback. */
  datatype Rx = Rx(lastId: Option<int>, handed: seq<MgmtFrame>)

  const FRESH_TX := Tx(0, None, [])
  const FRESH_RX := Rx(None, [])

  /** Copies per transmission for a data rate and interleaver setting. */
  function Repetitions(rate: int, longInterleave: bool): nat {
    match rate
    case 75 => if longInterleave then 9 else 5
    case 150 => if longInterleave then 5 else 3
    case 300 => if longInterleave then 5 else 3
    case 600 => 3
    case 1200 => if longInterleave then 3 else 1
    case _ => 1
  }

  function Copies<T>(f: T, n: nat): (s: seq<T>)
    ensures |s| == n && forall i :: 0 <= i < n ==> s[i] == f
  {
    seq(n, _ => f)
  }

  /** The D_PDU of a message: type and contents are cut to their fields of 4 and 8 bits. */
  function WireOf(m: Msg, id: int): MgmtFrame {
    Message(id, m.kind % 16, m.contents % 256, m.data)
  }

  function OnSend(tx: Tx, m: Msg): Tx {
    tx.(nextId := (tx.nextId + 1) % ID_MOD, queue := tx.queue + [Queued(m, tx.nextId)])
  }

  /** What one call of the transmit side does. `Refused` is the error raised for an oversized message. */
  datatype Outcome = Quiet | Started | Repeated | GaveUp | Refused

  datatype TxResult = TxResult(tx: Tx, frames: seq<MgmtFrame>, outcome: Outcome)

  /** One call of the transmit side: repeat or give up a pending message, or start the next one. */
  function OnTick(tx: Tx, now: int, cfg: Config): TxResult {
    match tx.pending
    case Some(w) =>
      if now - w.sentAt < cfg.timeout then TxResult(tx, [], Quiet)
      else if w.retx + 1 > cfg.maxRetries then TxResult(tx.(pending := None), [], GaveUp)
      else TxResult(tx.(pending := Some(w.(sentAt := now, retx := w.retx + 1))), Copies(w.frame, cfg.reps), Repeated)
    case None =>
      if tx.queue == [] then TxResult(tx, [], Quiet)
      else
        var q := tx.queue[0];
        var tx1 := tx.(queue := tx.queue[1..]);
        if |q.msg.data| > MAX_EXTENDED then TxResult(tx1, [], Refused)
        else
          var f := WireOf(q.msg, q.id);
          TxResult(tx1.(pending := Some(Waiting(f, now, 0))), Copies(f, cfg.reps), Started)
  }

  /** Receipt of an acknowledgement. */
  function OnAck(tx: Tx, id: int): Tx {
    if tx.pending.Some? && tx.pending.value.frame.id == id then tx.(pending := None) else tx
  }

  /** Receipt of a message: a repeated id is not handed over again. */
  function OnMessage(rx: Rx, f: MgmtFrame): Rx {
    if rx.lastId == Some(f.id) then rx else Rx(Some(f.id), rx.handed + [f])
  }

  /** A message is handed over exactly when its id differs from the last one accepted; it is acknowledged either way. */
  lemma HandedIff(rx: Rx, f: MgmtFrame)
    ensures OnMessage(rx, f).handed == rx.handed + [f] <==> rx.lastId != Some(f.id)
    ensures OnMessage(rx, f).lastId == Some(f.id)
  {
    assert |rx.handed + [f]| == |rx.handed| + 1;
  }

  /** The engine with its mutable fields. */
  class ManagementEngine {
    const cfg: Config
    var nextId: int
    var pending: Option<Waiting>
    var queue: seq<Queued>
    var lastId: Option<int>
    var handed: seq<MgmtFrame>

    ghost predicate Valid()
      reads this
    {
      0 <= nextId < ID_MOD
    }

    ghost function TxView(): Tx
      reads this
    {
      Tx(nextId, pending, queue)
    }

    ghost function RxView(): Rx
      reads this
    {
      Rx(lastId, handed)
    }

    constructor (timeout: int, maxRetries: nat, rate: int, longInterleave: bool)
      ensures Valid() && TxView() == FRESH_TX && RxView() == FRESH_RX
      ensures cfg == Config(timeout, maxRetries, Repetitions(rate, longInterleave))
    {
      cfg := Config(timeout, maxRetries, Repetitions(rate, longInterleave));
      nextId, pending, queue, lastId, handed := 0, None, [], None, [];
    }

    method Submit(m: Msg) returns (id: int)
      requires Valid()
      modifies this`nextId, this`queue
      ensures Valid() && TxView() == OnSend(old(TxView()), m) && id == old(nextId)
    {
      id := nextId;
      nextId := (nextId + 1) % ID_MOD;
      queue := queue + [Queued(m, id)];
    }

    /** Frames to transmit now, or the error of an oversized message, which is dropped. */
    method ProcessTx(now: int) returns (r: Result<seq<MgmtFrame>, string>)
      requires Valid()
      modifies this`pending, this`queue
      ensures Valid()
      ensures var out := OnTick(old(TxView()), now, cfg);
        TxView() == out.tx && r == if out.outcome == Refused then Err("extended message too long") else Ok(out.frames)
    {
      var frames: seq<MgmtFrame> := [];
      if pending.Some? {
        var w := pending.value;
        if now - w.sentAt >= cfg.timeout {
          if w.retx + 1 > cfg.maxRetries {
            pending := None;
          } else {
            pending := Some(w.(sentAt := now, retx := w.retx + 1));
            frames := Repeat(w.frame, cfg.reps);
          }
        }
        return Ok(frames);
      }
      if queue != [] {
        var q := queue[0];
        queue := queue[1..];
        if |q.msg.data| > MAX_EXTENDED { return Err("extended message too long"); }
        var f := WireOf(q.msg, q.id);
        pending := Some(Waiting(f, now, 0));
        frames := Repeat(f, cfg.reps);
      }
      return Ok(frames);
    }

    static method Repeat(f: MgmtFrame, n: nat) returns (frames: seq<MgmtFrame>)
      ensures frames == Copies(f, n)
    {
      frames := [];
      for i := 0 to n
        invariant frames == Copies(f, i)
      {
        frames := frames + [f];
      }
    }

    /** Handles a received management D_PDU; gives the acknowledgements to send back. */
    method ProcessRx(f: MgmtFrame) returns (responses: seq<MgmtFrame>)
      requires Valid()
      modifies this`pending, this`lastId, this`handed
      ensures Valid()
      ensures f.Ack? ==> TxView() == OnAck(old(TxView()), f.id) && RxView() == old(RxView()) && responses == []
      ensures f.Message? ==>
        TxView() == old(TxView()) && RxView() == OnMessage(old(RxView()), f) && responses == [Ack(f.id)]
    {
      if f.Ack? {
        if pending.Some? && f.id == pending.value.frame.id {
          pending := None;
        }
        return [];
      }
      var duplicate := lastId.Some? && f.id == lastId.value;
      if !duplicate {
        lastId := Some(f.id);
        handed := handed + [f];
      }
      return [Ack(f.id)];
    }
  }
}

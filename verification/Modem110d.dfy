/** Carrying windows of D_PDUs over the modem's TCP interface: packetising, order tags, and reception. */
module Modem110d {
  import opened Bits
  import opened Chunking
  import opened Dpdu
  import opened DpduCodec
  import opened DpduCodecProof
  import Framing
  import opened Packets
  import opened Prelude
  import opened Stream

  // ---- Payloads -----------------------------------------------------------

  const DATA := 0x00
  const ERROR := 0xFF
  const DATA_TRANSFER := 0x00
  const TRANSMIT_ARM := 0x01
  const TRANSMIT_START := 0x02
  const FIRST_ONLY := 1
  const FIRST_AND_LAST := 2
  const CONTINUATION := 3
  const LAST := 4
  const ID_SIZE := 12
  const MAX_DATA := 4072

  function Zeros(n: nat): (z: bytes)
    ensures |z| == n
  {
    if n == 0 then [] else [0] + Zeros(n - 1)
  }

  /** A packet id, cut or padded to twelve bytes. */
  function PacketId(id: bytes): (w: bytes)
    ensures |w| == ID_SIZE
  {
    if |id| >= ID_SIZE then id[..ID_SIZE] else id + Zeros(ID_SIZE - |id|)
  }

  function Command(cmd: byte): Packet { Packet(DATA, [cmd]) }

  function Transfer(order: byte, id: bytes, data: bytes): Packet {
    Packet(DATA, [DATA_TRANSFER, order] + PacketId(id) + data)
  }

  /** What a Data Transfer payload says: its order and its data. */
  function ReadTransfer(payload: bytes): Result<(byte, bytes), string> {
    if |payload| < 2 + ID_SIZE then Err("data transfer payload too short")
    else Ok((payload[1], payload[2 + ID_SIZE..]))
  }

  lemma TransferBack(order: byte, id: bytes, data: bytes)
    ensures ReadTransfer(Transfer(order, id, data).payload) == Ok((order, data))
  {
    assert ([DATA_TRANSFER, order] + PacketId(id) + data)[14..] == data;
  }

  lemma TransferShape(order: byte, id: bytes, data: bytes)
    ensures IsTransfer(Transfer(order, id, data))
    ensures |data| <= MAX_DATA ==> Plain(Transfer(order, id, data))
  {
  }

  // ---- Transmission -------------------------------------------------------

  /** The order tag of piece `i` of `n`. */
  function OrderOf(i: nat, n: nat): byte {
    if n == 1 then FIRST_AND_LAST
    else if i == 0 then FIRST_ONLY
    else if i + 1 == n then LAST
    else CONTINUATION
  }

  /** The transfers of pieces `lo` up to `hi`, each with the id drawn for it. */
  function Tagged(cs: seq<bytes>, ids: nat -> bytes, lo: nat, hi: nat): (ps: seq<Packet>)
    requires lo <= hi <= |cs|
    ensures |ps| == hi - lo
  {
    seq(hi - lo, i requires 0 <= i < hi - lo => Transfer(OrderOf(lo + i, |cs|), ids(lo + i), cs[lo + i]))
  }

  /** `count` start commands in a row. */
  function Starts(count: nat): (ps: seq<Packet>)
    ensures |ps| == count
  {
    seq(count, i => Command(TRANSMIT_START))
  }

  /** A packet that fits and that is not an error report. */
  predicate Plain(p: Packet) {
    |p.payload| <= MAX_PAYLOAD && p.kind != ERROR
  }

  predicate AllPlain(ps: seq<Packet>) {
    forall i :: 0 <= i < |ps| ==> Plain(ps[i])
  }

  lemma PlainJoin(a: seq<Packet>, b: seq<Packet>)
    requires AllPlain(a) && AllPlain(b)
    ensures AllPlain(a + b)
  {
  }

  lemma TaggedPlain(cs: seq<bytes>, ids: nat -> bytes, lo: nat, hi: nat)
    requires lo <= hi <= |cs| && forall i :: 0 <= i < |cs| ==> |cs[i]| <= MAX_DATA
    ensures AllPlain(Tagged(cs, ids, lo, hi))
  {
    forall i | 0 <= i < hi - lo ensures Plain(Tagged(cs, ids, lo, hi)[i]) {
      TransferShape(OrderOf(lo + i, |cs|), ids(lo + i), cs[lo + i]);
    }
  }

  /** Everything sent for a window of which `k` pieces are sent ahead of the start command. */
  function Plan(cs: seq<bytes>, ids: nat -> bytes, k: nat, starts: nat): seq<Packet>
    requires k <= |cs|
  {
    [Command(TRANSMIT_ARM)] + Tagged(cs, ids, 0, k) + Starts(if |cs| > 1 then 1 + starts else 0)
    + Tagged(cs, ids, k, |cs|)
  }

  /** The packets that carry data. */
  predicate IsTransfer(p: Packet) {
    p.kind == DATA && p.payload != [] && p.payload[0] == DATA_TRANSFER
  }

  function Transfers(ps: seq<Packet>): seq<Packet> {
    if ps == [] then []
    else (if IsTransfer(ps[0]) then [ps[0]] else []) + Transfers(ps[1..])
  }

  lemma {:induction false} TransfersConcat(a: seq<Packet>, b: seq<Packet>)
    ensures Transfers(a + b) == Transfers(a) + Transfers(b)
    decreases |a|
  {
    if a == [] {
      assert a + b == b;
    } else {
      TransfersConcat(a[1..], b);
      assert (a + b)[1..] == a[1..] + b;
    }
  }

  lemma {:induction false} TransfersAll(ps: seq<Packet>)
    requires forall i :: 0 <= i < |ps| ==> IsTransfer(ps[i])
    ensures Transfers(ps) == ps
  {
    if ps != [] { TransfersAll(ps[1..]); }
  }

  lemma {:induction false} TransfersNone(ps: seq<Packet>)
    requires forall i :: 0 <= i < |ps| ==> !IsTransfer(ps[i])
    ensures Transfers(ps) == []
  {
    if ps != [] { TransfersNone(ps[1..]); }
  }

  lemma TaggedTransfers(cs: seq<bytes>, ids: nat -> bytes, lo: nat, hi: nat)
    requires lo <= hi <= |cs|
    ensures Transfers(Tagged(cs, ids, lo, hi)) == Tagged(cs, ids, lo, hi)
  {
    forall i | 0 <= i < hi - lo ensures IsTransfer(Tagged(cs, ids, lo, hi)[i]) {
      TransferShape(OrderOf(lo + i, |cs|), ids(lo + i), cs[lo + i]);
    }
    TransfersAll(Tagged(cs, ids, lo, hi));
  }

  lemma TaggedSplit(cs: seq<bytes>, ids: nat -> bytes, k: nat)
    requires k <= |cs|
    ensures Tagged(cs, ids, 0, k) + Tagged(cs, ids, k, |cs|) == Tagged(cs, ids, 0, |cs|)
  {
  }

  /** Whatever is sent ahead of the start, the data-carrying packets are the tagged pieces in order. */
  lemma PlanCarries(cs: seq<bytes>, ids: nat -> bytes, k: nat, starts: nat)
    requires k <= |cs|
    ensures Transfers(Plan(cs, ids, k, starts)) == Tagged(cs, ids, 0, |cs|)
  {
    var arm, a, z := [Command(TRANSMIT_ARM)], Tagged(cs, ids, 0, k), Tagged(cs, ids, k, |cs|);
    var s := Starts(if |cs| > 1 then 1 + starts else 0);
    TransfersConcat(arm + a + s, z);
    TransfersConcat(arm + a, s);
    TransfersConcat(arm, a);
    TransfersNone(arm);
    TaggedTransfers(cs, ids, 0, k);
    TaggedTransfers(cs, ids, k, |cs|);
    TransfersNone(s);
    TaggedSplit(cs, ids, k);
    assert [] + a + [] == a;
  }

  /** The pieces sent before the start: as few as hold `threshold` bytes, but never the last one. */
  predicate IsHeadStart(cs: seq<bytes>, threshold: nat, k: int) {
    && 0 <= k < |cs|
    && (k == |cs| - 1 || |Join(cs[..k])| >= threshold)
    && (forall j :: 0 <= j < k ==> |Join(cs[..j])| < threshold)
  }

  /**
    * Sends one window. The waits on the modem's state are outside: `flushed` and `ready` say how they end,
    * and `restarts` how often the start command is repeated.
    */
  method TransmitWindow(window: seq<bytes>, maxData: nat, threshold: nat, ids: nat -> bytes,
                        flushed: bool, ready: bool, restarts: nat)
    returns (sent: seq<Packet>)
    requires 1 <= maxData <= MAX_DATA
    ensures var cs := Chunks(Join(window), maxData);
      if cs == [] || !flushed then sent == []
      else if !ready then sent == [Command(TRANSMIT_ARM)]
      else exists k :: IsHeadStart(cs, threshold, k) && sent == Plan(cs, ids, k, restarts)
    ensures AllPlain(sent)
  {
    hide OrderOf, Chunks, Transfer, Starts;
    var stream := Join(window);
    var packets := Chunks(stream, maxData);
    ChunksPartition(stream, maxData);
    sent := [];
    if packets == [] || !flushed { return; }
    sent := [Command(TRANSMIT_ARM)];
    if !ready { return; }
    var n := |packets|;
    var i, sentBytes := 0, 0;
    ghost var arm := sent;
    while i < n - 1 && sentBytes < threshold
      invariant 0 <= i <= n - 1
      invariant sent == arm + Tagged(packets, ids, 0, i)
      invariant sentBytes == |Join(packets[..i])|
      invariant forall j :: 0 <= j < i ==> |Join(packets[..j])| < threshold
    {
      assert packets[..i + 1] == packets[..i] + [packets[i]];
      JoinSnoc(packets[..i], packets[i]);
      TaggedSnoc(arm, packets, ids, 0, i);
      sent := sent + [Transfer(OrderOf(i, n), ids(i), packets[i])];
      sentBytes := sentBytes + |packets[i]|;
      i := i + 1;
    }
    ghost var k, ahead := i, sent;
    assert ahead + [] == ahead;
    if n > 1 {
      sent := sent + Starts(1 + restarts);
    }
    ghost var before := sent;
    assert before == ahead + Starts(if n > 1 then 1 + restarts else 0);
    assert before + Tagged(packets, ids, k, k) == before;
    while i < n
      invariant k <= i <= n
      invariant sent == before + Tagged(packets, ids, k, i)
    {
      TaggedSnoc(before, packets, ids, k, i);
      sent := sent + [Transfer(OrderOf(i, n), ids(i), packets[i])];
      i := i + 1;
    }
    assert sent == Plan(packets, ids, k, restarts);
    PlanPlain(packets, ids, k, restarts);
  }

  lemma TaggedSnoc(sent: seq<Packet>, cs: seq<bytes>, ids: nat -> bytes, lo: nat, hi: nat)
    requires lo <= hi < |cs|
    ensures sent + Tagged(cs, ids, lo, hi + 1)
         == sent + Tagged(cs, ids, lo, hi) + [Transfer(OrderOf(hi, |cs|), ids(hi), cs[hi])]
  {
    assert Tagged(cs, ids, lo, hi + 1) == Tagged(cs, ids, lo, hi) + [Transfer(OrderOf(hi, |cs|), ids(hi), cs[hi])];
  }

  lemma PlanPlain(cs: seq<bytes>, ids: nat -> bytes, k: nat, starts: nat)
    requires k <= |cs| && forall i :: 0 <= i < |cs| ==> |cs[i]| <= MAX_DATA
    ensures AllPlain(Plan(cs, ids, k, starts))
  {
    var arm, a, z := [Command(TRANSMIT_ARM)], Tagged(cs, ids, 0, k), Tagged(cs, ids, k, |cs|);
    var s := Starts(if |cs| > 1 then 1 + starts else 0);
    TaggedPlain(cs, ids, 0, k);
    TaggedPlain(cs, ids, k, |cs|);
    PlainJoin(arm, a);
    PlainJoin(arm + a, s);
    PlainJoin(arm + a + s, z);
  }

  // ---- Reception ----------------------------------------------------------

  /** The partial D_PDU being put together, the D_PDUs received, and whether the connection is up. */
  datatype Rx = Rx(part: bytes, frames: seq<bytes>, up: bool)

  ghost function OnTransfer(s: Rx, order: byte, data: bytes): Rx
    requires Steady(Framing.NextFrame)
  {
    var base := if order == FIRST_ONLY || order == FIRST_AND_LAST then [] else s.part;
    After(s, Run(Framing.NextFrame, base + data))
  }

  ghost function Dispatch(s: Rx, p: Packet): Rx
    requires Steady(Framing.NextFrame)
  {
    if p.kind == ERROR then Rx([], s.frames, false)
    else if !IsTransfer(p) then s
    else
      match ReadTransfer(p.payload)
      case Err(_) => s
      case Ok(t) => OnTransfer(s, t.0, t.1)
  }

  ghost function DispatchAll(s: Rx, ps: seq<Packet>): Rx
    requires Steady(Framing.NextFrame)
    decreases |ps|
  {
    if ps == [] then s else DispatchAll(Dispatch(s, ps[0]), ps[1..])
  }

  /** Packets that carry no data and report no error do not touch what has been received. */
  lemma {:induction false} OnlyTransfersMatter(s: Rx, ps: seq<Packet>)
    requires Steady(Framing.NextFrame)
    requires AllPlain(ps)
    ensures DispatchAll(s, ps) == DispatchAll(s, Transfers(ps))
    decreases |ps|
  {
    if ps != [] {
      OnlyTransfersMatter(Dispatch(s, ps[0]), ps[1..]);
      assert IsTransfer(ps[0]) ==> Transfers(ps)[1..] == Transfers(ps[1..]);
      assert !IsTransfer(ps[0]) ==> [] + Transfers(ps[1..]) == Transfers(ps[1..]);
    }
  }

  /** The reception state after the reassembler has given this out. */
  function After(s: Rx, run: Outcome<bytes>): Rx {
    Rx(run.rest, s.frames + run.items, s.up)
  }

  lemma AfterBoth(s: Rx, run: Outcome<bytes>, fed: Outcome<bytes>)
    ensures After(After(s, run), fed) == After(s, Outcome(run.items + fed.items, fed.rest))
  {
    AppendAssoc(s.frames, run.items, fed.items);
  }

  lemma TaggedTail(cs: seq<bytes>, ids: nat -> bytes, lo: nat)
    requires lo < |cs|
    ensures var ps := Tagged(cs, ids, lo, |cs|);
      ps[0] == Transfer(OrderOf(lo, |cs|), ids(lo), cs[lo]) && ps[1..] == Tagged(cs, ids, lo + 1, |cs|)
  {
    var ps, rest := Tagged(cs, ids, lo, |cs|), Tagged(cs, ids, lo + 1, |cs|);
    forall i | 0 <= i < |rest| ensures ps[1..][i] == rest[i] {
      assert lo + (i + 1) == (lo + 1) + i;
      assert ps[1..][i] == ps[i + 1];
    }
  }

  /** One tagged piece; only the first starts afresh. */
  lemma OneMore(s: Rx, cs: seq<bytes>, ids: nat -> bytes, lo: nat)
    requires Steady(Framing.NextFrame) && lo < |cs|
    ensures var run := Run(Framing.NextFrame, (if lo == 0 then [] else s.part) + cs[lo]);
      DispatchAll(s, Tagged(cs, ids, lo, |cs|))
      == DispatchAll(After(s, run), Tagged(cs, ids, lo + 1, |cs|))
  {
    var ps := Tagged(cs, ids, lo, |cs|);
    DispatchTransfer(s, OrderOf(lo, |cs|), ids(lo), cs[lo]);
    TaggedTail(cs, ids, lo);
    DispatchFirst(s, ps);
  }

  lemma DispatchFirst(s: Rx, ps: seq<Packet>)
    requires Steady(Framing.NextFrame) && ps != []
    ensures DispatchAll(s, ps) == DispatchAll(Dispatch(s, ps[0]), ps[1..])
  {
  }

  lemma DispatchTransfer(s: Rx, order: byte, id: bytes, data: bytes)
    requires Steady(Framing.NextFrame)
    ensures Dispatch(s, Transfer(order, id, data)) == OnTransfer(s, order, data)
  {
    TransferShape(order, id, data);
    TransferBack(order, id, data);
  }

  lemma NothingMore(s: Rx, cs: seq<bytes>, ids: nat -> bytes)
    requires Steady(Framing.NextFrame)
    ensures DispatchAll(s, Tagged(cs, ids, |cs|, |cs|)) == s
    ensures After(s, FeedAll(Framing.NextFrame, s.part, [])) == s
  {
    assert Tagged(cs, ids, |cs|, |cs|) == [];
    assert s.frames + [] == s.frames;
  }

  lemma FeedFirstOf(s: Rx, cs: seq<bytes>, lo: nat)
    requires Steady(Framing.NextFrame) && lo < |cs|
    ensures var run := Run(Framing.NextFrame, s.part + cs[lo]);
      After(s, FeedAll(Framing.NextFrame, s.part, cs[lo..]))
      == After(After(s, run), FeedAll(Framing.NextFrame, run.rest, cs[lo + 1..]))
  {
    var run := Run(Framing.NextFrame, s.part + cs[lo]);
    assert cs[lo..][0] == cs[lo] && cs[lo..][1..] == cs[lo + 1..];
    FeedFirst(Framing.NextFrame, s.part, cs[lo..]);
    AfterBoth(s, run, FeedAll(Framing.NextFrame, run.rest, cs[lo + 1..]));
  }

  /** Pieces that continue a reception feed the reassembler one after another. */
  lemma {:induction false} ContinuationsFeed(s: Rx, cs: seq<bytes>, ids: nat -> bytes, lo: nat)
    requires Steady(Framing.NextFrame) && 1 <= lo <= |cs|
    ensures DispatchAll(s, Tagged(cs, ids, lo, |cs|)) == After(s, FeedAll(Framing.NextFrame, s.part, cs[lo..]))
    decreases |cs| - lo
  {
    hide Steady;
    if lo == |cs| {
      NothingMore(s, cs, ids);
      assert cs[lo..] == [];
    } else {
      var run := Run(Framing.NextFrame, s.part + cs[lo]);
      OneMore(s, cs, ids, lo);
      FeedFirstOf(s, cs, lo);
      ContinuationsFeed(After(s, run), cs, ids, lo + 1);
    }
  }

  /** A tagged reception yields what its bytes hold, whatever an earlier one left behind. */
  lemma TaggedReception(s: Rx, cs: seq<bytes>, ids: nat -> bytes)
    requires Steady(Framing.NextFrame) && cs != []
    ensures DispatchAll(s, Tagged(cs, ids, 0, |cs|)) == After(s, Run(Framing.NextFrame, Join(cs)))
  {
    var run := Run(Framing.NextFrame, [] + cs[0]);
    assert After(s, run).part == run.rest;
    hide *;
    OneMore(s, cs, ids, 0);
    ContinuationsFeed(After(s, run), cs, ids, 1);
    FeedFirst(Framing.NextFrame, [], cs);
    AfterBoth(s, run, FeedAll(Framing.NextFrame, run.rest, cs[1..]));
    FedWhole(cs);
  }

  /** Fed from an empty buffer, pieces give what they hold together. */
  lemma FedWhole(cs: seq<bytes>)
    requires Steady(Framing.NextFrame)
    ensures FeedAll(Framing.NextFrame, [], cs) == Run(Framing.NextFrame, Join(cs))
  {
    assert Framing.NextFrame([]).Wait?;
    AnyPieces(Framing.NextFrame, [], cs);
    assert [] + Join(cs) == Join(cs);
  }

  // ---- End to end ---------------------------------------------------------

  /** The packets that the receiver reads from a connection, in whatever pieces TCP hands the bytes over. */
  ghost function Received(pieces: seq<bytes>): seq<Packet>
    requires Steady(NextPacket)
  {
    FeedAll(NextPacket, [], pieces).items
  }

  /**
    * A window of D_PDUs, cut and tagged by the sender, mixed with any other packets but errors, and handed over by
    * TCP in any pieces, is delivered as exactly that window, after what was received before, whatever partial
    * D_PDU an earlier reception left behind.
    */
  lemma WindowDelivered(s: Rx, ds: seq<Dpdu>, maxData: nat, ids: nat -> bytes, ps: seq<Packet>, pieces: seq<bytes>)
    requires Framing.AllEncodable(ds) && ds != [] && 1 <= maxData <= MAX_DATA
    requires var cs := Chunks(Join(Framing.Wires(ds)), maxData); Transfers(ps) == Tagged(cs, ids, 0, |cs|)
    requires AllPlain(ps)
    requires Join(pieces) == Join(Encodings(ps))
    ensures Steady(NextPacket) && Steady(Framing.NextFrame)
    ensures DispatchAll(s, Received(pieces)) == Rx([], s.frames + Framing.Wires(ds), s.up)
  {
    var wires := Framing.Wires(ds);
    var cs := Chunks(Join(wires), maxData);
    Framing.FramesSteady();
    ReceivedExactly(ps, pieces);
    OnlyTransfersMatter(s, ps);
    WindowNotEmpty(ds);
    ChunksPartition(Join(wires), maxData);
    TaggedReception(s, cs, ids);
    WindowParses(ds);
  }

  lemma ReceivedExactly(ps: seq<Packet>, pieces: seq<bytes>)
    requires AllPlain(ps) && Join(pieces) == Join(Encodings(ps))
    ensures Steady(NextPacket) && Received(pieces) == ps
  {
    PacketsRoundTrip(ps, []);
    AnyPieces(NextPacket, [], pieces);
    assert [] + Join(pieces) == Join(Encodings(ps)) + [];
    assert ps + [] == ps;
  }

  lemma WindowNotEmpty(ds: seq<Dpdu>)
    requires Framing.AllEncodable(ds) && ds != []
    ensures Join(Framing.Wires(ds)) != []
  {
    Framing.EncodedIsUnit(ds[0]);
    assert Framing.Wires(ds)[0] == Wire(ds[0]);
  }

  lemma WindowParses(ds: seq<Dpdu>)
    requires Framing.AllEncodable(ds)
    ensures Steady(Framing.NextFrame)
    ensures Run(Framing.NextFrame, Join(Framing.Wires(ds))) == Outcome(Framing.Wires(ds), [])
  {
    Framing.EncodedRun(ds, []);
    assert Join(Framing.Wires(ds)) + [] == Join(Framing.Wires(ds));
    assert Framing.Wires(ds) + [] == Framing.Wires(ds);
  }

  /** What the sender's own method puts on the wire arrives as the window it was given. */
  lemma SentWindowDelivered(s: Rx, ds: seq<Dpdu>, maxData: nat, ids: nat -> bytes, k: nat, starts: nat,
      pieces: seq<bytes>)
    requires Framing.AllEncodable(ds) && ds != [] && 1 <= maxData <= MAX_DATA
    requires k <= |Chunks(Join(Framing.Wires(ds)), maxData)|
    requires Join(pieces) == Join(Encodings(Plan(Chunks(Join(Framing.Wires(ds)), maxData), ids, k, starts)))
    ensures Steady(NextPacket) && Steady(Framing.NextFrame)
    ensures DispatchAll(s, Received(pieces)) == Rx([], s.frames + Framing.Wires(ds), s.up)
  {
    var cs := Chunks(Join(Framing.Wires(ds)), maxData);
    ChunksPartition(Join(Framing.Wires(ds)), maxData);
    PlanCarries(cs, ids, k, starts);
    PlanPlain(cs, ids, k, starts);
    WindowDelivered(s, ds, maxData, ids, Plan(cs, ids, k, starts), pieces);
  }
}

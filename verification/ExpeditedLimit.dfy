/** A run in which 255 segments in a row are passed over, and parts of two C_PDUs are delivered as one. */
module ExpeditedLimit {
  import opened Chunking
  import opened Expedited
  import opened ExpeditedLink
  import opened Prelude

  const ONCE := Expedited.Config(3000, 1)

  // ---- Runs ---------------------------------------------------------------

  lemma Extend(steps: seq<Step>, l: Link, step: Step) returns (more: seq<Step>)
    requires AfterWithin(steps, ONCE, 255) == Some(l) && Within(l, step, ONCE, 255)
    ensures AfterWithin(more, ONCE, 255) == Some(Next(l, step, ONCE))
  {
    hide Within, Next;
    more := steps + [step];
    assert more[..|steps|] == steps;
  }

  // ---- A C_PDU that gets nothing through ----------------------------------

  /** Nothing is queued, in flight or on its way to the receiver. */
  predicate Quiet(l: Link) {
    l.tx.queue == [] && l.tx.waiting == None && l.tx.segments == [] && l.data == []
  }

  /** The state after the C_PDU was taken, transmitted twice in vain, and abandoned. */
  function Dropped(l: Link, p: bytes): Link {
    l.(tx := Tx([], (l.tx.cpduId + 1) % ID_MOD, (l.tx.frameSeq + |Chunks(p, MAX_DATA)|) % FSN_MOD, None, []),
       cpdus := l.cpdus + [p], segs := l.segs + SegsOf(p, |l.cpdus|))
  }

  /** The first segment of the C_PDU is in flight, sent at `now` for the `n`th time, and lost. */
  function InFlight(l: Link, p: bytes, now: int, n: nat): Link
    requires p != []
  {
    ChunksPartition(p, MAX_DATA);
    var fs := Segments(p, l.tx.frameSeq, l.tx.cpduId);
    l.(tx := l.tx.(waiting := Some(Waiting(fs[0], now, n)), segments := fs[1..]),
       cpdus := l.cpdus + [p], segs := l.segs + SegsOf(p, |l.cpdus|))
  }

  /** A queued C_PDU is cut, and its first segment sent. */
  lemma SendFirst(l: Link, p: bytes, now: int)
    requires Quiet(l) && p != [] && Skipped(l) <= 255 && |l.segs| >= 0
    ensures var l1 := Next(l, Submit(p), ONCE);
      && Within(l1, Round(now), ONCE, 255)
      && Next(l1, Round(now), ONCE) ==
           InFlight(l, p, now, 0).(data := [DataIn(InFlight(l, p, now, 0).tx.waiting.value.frame, |l.segs|)])
  {
    ChunksPartition(p, MAX_DATA);
    assert [p][1..] == [];
  }

  /** The segment in flight is sent again when its time has run out. */
  lemma SendAgain(l: Link, now: int)
    requires l.tx.waiting.Some? && l.tx.waiting.value.retx == 0 && now >= l.tx.waiting.value.sentAt + 3000
    requires |l.tx.queue| <= |l.cpdus| && 0 <= Current(l) && Skipped(l) <= 255
    ensures Within(l, Round(now), ONCE, 255)
    ensures Next(l, Round(now), ONCE) ==
      l.(tx := l.tx.(waiting := Some(l.tx.waiting.value.(sentAt := now, retx := 1))),
         data := l.data + [DataIn(l.tx.waiting.value.frame, Current(l))])
  {
    assert l.segs + [] == l.segs;
  }

  /** After the second time the C_PDU is abandoned, and the numbers of its segments are passed over. */
  lemma Abandon(l: Link, now: int)
    requires l.tx.waiting.Some? && l.tx.waiting.value.retx == 1 && now >= l.tx.waiting.value.sentAt + 3000
    requires |l.tx.queue| <= |l.cpdus| && |l.segs| - 1 - l.acked <= 255
    ensures Within(l, Round(now), ONCE, 255) && Next(l, Round(now), ONCE) == l.(tx := GivenUp(l.tx))
  {
    assert l.segs + [] == l.segs;
  }

  lemma LoseOnly(l: Link)
    requires |l.data| == 1
    ensures Within(l, LoseData(0), ONCE, 255) && Next(l, LoseData(0), ONCE) == l.(data := [])
  {
    assert l.data[..0] + l.data[1..] == [];
  }

  lemma Drop(steps: seq<Step>, l: Link, p: bytes, t: int) returns (more: seq<Step>)
    requires AfterWithin(steps, ONCE, 255) == Some(l) && Quiet(l) && p != []
    requires Skipped(l) + |Chunks(p, MAX_DATA)| <= 255
    ensures AfterWithin(more, ONCE, 255) == Some(Dropped(l, p))
  {
    hide AfterWithin, Next, Within, Segments, Chunks;
    ChunksPartition(p, MAX_DATA);
    SubmitWithin(l, p);
    more := Extend(steps, l, Submit(p));
    SendFirst(l, p, t);
    more := Extend(more, Next(l, Submit(p), ONCE), Round(t));
    var a := InFlight(l, p, t, 0);
    var d := DataIn(a.tx.waiting.value.frame, |l.segs|);
    LoseOnly(a.(data := [d]));
    more := Extend(more, a.(data := [d]), LoseData(0));
    assert a.(data := []) == a;
    SendAgain(a, t + 3000);
    var b := InFlight(l, p, t + 3000, 1);
    more := Extend(more, a, Round(t + 3000));
    assert a.data + [d] == [d];
    LoseOnly(b.(data := [d]));
    more := Extend(more, b.(data := [d]), LoseData(0));
    assert b.(data := []) == b;
    Abandon(b, t + 6000);
    more := Extend(more, b, Round(t + 6000));
  }

  lemma SubmitWithin(l: Link, p: bytes)
    ensures Within(l, Submit(p), ONCE, 255)
  {
  }

  function Total(ps: seq<bytes>): nat {
    if ps == [] then 0 else Total(ps[..|ps| - 1]) + |Chunks(ps[|ps| - 1], MAX_DATA)|
  }

  /** The state after all these C_PDUs were abandoned, apart from the table of segments. */
  predicate AllDropped(l: Link, ps: seq<bytes>, l1: Link) {
    && l1 == l.(tx := Tx([], (l.tx.cpduId + |ps|) % ID_MOD, (l.tx.frameSeq + Total(ps)) % FSN_MOD, None, []),
                cpdus := l.cpdus + ps, segs := l1.segs)
    && |l1.segs| == |l.segs| + Total(ps)
  }

  lemma {:induction false} DropAll(steps: seq<Step>, l: Link, ps: seq<bytes>) returns (more: seq<Step>, l1: Link)
    requires AfterWithin(steps, ONCE, 255) == Some(l) && Quiet(l) && 0 <= l.tx.cpduId < ID_MOD
    requires 0 <= l.tx.frameSeq < FSN_MOD && (forall p :: p in ps ==> p != []) && Skipped(l) + Total(ps) <= 255
    ensures AfterWithin(more, ONCE, 255) == Some(l1) && AllDropped(l, ps, l1)
    decreases |ps|
  {
    hide AfterWithin, AllDropped, Dropped, Chunks, Total, Quiet, Skipped;
    if ps == [] {
      NoneDropped(l);
      more, l1 := steps, l;
    } else {
      var n := |ps| - 1;
      assert (forall p :: p in ps[..n] ==> p in ps) && ps[n] in ps;
      TotalSnoc(ps);
      more, l1 := DropAll(steps, l, ps[..n]);
      StillQuiet(l, ps[..n], l1);
      more := Drop(more, l1, ps[n], 10_000 * (n + 2));
      OneMoreDropped(l, ps, l1);
      l1 := Dropped(l1, ps[n]);
    }
  }

  lemma NoneDropped(l: Link)
    requires Quiet(l) && 0 <= l.tx.cpduId < ID_MOD && 0 <= l.tx.frameSeq < FSN_MOD
    ensures AllDropped(l, [], l)
  {
    assert l.cpdus + [] == l.cpdus;
  }

  lemma TotalSnoc(ps: seq<bytes>)
    requires ps != []
    ensures Total(ps) == Total(ps[..|ps| - 1]) + |Chunks(ps[|ps| - 1], MAX_DATA)|
  {
  }

  lemma StillQuiet(l: Link, ps: seq<bytes>, l1: Link)
    requires Quiet(l) && AllDropped(l, ps, l1)
    ensures Quiet(l1) && Skipped(l1) == Skipped(l) + Total(ps)
  {
    hide Total;
  }

  lemma OneMoreDropped(l: Link, ps: seq<bytes>, l1: Link)
    requires ps != [] && AllDropped(l, ps[..|ps| - 1], l1)
    ensures AllDropped(l, ps, Dropped(l1, ps[|ps| - 1]))
  {
    hide Total, Chunks;
    var n := |ps| - 1;
    TotalSnoc(ps);
    ModAdd(l.tx.cpduId + n, 1, ID_MOD);
    ModAdd(l.tx.frameSeq + Total(ps[..n]), |Chunks(ps[n], MAX_DATA)|, FSN_MOD);
    assert l.cpdus + ps[..n] + [ps[n]] == l.cpdus + ps;
  }

  // ---- The stale acknowledgement ------------------------------------------

  /** A C_PDU of two segments. */
  predicate TwoPart(p: bytes) { |Chunks(p, MAX_DATA)| == 2 }

  function Part(p: bytes, i: nat): bytes
    requires TwoPart(p) && i < 2
  {
    Chunks(p, MAX_DATA)[i]
  }

  lemma TwoFrames(p: bytes, seqNo: int, id: int)
    requires TwoPart(p)
    ensures p != [] && Segments(p, seqNo, id) ==
      [Frame(seqNo % FSN_MOD, id, true, false, Part(p, 0)), Frame((seqNo + 1) % FSN_MOD, id, false, true, Part(p, 1))]
    ensures SegsOf(p, 0) == [Seg(0, 0, 2), Seg(0, 1, 2)]
  {
    ChunksPartition(p, MAX_DATA);
    assert Segments(p, seqNo, id)[0] == SegmentOf(p, 0, seqNo, id);
    assert Segments(p, seqNo, id)[1] == SegmentOf(p, 1, seqNo, id);
  }

  /** The first segment has arrived, it was acknowledged twice, and one of the acknowledgements is still on the air. */
  function Halfway(p: bytes): Link
    requires TwoPart(p)
  {
    Link(Tx([], 0, 1, None, [Frame(1, 0, false, true, Part(p, 1))]), Rx([Part(p, 0)], 0, []), None, [], [AckIn(1, 0)],
         [p], [Seg(0, 0, 2), Seg(0, 1, 2)], [0], 0, [])
  }

  /** As before, and the second segment was abandoned. */
  function Stuck(p: bytes): Link
    requires TwoPart(p)
  {
    Halfway(p).(tx := Tx([], 1, 2, None, []))
  }

  lemma ToHalfway(p: bytes) returns (steps: seq<Step>)
    requires TwoPart(p)
    ensures AfterWithin(steps, ONCE, 255) == Some(Halfway(p))
  {
    hide AfterWithin, Next, Within, Chunks, Segments, SegsOf;
    TwoFrames(p, 0, 0);
    var f := Frame(0, 0, true, false, Part(p, 0));
    assert AfterWithin([], ONCE, 255) == Some(Init()) by { StartsFresh(); }
    SubmitWithin(Init(), p);
    steps := Extend([], Init(), Submit(p));
    SendFirst(Init(), p, 0);
    steps := Extend(steps, Next(Init(), Submit(p), ONCE), Round(0));
    var a := Sent(p, 0, 0);
    assert Next(Next(Init(), Submit(p), ONCE), Round(0), ONCE) == a.(data := [DataIn(f, 0)]) by { SentFirst(p); }
    Arrives(p, a.(data := [DataIn(f, 0)]));
    steps := Extend(steps, a.(data := [DataIn(f, 0)]), ReceiveData);
    var b := a.(rx := Rx([Part(p, 0)], 0, []), got := [0]);
    Answers(b);
    steps := Extend(steps, b.(pendingAck := Some(AckIn(1, 0))), Acknowledge);
    var c := b.(acks := [AckIn(1, 0)]);
    assert b.acks + [AckIn(1, 0)] == [AckIn(1, 0)];
    SendAgain(c, 3000);
    steps := Extend(steps, c, Round(3000));
    var d := c.(tx := Sent(p, 3000, 1).tx);
    assert c.data + [DataIn(f, 0)] == [DataIn(f, 0)];
    Arrives(p, d.(data := [DataIn(f, 0)]));
    steps := Extend(steps, d.(data := [DataIn(f, 0)]), ReceiveData);
    Answers(d);
    steps := Extend(steps, d.(pendingAck := Some(AckIn(1, 0))), Acknowledge);
    HearsFirst(p);
    assert d.acks + [AckIn(1, 0)] == [AckIn(1, 0), AckIn(1, 0)];
    steps := Extend(steps, d.(acks := [AckIn(1, 0), AckIn(1, 0)]), ReceiveAck);
  }

  /** The first segment of a first C_PDU was sent at `now` for the `n`th time. */
  function Sent(p: bytes, now: int, n: nat): Link
    requires TwoPart(p)
  {
    Init().(tx := Tx([], 0, 0, Some(Waiting(Frame(0, 0, true, false, Part(p, 0)), now, n)),
                     [Frame(1, 0, false, true, Part(p, 1))]),
            cpdus := [p], segs := [Seg(0, 0, 2), Seg(0, 1, 2)])
  }

  lemma StartsFresh()
    ensures AfterWithin([], ONCE, 255) == Some(Init())
  {
  }

  lemma SentFirst(p: bytes)
    requires TwoPart(p) && p != []
    ensures InFlight(Init(), p, 0, 0) == Sent(p, 0, 0)
  {
    TwoFrames(p, 0, 0);
    assert [] + [p] == [p] && [] + SegsOf(p, 0) == SegsOf(p, 0);
  }

  /** The first segment arrives, for the first or the second time. */
  lemma Arrives(p: bytes, l: Link)
    requires TwoPart(p) && l.data == [DataIn(Frame(0, 0, true, false, Part(p, 0)), 0)]
    requires |l.rx.delivered| == 0 && (l.got == [] || l.got == [0])
    ensures Within(l, ReceiveData, ONCE, 255)
    ensures Next(l, ReceiveData, ONCE) ==
      l.(rx := Rx([Part(p, 0)], 0, []), data := [], got := [0], pendingAck := Some(AckIn(1, 0)))
  {
    assert [] + [Part(p, 0)] == [Part(p, 0)];
  }

  lemma Answers(l: Link)
    ensures var l1 := l.(pendingAck := Some(AckIn(1, 0)));
      && Within(l1, Acknowledge, ONCE, 255)
      && Next(l1, Acknowledge, ONCE) == l.(acks := l.acks + [AckIn(1, 0)], pendingAck := None)
  {
  }

  lemma HearsFirst(p: bytes)
    requires TwoPart(p)
    ensures var l := Sent(p, 3000, 1).(rx := Rx([Part(p, 0)], 0, []), got := [0], acks := [AckIn(1, 0), AckIn(1, 0)]);
      Within(l, ReceiveAck, ONCE, 255) && Next(l, ReceiveAck, ONCE) == Halfway(p)
  {
    assert [AckIn(1, 0), AckIn(1, 0)][1..] == [AckIn(1, 0)];
  }

  lemma ToStuck(p: bytes) returns (steps: seq<Step>)
    requires TwoPart(p)
    ensures AfterWithin(steps, ONCE, 255) == Some(Stuck(p))
  {
    hide AfterWithin, Next, Within, Chunks;
    steps := ToHalfway(p);
    var h, f := Halfway(p), Frame(1, 0, false, true, Part(p, 1));
    SendNext(h, 4000);
    steps := Extend(steps, h, Round(4000));
    var a := h.(tx := Tx([], 0, 1, Some(Waiting(f, 4000, 0)), []));
    assert a.tx == h.tx.(waiting := Some(Waiting(f, 4000, 0)), segments := h.tx.segments[1..]);
    assert h.data + [DataIn(f, 1)] == [DataIn(f, 1)];
    LoseOnly(a.(data := [DataIn(f, 1)]));
    steps := Extend(steps, a.(data := [DataIn(f, 1)]), LoseData(0));
    SendAgain(a, 7000);
    steps := Extend(steps, a, Round(7000));
    var b := h.(tx := Tx([], 0, 1, Some(Waiting(f, 7000, 1)), []));
    LoseOnly(b.(data := [DataIn(f, 1)]));
    steps := Extend(steps, b.(data := [DataIn(f, 1)]), LoseData(0));
    Abandon(b, 10_000);
    steps := Extend(steps, b, Round(10_000));
  }

  /** The next segment of the C_PDU goes out. */
  lemma SendNext(l: Link, now: int)
    requires l.tx.waiting == None && l.tx.segments != [] && |l.tx.queue| <= |l.cpdus|
    requires 0 <= Current(l) && Skipped(l) <= 255
    ensures Within(l, Round(now), ONCE, 255)
    ensures Next(l, Round(now), ONCE) ==
      l.(tx := l.tx.(waiting := Some(Waiting(l.tx.segments[0], now, 0)), segments := l.tx.segments[1..]),
         data := l.data + [DataIn(l.tx.segments[0], Current(l))])
  {
    assert l.segs + [] == l.segs;
  }

  /** The frame and id numbers have come round: the acknowledgement left over is taken for one of the new C_PDU. */
  lemma FalselyAcked(steps: seq<Step>, l: Link, q: bytes) returns (more: seq<Step>, l1: Link)
    requires AfterWithin(steps, ONCE, 255) == Some(l) && Quiet(l) && TwoPart(q)
    requires l.tx.cpduId == 0 && l.tx.frameSeq == 0 && |l.segs| == 256 && l.acked == 0 && l.acks == [AckIn(1, 0)]
    ensures AfterWithin(more, ONCE, 255) == Some(l1)
    ensures l1 == l.(tx := Tx([], 0, 1, None, [Frame(1, 0, false, true, Part(q, 1))]), acks := [], acked := 256,
                     cpdus := l.cpdus + [q], segs := l.segs + SegsOf(q, |l.cpdus|))
  {
    hide AfterWithin, Next, Within, Chunks, Segments;
    TwoFrames(q, 0, 0);
    SubmitWithin(l, q);
    more := Extend(steps, l, Submit(q));
    SendFirst(l, q, 200_000);
    more := Extend(more, Next(l, Submit(q), ONCE), Round(200_000));
    var a := InFlight(l, q, 200_000, 0);
    var d := DataIn(a.tx.waiting.value.frame, 256);
    LoseOnly(a.(data := [d]));
    more := Extend(more, a.(data := [d]), LoseData(0));
    assert a.(data := []) == a;
    HearsStale(a);
    more := Extend(more, a, ReceiveAck);
    l1 := a.(tx := Tx([], 0, 1, None, a.tx.segments), acks := [], acked := 256);
  }

  lemma HearsStale(l: Link)
    requires l.acks == [AckIn(1, 0)] && l.tx.waiting.Some? && l.tx.frameSeq == 0 && l.tx.segments != []
    ensures Within(l, ReceiveAck, ONCE, 255)
    ensures Next(l, ReceiveAck, ONCE) ==
      l.(tx := l.tx.(waiting := None, frameSeq := 1), acks := [], acked := Current(l))
  {
  }

  /**
    * With 255 segments passed over in a row the numbers come round, and the receiver joins the first part of one C_PDU
    * to the last part of another: for any two C_PDUs of two segments, and any fifteen of 254 segments between them.
    */
  lemma MixedDelivery(p: bytes, ps: seq<bytes>, q: bytes) returns (steps: seq<Step>)
    requires TwoPart(p) && TwoPart(q) && |ps| == 15 && Total(ps) == 254 && forall x :: x in ps ==> x != []
    ensures AfterWithin(steps, ONCE, 255).Some?
    ensures var l := AfterWithin(steps, ONCE, 255).value;
      l.cpdus == [p] + ps + [q] && l.rx.delivered == [Part(p, 0) + Part(q, 1)]
  {
    hide AfterWithin, Next, Within, Chunks, Total, SegsOf;
    steps := ToStuck(p);
    var l, l1 := Stuck(p), Stuck(p);
    steps, l := DropAll(steps, l1, ps);
    steps, l1 := FalselyAcked(steps, l, q);
    SendNext(l1, 300_000);
    steps := Extend(steps, l1, Round(300_000));
    var f := Frame(1, 0, false, true, Part(q, 1));
    var a := Next(l1, Round(300_000), ONCE);
    assert a.data == [DataIn(f, 257)] && a.rx == Rx([Part(p, 0)], 0, []) && a.got == [0];
    MixedUp(a, Part(p, 0), Part(q, 1));
    steps := Extend(steps, a, ReceiveData);
  }

  lemma MixedUp(l: Link, x: bytes, y: bytes)
    requires l.data == [DataIn(Frame(1, 0, false, true, y), 257)] && l.rx == Rx([x], 0, []) && l.got == [0]
    ensures Within(l, ReceiveData, ONCE, 255)
    ensures Next(l, ReceiveData, ONCE).rx.delivered == [x + y] && Next(l, ReceiveData, ONCE).cpdus == l.cpdus
  {
    assert [x] + [y] == [x, y] && [x, y][1..] == [y] && [y][1..] == [];
    assert Join([y]) == y + Join([]) == y;
    assert Join([x, y]) == x + Join([y]);
    assert [] + [x + y] == [x + y];
  }

  /** So the bound is tight: here 1023 bytes of one C_PDU and one byte of another are delivered as a third. */
  lemma BoundIsTight() returns (steps: seq<Step>)
    ensures AfterWithin(steps, ONCE, 255).Some?
    ensures var l := AfterWithin(steps, ONCE, 255).value;
      |l.rx.delivered| == 1 && l.rx.delivered[0] !in l.cpdus
  {
    hide AfterWithin;
    var p, q, long: bytes := seq(1024, i => 1), seq(1024, i => 2), seq(240 * 1023, i => 3);
    var ps := seq(14, i => [4]) + [long];
    TwoParts(p);
    TwoParts(q);
    Fifteen(long);
    steps := MixedDelivery(p, ps, q);
    var x := Part(p, 0) + Part(q, 1);
    assert |x| == 1024 && x[0] == 1 && x[1023] == 2;
    assert p[1023] == 1 && q[0] == 2 && |long| != 1024;
  }

  lemma TwoParts(p: bytes)
    requires |p| == 1024
    ensures TwoPart(p) && Part(p, 0) == p[..1023] && Part(p, 1) == p[1023..]
  {
    ChunkCount(p, MAX_DATA);
    ChunkAt(p, MAX_DATA, 0);
    ChunkAt(p, MAX_DATA, 1);
  }

  lemma Fifteen(long: bytes)
    requires |long| == 240 * 1023
    ensures Total(seq(14, i => [4]) + [long]) == 254
  {
    var ones := seq(14, i => [4]);
    assert (ones + [long])[..14] == ones;
    ChunkCount(long, MAX_DATA);
    assert (240 * 1023 + 1022) / 1023 == 240;
    Ones(ones);
  }

  lemma {:induction false} Ones(ps: seq<bytes>)
    requires forall i :: 0 <= i < |ps| ==> |ps[i]| == 1
    ensures Total(ps) == |ps|
    decreases |ps|
  {
    if ps != [] {
      Ones(ps[..|ps| - 1]);
      ChunkCount(ps[|ps| - 1], MAX_DATA);
    }
  }
}

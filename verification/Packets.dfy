/** The TCP packets of the modem interface: encoding, and reading them out of a byte stream. */
module Packets {
  import opened Crc
  import opened CrcDetect
  import opened Prelude
  import opened Search
  import opened Stream

  const HEADER_SIZE := 8
  const MAX_PAYLOAD := 4086

  function Preamble(): bytes { [0x49, 0x50, 0x55] }

  datatype Packet = Packet(kind: byte, payload: bytes)

  /** Sixteen bits, most significant byte first. */
  function BigEndian(v: nat): (w: bytes)
    ensures |w| == 2
  {
    [(v / 256) % 256, v % 256]
  }

  function GetBig(buf: bytes, off: nat): (v: nat)
    requires off + 2 <= |buf|
    ensures v < 0x1_0000
  {
    var hi: nat := buf[off];
    hi * 256 + buf[off + 1]
  }

  lemma BigBack(v: nat, buf: bytes, off: nat)
    requires v < 0x1_0000 && off + 2 <= |buf| && buf[off..off + 2] == BigEndian(v)
    ensures GetBig(buf, off) == v
  {
    assert buf[off] == buf[off..off + 2][0] && buf[off + 1] == buf[off..off + 2][1];
  }

  lemma BigForward(buf: bytes, off: nat)
    requires off + 2 <= |buf|
    ensures buf[off..off + 2] == BigEndian(GetBig(buf, off))
  {
  }

  function Crc16Of(data: bytes): (crc: nat)
    ensures crc < 0x1_0000
  {
    CrcFits(Crc16, 0, MessageBits(data));
    CrcOf(Crc16, data, 0)
  }

  /** The first six bytes, which the header check covers. */
  function Head(p: Packet): (h: bytes)
    ensures |h| == 6
  {
    Preamble() + [p.kind] + BigEndian(|p.payload|)
  }

  /** The payload and its check, both absent when there is no payload. */
  function Body(p: Packet): bytes {
    if p.payload == [] then [] else p.payload + BigEndian(Crc16Of(p.payload))
  }

  function PacketBytes(p: Packet): bytes {
    Head(p) + BigEndian(Crc16Of(Head(p))) + Body(p)
  }

  /** The header at the front of the buffer passes its check. */
  predicate GoodHeader(buf: bytes)
    requires |buf| >= HEADER_SIZE
  {
    GetBig(buf, 6) == Crc16Of(buf[..6])
  }

  /** The number of bytes that the header at the front announces. */
  function Announced(buf: bytes): nat
    requires |buf| >= HEADER_SIZE
  {
    var size := GetBig(buf, 4);
    HEADER_SIZE + size + if size != 0 then 2 else 0
  }

  /** The payload at the front of the buffer passes its check. */
  predicate GoodPayload(buf: bytes)
    requires |buf| >= HEADER_SIZE && |buf| >= Announced(buf)
  {
    var size := GetBig(buf, 4);
    size == 0 || GetBig(buf, 8 + size) == Crc16Of(buf[8..8 + size])
  }

  /** What the reader does at the front of its buffer. */
  function NextPacket(buf: bytes): Verdict<Packet> {
    if |buf| < 3 then Wait
    else if buf[..3] != Preamble() then Skip(1)
    else if |buf| < HEADER_SIZE then Wait
    else if !GoodHeader(buf) then Skip(3)
    else if |buf| < Announced(buf) then Wait
    else if !GoodPayload(buf) then Skip(3)
    else Take(Announced(buf), Packet(buf[3], buf[8..8 + GetBig(buf, 4)]))
  }

  lemma FrontSteady(buf: bytes, more: bytes)
    requires |buf| >= HEADER_SIZE
    ensures GoodHeader(buf + more) == GoodHeader(buf) && GetBig(buf + more, 4) == GetBig(buf, 4)
    ensures (buf + more)[..3] == buf[..3] && (buf + more)[3] == buf[3]
    ensures Announced(buf) <= |buf| ==>
      && GoodPayload(buf + more) == GoodPayload(buf)
      && (buf + more)[8..8 + GetBig(buf, 4)] == buf[8..8 + GetBig(buf, 4)]
  {
    assert (buf + more)[..6] == buf[..6];
    var size := GetBig(buf, 4);
    if Announced(buf) <= |buf| {
      assert (buf + more)[8..8 + size] == buf[8..8 + size];
    }
  }

  lemma PacketSteady(buf: bytes, more: bytes)
    ensures NextPacket(buf).Wait? || NextPacket(buf + more) == NextPacket(buf)
  {
    if |buf| >= HEADER_SIZE {
      FrontSteady(buf, more);
    } else if |buf| >= 3 {
      assert (buf + more)[..3] == buf[..3];
    }
  }

  lemma PacketsSteady()
    ensures Steady(NextPacket)
  {
    forall buf: bytes, more: bytes ensures NextPacket(buf).Wait? || NextPacket(buf + more) == NextPacket(buf) {
      PacketSteady(buf, more);
    }
  }

  // ---- Soundness and completeness of the reader ---------------------------

  /** A packet is taken only if its exact encoding, checks included, stands at the front. */
  lemma TakenIsIntact(buf: bytes)
    requires NextPacket(buf).Take?
    ensures var n, p := NextPacket(buf).n, NextPacket(buf).item; n <= |buf| && buf[..n] == PacketBytes(p)
  {
    hide MessageBits;
    var n, p := NextPacket(buf).n, NextPacket(buf).item;
    var size := GetBig(buf, 4);
    BigForward(buf, 4);
    BigForward(buf, 6);
    assert buf[..6] == buf[..3] + [buf[3]] + buf[4..6];
    assert buf[..6] == Head(p);
    if size != 0 {
      BigForward(buf, 8 + size);
      assert buf[..n] == buf[..6] + buf[6..8] + (buf[8..8 + size] + buf[8 + size..n]);
    } else {
      assert buf[..n] == buf[..6] + buf[6..8] + [];
    }
  }

  lemma HeadParts(p: Packet, rest: bytes)
    requires |p.payload| < 0x1_0000
    ensures var buf := Head(p) + BigEndian(Crc16Of(Head(p))) + rest;
      && |buf| == 8 + |rest| && buf[..3] == Preamble() && buf[3] == p.kind
      && GoodHeader(buf) && GetBig(buf, 4) == |p.payload| && buf[8..] == rest
  {
    var h := Head(p);
    var buf := h + BigEndian(Crc16Of(h)) + rest;
    assert buf[..6] == h;
    assert buf[6..8] == BigEndian(Crc16Of(h));
    BigBack(Crc16Of(h), buf, 6);
    assert h[..3] == Preamble() && h[4..6] == BigEndian(|p.payload|);
    assert buf[..3] == h[..3];
    assert buf[4..6] == h[4..6];
    BigBack(|p.payload|, buf, 4);
  }

  /** An encoded packet is recognised as it stands, whatever follows. */
  lemma EncodedTaken(p: Packet, more: bytes)
    requires |p.payload| <= MAX_PAYLOAD
    ensures |PacketBytes(p)| > 0 && NextPacket(PacketBytes(p) + more) == Take(|PacketBytes(p)|, p)
  {
    var size := |p.payload|;
    var buf := PacketBytes(p) + more;
    AppendAssoc(Head(p) + BigEndian(Crc16Of(Head(p))), Body(p), more);
    HeadParts(p, Body(p) + more);
    assert buf[8..] == Body(p) + more;
    if size != 0 {
      assert buf[8..8 + size] == buf[8..][..size] == p.payload;
      assert buf[8 + size..10 + size] == buf[8..][size..size + 2] == BigEndian(Crc16Of(p.payload));
      BigBack(Crc16Of(p.payload), buf, 8 + size);
    }
  }

  lemma EncodedIsUnit(p: Packet)
    requires |p.payload| <= MAX_PAYLOAD
    ensures Unit(NextPacket, PacketBytes(p), p)
  {
    forall more: bytes ensures NextPacket(PacketBytes(p) + more) == Take(|PacketBytes(p)|, p) {
      EncodedTaken(p, more);
    }
    EncodedTaken(p, []);
  }

  predicate AllSendable(ps: seq<Packet>) {
    forall p :: p in ps ==> |p.payload| <= MAX_PAYLOAD
  }

  function Encodings(ps: seq<Packet>): (ws: seq<bytes>)
    ensures |ws| == |ps|
  {
    seq(|ps|, i requires 0 <= i < |ps| => PacketBytes(ps[i]))
  }

  /** Reading concatenated encodings gives back exactly the packets, and goes on with what follows. */
  lemma PacketsRoundTrip(ps: seq<Packet>, tail: bytes)
    requires AllSendable(ps)
    ensures Steady(NextPacket)
    ensures var later := Run(NextPacket, tail);
      Run(NextPacket, Join(Encodings(ps)) + tail) == Outcome(ps + later.items, later.rest)
  {
    PacketsSteady();
    forall i | 0 <= i < |ps| ensures Unit(NextPacket, Encodings(ps)[i], ps[i]) {
      EncodedIsUnit(ps[i]);
    }
    UnitsParse(NextPacket, Encodings(ps), ps, tail);
  }

  /** The packets occur in the stream as intact encodings, in order and without overlap. */
  ghost predicate OccurIn(stream: bytes, ps: seq<Packet>)
    decreases |ps|
  {
    ps == [] || exists pos: nat :: At(stream, PacketBytes(ps[0]), pos) && OccurAfter(stream, pos, ps)
  }

  ghost predicate OccurAfter(stream: bytes, pos: nat, ps: seq<Packet>)
    requires ps != [] && At(stream, PacketBytes(ps[0]), pos)
    decreases |ps|, 0
  {
    OccurIn(stream[pos + |PacketBytes(ps[0])|..], ps[1..])
  }

  lemma OccurLater(stream: bytes, n: nat, ps: seq<Packet>)
    requires n <= |stream| && OccurIn(stream[n..], ps)
    ensures OccurIn(stream, ps)
  {
    hide PacketBytes;
    if ps != [] {
      var w := PacketBytes(ps[0]);
      var pos: nat :| At(stream[n..], w, pos) && OccurAfter(stream[n..], pos, ps);
      assert stream[n..][pos..pos + |w|] == stream[n + pos..n + pos + |w|];
      assert At(stream, w, n + pos);
      assert stream[n..][pos + |w|..] == stream[n + pos + |w|..];
      assert OccurAfter(stream, n + pos, ps);
    }
  }

  /** On any bytes at all, the reader returns only packets that stand intact in the stream. */
  lemma {:induction false} OnlyIntact(stream: bytes)
    requires Steady(NextPacket)
    ensures OccurIn(stream, Run(NextPacket, stream).items)
    decreases |stream|
  {
    match NextPacket(stream)
    case Wait =>
    case Skip(n) =>
      RunSkip(NextPacket, stream);
      OnlyIntact(stream[n..]);
      OccurLater(stream, n, Run(NextPacket, stream[n..]).items);
    case Take(n, p) =>
      RunTake(NextPacket, stream);
      OnlyIntact(stream[n..]);
      TakenIsIntact(stream);
      TakenOccurs(stream, n, p, Run(NextPacket, stream[n..]).items);
  }

  lemma TakenOccurs(stream: bytes, n: nat, p: Packet, later: seq<Packet>)
    requires n <= |stream| && stream[..n] == PacketBytes(p) && OccurIn(stream[n..], later)
    ensures OccurIn(stream, [p] + later)
  {
    var ps := [p] + later;
    assert ps[1..] == later;
    assert stream[0..0 + n] == stream[..n];
    assert At(stream, PacketBytes(ps[0]), 0);
    assert OccurAfter(stream, 0, ps);
  }

  // ---- Resynchronisation --------------------------------------------------

  lemma {:induction false} SkipAhead(buf: bytes, lo: nat, hi: nat)
    requires Steady(NextPacket) && lo <= hi && hi + 2 <= |buf|
    requires forall i: nat :: lo <= i < hi ==> !At(buf, Preamble(), i)
    ensures Run(NextPacket, buf[lo..]) == Run(NextPacket, buf[hi..])
    decreases hi - lo
  {
    if lo < hi {
      assert !At(buf, Preamble(), lo);
      SkipOne(buf, lo);
      SkipAhead(buf, lo + 1, hi);
    }
  }

  lemma SkipOne(buf: bytes, at: nat)
    requires Steady(NextPacket) && at + 3 <= |buf| && !At(buf, Preamble(), at)
    ensures Run(NextPacket, buf[at..]) == Run(NextPacket, buf[at + 1..])
  {
    assert buf[at..][..3] == buf[at..at + 3];
    assert buf[at..][1..] == buf[at + 1..];
    RunSkip(NextPacket, buf[at..]);
  }

  /** Leading bytes without a preamble are dropped. */
  lemma GarbageDropped(garbage: bytes, tail: bytes)
    requires Preamble() <= tail && forall i: nat :: !At(garbage, Preamble(), i)
    ensures Steady(NextPacket) && Run(NextPacket, garbage + tail) == Run(NextPacket, tail)
  {
    PacketsSteady();
    var buf, g := garbage + tail, |garbage|;
    forall i: nat | i < g ensures !At(buf, Preamble(), i) {
      GarbageAt(garbage, tail, i);
    }
    SkipAhead(buf, 0, g);
    assert buf[0..] == buf && buf[g..] == tail;
  }

  lemma GarbageAt(garbage: bytes, tail: bytes, i: nat)
    requires Preamble() <= tail && i < |garbage| && !At(garbage, Preamble(), i)
    ensures !At(garbage + tail, Preamble(), i)
  {
    var buf := garbage + tail;
    if i + 3 <= |garbage| {
      assert garbage[i..i + 3] == buf[i..i + 3];
    } else {
      assert buf[i..i + 3][|garbage| - i] == tail[0];
    }
  }

  // ---- The reader ---------------------------------------------------------

  /** One call of the reader: a packet, if there is one, and the buffer it leaves. */
  datatype Pick = Pick(packet: Option<Packet>, rest: bytes)

  /** The first packet that parsing meets. */
  function First(buf: bytes): (p: Pick)
    ensures |p.rest| <= |buf| && (p.packet.Some? ==> |p.rest| < |buf|)
    decreases |buf|
  {
    match NextPacket(buf)
    case Wait => Pick(None, buf)
    case Skip(n) => First(buf[n..])
    case Take(n, p) => Pick(Some(p), buf[n..])
  }

  lemma {:induction false} FirstIsRun(buf: bytes)
    requires Steady(NextPacket)
    ensures var f := First(buf);
      Run(NextPacket, buf) ==
        if f.packet.None? then Outcome([], f.rest)
        else Outcome([f.packet.value] + Run(NextPacket, f.rest).items, Run(NextPacket, f.rest).rest)
    decreases |buf|
  {
    if NextPacket(buf).Skip? {
      RunSkip(NextPacket, buf);
      FirstIsRun(buf[NextPacket(buf).n..]);
    } else if NextPacket(buf).Take? {
      RunTake(NextPacket, buf);
    }
  }

  lemma {:induction false} FirstAhead(buf: bytes, lo: nat, hi: nat)
    requires lo <= hi && hi + 2 <= |buf|
    requires forall i: nat :: lo <= i < hi ==> !At(buf, Preamble(), i)
    ensures First(buf[lo..]) == First(buf[hi..])
    decreases hi - lo
  {
    if lo < hi {
      assert !At(buf, Preamble(), lo);
      FirstSkips(buf, lo);
      FirstAhead(buf, lo + 1, hi);
    }
  }

  lemma FirstSkips(buf: bytes, at: nat)
    requires at + 3 <= |buf| && !At(buf, Preamble(), at)
    ensures First(buf[at..]) == First(buf[at + 1..])
  {
    assert buf[at..][..3] == buf[at..at + 3];
    assert buf[at..][1..] == buf[at + 1..];
  }

  lemma FirstFromStart(buf: bytes, hi: nat)
    requires hi + 2 <= |buf| && forall i: nat :: i < hi ==> !At(buf, Preamble(), i)
    ensures First(buf) == First(buf[hi..])
  {
    assert buf[0..] == buf;
    FirstAhead(buf, 0, hi);
  }

  lemma FrontIs(buf: bytes, idx: nat)
    requires At(buf, Preamble(), idx)
    ensures buf[idx..][..3] == Preamble()
  {
    assert buf[idx..][..3] == buf[idx..idx + 3];
  }

  lemma ShortWaits(buf: bytes)
    requires |buf| < 3
    ensures First(buf) == Pick(None, buf)
  {
  }

  /** Cutting the buffer at the first preamble changes nothing. */
  lemma CutFound(goal: Pick, buf: bytes, idx: int)
    requires goal == First(buf) && idx == Find(buf, Preamble(), 0) && idx >= 0
    ensures idx + 3 <= |buf| && goal == First(buf[idx..]) && buf[idx..][..3] == Preamble()
  {
    FindsFirst(buf, Preamble(), 0);
    FirstFromStart(buf, idx);
    FrontIs(buf, idx);
  }

  /** Without a preamble only the last two bytes are worth keeping. */
  lemma CutAll(goal: Pick, buf: bytes)
    requires goal == First(buf) && Find(buf, Preamble(), 0) == -1
    ensures goal == Pick(None, if |buf| <= 2 then buf else buf[|buf| - 2..])
  {
    FindsFirst(buf, Preamble(), 0);
    if |buf| > 2 {
      FirstFromStart(buf, |buf| - 2);
      ShortWaits(buf[|buf| - 2..]);
    } else {
      ShortWaits(buf);
    }
  }

  lemma BadSkips(goal: Pick, buf: bytes)
    requires |buf| >= HEADER_SIZE && buf[..3] == Preamble() && goal == First(buf)
    requires !GoodHeader(buf) || (|buf| >= Announced(buf) && !GoodPayload(buf))
    ensures goal == First(buf[3..])
  {
  }

  class PacketReader {
    var buf: bytes

    constructor ()
      ensures buf == []
    {
      buf := [];
    }

    method Reset()
      modifies this
      ensures buf == []
    {
      buf := [];
    }

    method Feed(data: bytes)
      modifies this
      ensures buf == old(buf) + data
    {
      buf := buf + data;
    }

    /** The next complete packet, or nothing. */
    method Read() returns (r: Option<Packet>)
      modifies this
      ensures Pick(r, buf) == First(old(buf))
    {
      hide Find;
      ghost var goal := First(buf);
      while true
        invariant goal == First(buf)
        decreases |buf|
      {
        var idx := Find(buf, Preamble(), 0);
        if idx < 0 {
          CutAll(goal, buf);
          var keep := if |buf| < 2 then |buf| else 2;
          if |buf| > keep { buf := buf[|buf| - keep..]; }
          return None;
        }
        CutFound(goal, buf, idx);
        buf := buf[idx..];
        if |buf| < HEADER_SIZE { return None; }
        if GetBig(buf, 6) != Crc16Of(buf[..6]) {
          BadSkips(goal, buf);
          buf := buf[3..];
          continue;
        }
        var kind := buf[3];
        var size := GetBig(buf, 4);
        var total := HEADER_SIZE + size + if size != 0 then 2 else 0;
        if |buf| < total { return None; }
        var payload := [];
        if size != 0 {
          payload := buf[HEADER_SIZE..HEADER_SIZE + size];
          if GetBig(buf, HEADER_SIZE + size) != Crc16Of(payload) {
            BadSkips(goal, buf);
            buf := buf[3..];
            continue;
          }
        }
        assert payload == buf[8..8 + size];
        buf := buf[total..];
        return Some(Packet(kind, payload));
      }
    }

    /** Every complete packet in the buffer. */
    method ReadAll() returns (out: seq<Packet>)
      modifies this
      ensures Steady(NextPacket) && Outcome(out, buf) == Run(NextPacket, old(buf))
    {
      PacketsSteady();
      out := [];
      ghost var b := buf;
      while true
        invariant Owes(b, out, buf)
        decreases |buf|
      {
        ghost var before := buf;
        var r := Read();
        OwesOn(b, out, before, r, buf);
        if r.None? { return; }
        out := out + [r.value];
      }
    }
  }

  /** What has been read, and what the buffer still owes, together are what parsing the whole gives. */
  ghost predicate Owes(all: bytes, out: seq<Packet>, buf: bytes)
    requires Steady(NextPacket)
  {
    Run(NextPacket, all) == Outcome(out + Run(NextPacket, buf).items, Run(NextPacket, buf).rest)
  }

  lemma OwesOn(all: bytes, out: seq<Packet>, before: bytes, r: Option<Packet>, buf: bytes)
    requires Steady(NextPacket) && Owes(all, out, before) && Pick(r, buf) == First(before)
    ensures r.Some? ==> Owes(all, out + [r.value], buf) && |buf| < |before|
    ensures r.None? ==> Run(NextPacket, all) == Outcome(out, buf)
  {
    FirstIsRun(before);
    if r.Some? {
      MoveOne(out, r.value, Run(NextPacket, buf).items);
    } else {
      assert out + [] == out;
    }
  }
}

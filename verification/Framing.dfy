/** Finding D_PDUs in a byte stream: wire size, one-shot splitting, and incremental reassembly. */
module Framing {
  import opened Dpdu
  import opened DpduCodec
  import opened DpduCodecProof
  import opened Prelude
  import opened Search
  import opened Stream

  /** The type nibbles of D_PDUs that carry user data with its own check. */
  predicate CarriesData(code: nat) {
    code == 0 || code == 2 || code == 4 || code == 7 || code == 8
  }

  function WireSize(stream: bytes, offset: nat): (r: Result<nat, string>)
    ensures r.Ok? ==> r.value >= 2
  {
    if |stream| < offset + 8 then Err("Stream too short to hold a D_PDU")
    else if stream[offset..offset + 2] != Sync() then Err("Sync not found")
    else
      var hdr, adr := stream[offset + 5] % 32, stream[offset + 5] / 32;
      var payload := 2 + hdr + adr;
      if CarriesData(stream[offset + 2] / 16) then
        var ts := offset + 6 + adr;
        if |stream| < ts + 2 then Err("Stream too short to read the data length")
        else Ok(payload + Word(stream[ts] % 4, stream[ts + 1]) + 4)
      else Ok(payload)
  }

  /** What the reassembler does at the front of its buffer. */
  function NextFrame(buf: bytes): Verdict<bytes> {
    if |buf| < 2 then Wait
    else if buf[..2] != Sync() then Skip(1)
    else
      match WireSize(buf, 0)
      case Err(_) => Wait
      case Ok(size) => if size > |buf| then Wait else Take(size, buf[..size])
  }

  lemma WireSizeSteady(buf: bytes, more: bytes)
    requires WireSize(buf, 0).Ok?
    ensures WireSize(buf + more, 0) == WireSize(buf, 0)
  {
    assert (buf + more)[0..2] == buf[0..2];
  }

  lemma FramesSteady()
    ensures Steady(NextFrame)
  {
    forall buf: bytes, more: bytes ensures NextFrame(buf).Wait? || NextFrame(buf + more) == NextFrame(buf) {
      FrameSteady(buf, more);
    }
  }

  lemma FrameSteady(buf: bytes, more: bytes)
    ensures NextFrame(buf).Wait? || NextFrame(buf + more) == NextFrame(buf)
  {
    if |buf| >= 2 {
      assert (buf + more)[..2] == buf[..2];
      if WireSize(buf, 0).Ok? {
        WireSizeSteady(buf, more);
        var size := WireSize(buf, 0).value;
        assert size <= |buf| ==> (buf + more)[..size] == buf[..size];
      }
    }
  }

  // ---- Encoded frames -----------------------------------------------------

  lemma TypeCarriesData(t: DpduType)
    ensures CarriesData(TypeCode(t)) <==> HasDataCrc(t)
  {
  }

  /** The data length that the framing reads from the first two type-specific bytes. */
  lemma DataLengthAt(d: Dpdu)
    requires Encodable(d) && HasDataCrc(d.kind)
    ensures var t := SpecificBytes(d); |t| >= 2 && Word(t[0] % 4, t[1]) == |d.userData|
  {
    var t := SpecificBytes(d);
    SpecificBack(d);
    assert ParseSpecific(d.kind, t).value.dataLen == |d.userData|;
  }

  /** Where the framing looks, relative to the start of an encoded D_PDU. */
  lemma WirePeek(d: Dpdu)
    requires Encodable(d)
    ensures var w, a, t := Wire(d), d.address.size, SpecificBytes(d);
      && |w| == 8 + a + |t| + |Payload(d)| && w[..2] == Sync()
      && w[2] / 16 == TypeCode(d.kind) && w[5] / 32 == a && w[5] % 32 == 6 + |t|
      && (|t| >= 2 ==> w[6 + a] == t[0] && w[7 + a] == t[1])
  {
    var w, t, a := Wire(d), SpecificBytes(d), d.address.size;
    var c := CrcDetect.ToWire(Crc.Crc16, Crc.CrcOf(Crc.Crc16, Header(d, t), 0));
    FrameParts(Common(d, t), EncodeAddress(d.address), t, c, Payload(d), w);
    CommonBack(d, t);
    assert w[6 + a..6 + a + |t|] == t;
  }

  /** The framing reads the exact length of an encoded D_PDU, whatever stands before and after it. */
  lemma WireSizeExact(before: bytes, d: Dpdu, after: bytes)
    requires Encodable(d)
    ensures WireSize(before + Wire(d) + after, |before|) == Ok(|Wire(d)|)
  {
    hide WireSize, CheckPayload;
    WirePeek(d);
    TypeCarriesData(d.kind);
    if HasDataCrc(d.kind) { DataLengthAt(d); }
    WireSizeInside(before, Wire(d), after, d.address.size);
  }

  /** A frame is measured from its own bytes only. */
  lemma WireSizeInside(before: bytes, w: bytes, after: bytes, a: nat)
    requires |w| >= 8 && w[..2] == Sync() && a == w[5] / 32
    requires CarriesData(w[2] / 16) ==> |w| >= a + 8
    ensures WireSize(before + w + after, |before|)
         == Ok(2 + w[5] % 32 + a + if CarriesData(w[2] / 16) then Word(w[6 + a] % 4, w[7 + a]) + 4 else 0)
  {
    var s, o := before + w + after, |before|;
    assert s[o..o + 2] == w[..2];
  }

  lemma EncodedIsUnit(d: Dpdu)
    requires Encodable(d)
    ensures Unit(NextFrame, Wire(d), Wire(d))
  {
    forall more: bytes ensures NextFrame(Wire(d) + more) == Take(|Wire(d)|, Wire(d)) {
      FrameAtFront(d, more);
    }
    FrameAtFront(d, []);
  }

  lemma FrameAtFront(d: Dpdu, more: bytes)
    requires Encodable(d)
    ensures |Wire(d)| > 0 && NextFrame(Wire(d) + more) == Take(|Wire(d)|, Wire(d))
  {
    WireSizeExact([], d, more);
    WholeFrame(Wire(d), more);
  }

  lemma WholeFrame(w: bytes, more: bytes)
    requires WireSize([] + w + more, 0) == Ok(|w|)
    ensures |w| > 0 && NextFrame(w + more) == Take(|w|, w)
  {
    assert [] + w + more == w + more;
    assert (w + more)[..|w|] == w;
    assert (w + more)[0..2] == (w + more)[..2];
  }

  predicate AllEncodable(ds: seq<Dpdu>) {
    forall d :: d in ds ==> Encodable(d)
  }

  /** The bytes of a list of D_PDUs. */
  function Wires(ds: seq<Dpdu>): (ws: seq<bytes>)
    requires AllEncodable(ds)
    ensures |ws| == |ds|
  {
    seq(|ds|, i requires 0 <= i < |ds| => Wire(ds[i]))
  }

  /** A run of encoded D_PDUs is cut into exactly those D_PDUs; whatever follows is handled on its own. */
  lemma EncodedRun(ds: seq<Dpdu>, tail: bytes)
    requires AllEncodable(ds)
    ensures Steady(NextFrame)
    ensures var later := Run(NextFrame, tail);
      Run(NextFrame, Join(Wires(ds)) + tail) == Outcome(Wires(ds) + later.items, later.rest)
  {
    FramesSteady();
    forall i | 0 <= i < |ds| ensures Unit(NextFrame, Wires(ds)[i], Wires(ds)[i]) {
      EncodedIsUnit(ds[i]);
    }
    UnitsParse(NextFrame, Wires(ds), Wires(ds), tail);
  }

  // ---- Resynchronisation --------------------------------------------------

  /** Skipping ahead over positions without a sync, one byte or many at a time. */
  lemma {:induction false} SkipAhead(buf: bytes, lo: nat, hi: nat)
    requires Steady(NextFrame) && lo <= hi < |buf|
    requires forall i: nat :: lo <= i < hi ==> !At(buf, Sync(), i)
    ensures Run(NextFrame, buf[lo..]) == Run(NextFrame, buf[hi..])
    decreases hi - lo
  {
    if lo < hi {
      assert !At(buf, Sync(), lo);
      assert buf[lo..][..2] == buf[lo..lo + 2];
      assert buf[lo..][1..] == buf[lo + 1..];
      SkipAhead(buf, lo + 1, hi);
    }
  }

  /** Leading bytes without a sync are dropped, and what follows is read as if they had never been there. */
  lemma GarbageDropped(garbage: bytes, tail: bytes)
    requires Sync() <= tail
    requires forall i: nat :: !At(garbage, Sync(), i)
    ensures Steady(NextFrame) && Run(NextFrame, garbage + tail) == Run(NextFrame, tail)
  {
    FramesSteady();
    var buf, g := garbage + tail, |garbage|;
    forall i: nat | i < g ensures !At(buf, Sync(), i) {
      GarbageAt(garbage, tail, i);
    }
    SkipAhead(buf, 0, g);
    assert buf[0..] == buf && buf[g..] == tail;
  }

  lemma GarbageAt(garbage: bytes, tail: bytes, i: nat)
    requires Sync() <= tail && i < |garbage| && !At(garbage, Sync(), i)
    ensures !At(garbage + tail, Sync(), i)
  {
    var buf := garbage + tail;
    if i + 2 <= |garbage| {
      assert garbage[i..i + 2] == buf[i..i + 2];
    } else {
      assert buf[i..i + 2][1] == tail[0];
    }
  }

  // ---- One-shot splitting -------------------------------------------------

  /** What the one-shot splitter returns: it steps over a sync whose header it cannot read. */
  function Split(s: bytes): seq<bytes>
    decreases |s|
  {
    if s == [] then []
    else if !At(s, Sync(), 0) then Split(s[1..])
    else
      match WireSize(s, 0)
      case Err(_) => Split(s[1..])
      case Ok(size) => if size > |s| then [] else [s[..size]] + Split(s[size..])
  }

  lemma SplitSkips(buf: bytes)
    requires NextFrame(buf).Skip?
    ensures NextFrame(buf).n == 1 && Split(buf) == Split(buf[1..])
  {
    assert buf[..2] == buf[0..2];
  }

  lemma SplitTakes(buf: bytes)
    requires NextFrame(buf).Take?
    ensures Split(buf) == [NextFrame(buf).item] + Split(buf[NextFrame(buf).n..])
  {
    assert buf[..2] == buf[0..2];
  }

  /** The splitter finds what the reassembler finds, and then whatever it can salvage from the residue. */
  lemma {:induction false} SplitAfterRun(buf: bytes)
    requires Steady(NextFrame)
    ensures Split(buf) == Run(NextFrame, buf).items + Split(Run(NextFrame, buf).rest)
    decreases |buf|
  {
    match NextFrame(buf)
    case Wait => assert [] + Split(buf) == Split(buf);
    case Skip(n) =>
      SplitSkips(buf);
      RunSkip(NextFrame, buf);
      SplitAfterRun(buf[1..]);
    case Take(n, item) =>
      SplitTakes(buf);
      RunTake(NextFrame, buf);
      SplitAfterRun(buf[n..]);
      var later := Run(NextFrame, buf[n..]);
      AppendAssoc([item], later.items, Split(later.rest));
  }

  /** Splitting a concatenation of encoded D_PDUs gives the D_PDUs. */
  lemma SplitEncoded(ds: seq<Dpdu>)
    requires AllEncodable(ds)
    ensures Split(Join(Wires(ds))) == Wires(ds)
  {
    EncodedRun(ds, []);
    assert Join(Wires(ds)) + [] == Join(Wires(ds));
    SplitAfterRun(Join(Wires(ds)));
    assert Wires(ds) + [] == Wires(ds);
  }

  lemma WireSizeShift(s: bytes, pos: nat)
    requires pos <= |s|
    ensures WireSize(s, pos).Ok? == WireSize(s[pos..], 0).Ok?
    ensures WireSize(s, pos).Ok? ==> WireSize(s, pos) == WireSize(s[pos..], 0)
  {
    if |s| >= pos + 8 {
      assert s[pos..][0..2] == s[pos..pos + 2];
    }
  }

  /** Splitting on from a position, with D_PDUs already found. */
  function SplitFrom(done: seq<bytes>, s: bytes, pos: nat): seq<bytes>
    decreases |s| - pos
  {
    if pos >= |s| then done
    else if !At(s, Sync(), pos) then SplitFrom(done, s, pos + 1)
    else
      match WireSize(s, pos)
      case Err(_) => SplitFrom(done, s, pos + 1)
      case Ok(size) =>
        if pos + size > |s| then done else SplitFrom(done + [s[pos..pos + size]], s, pos + size)
  }

  lemma {:induction false} SplitFromIsSplit(done: seq<bytes>, s: bytes, pos: nat)
    requires pos <= |s|
    ensures SplitFrom(done, s, pos) == done + Split(s[pos..])
    decreases |s| - pos, 1
  {
    hide WireSize;
    var t := s[pos..];
    WireSizeShift(s, pos);
    if pos == |s| {
    } else if !At(s, Sync(), pos) || WireSize(s, pos).Err? {
      assert pos + 2 <= |s| ==> t[0..2] == s[pos..pos + 2];
      assert t[1..] == s[pos + 1..];
      SplitFromIsSplit(done, s, pos + 1);
    } else {
      var size := WireSize(s, pos).value;
      assert t[0..2] == s[pos..pos + 2];
      if pos + size <= |s| { SplitOne(done, s, pos, size); }
    }
  }

  /** The case of a complete D_PDU. */
  lemma {:induction false} SplitOne(done: seq<bytes>, s: bytes, pos: nat, size: nat)
    requires pos + size <= |s| && size > 0
    ensures SplitFrom(done + [s[pos..pos + size]], s, pos + size) ==
        done + ([s[pos..][..size]] + Split(s[pos..][size..]))
    decreases |s| - pos, 0
  {
    hide SplitFrom, Split;
    var t := s[pos..];
    SplitFromIsSplit(done + [s[pos..pos + size]], s, pos + size);
    assert t[..size] == s[pos..pos + size] && t[size..] == s[pos + size..];
    MoveOne(done, t[..size], Split(t[size..]));
  }

  lemma {:induction false} SplitAhead(done: seq<bytes>, s: bytes, lo: nat, hi: nat)
    requires lo <= hi <= |s|
    requires forall i: nat :: lo <= i < hi ==> !At(s, Sync(), i)
    ensures SplitFrom(done, s, lo) == SplitFrom(done, s, hi)
    decreases hi - lo
  {
    if lo < hi { SplitAhead(done, s, lo + 1, hi); }
  }

  /** Jumping to the next sync, or to the end when there is none, splits nothing off. */
  lemma SplitFind(done: seq<bytes>, s: bytes, pos: nat)
    requires pos < |s| && !At(s, Sync(), pos)
    ensures var nxt := Find(s, Sync(), pos + 1);
      && SplitFrom(done, s, pos) == SplitFrom(done, s, if nxt == -1 then |s| else nxt)
      && (nxt != -1 ==> At(s, Sync(), nxt))
  {
    var nxt := Find(s, Sync(), pos + 1);
    FindsFirst(s, Sync(), pos + 1);
    SplitAhead(done, s, pos, if nxt == -1 then |s| else nxt);
  }

  lemma SplitTake(goal: seq<bytes>, done: seq<bytes>, s: bytes, pos: nat, size: nat)
    requires At(s, Sync(), pos) && goal == SplitFrom(done, s, pos)
    requires WireSize(s, pos) == Ok(size) && pos + size <= |s|
    ensures goal == SplitFrom(done + [s[pos..pos + size]], s, pos + size)
  {
  }

  /** Where the splitter goes from a sync whose D_PDU cannot be measured or is not complete. */
  lemma SplitStop(done: seq<bytes>, s: bytes, pos: nat)
    requires pos < |s| && At(s, Sync(), pos)
    ensures WireSize(s, pos).Err? ==> SplitFrom(done, s, pos) == SplitFrom(done, s, pos + 1)
    ensures WireSize(s, pos).Ok? && pos + WireSize(s, pos).value > |s| ==> SplitFrom(done, s, pos) == done
  {
  }

  lemma SplitEnd(done: seq<bytes>, s: bytes)
    ensures SplitFrom(done, s, |s|) == done
  {
  }

  lemma SplitWhole(s: bytes)
    ensures SplitFrom([], s, 0) == Split(s)
  {
    SplitFromIsSplit([], s, 0);
    assert s[0..] == s && [] + Split(s) == Split(s);
  }

  method SplitStream(stream: bytes) returns (result: seq<bytes>)
    ensures result == Split(stream)
  {
    hide SplitFrom, Split, WireSize, At, Find;
    result := [];
    var pos := 0;
    var length := |stream|;
    ghost var goal := SplitFrom([], stream, 0);
    while pos < length
      invariant 0 <= pos <= length
      invariant goal == SplitFrom(result, stream, pos)
      decreases length - pos
    {
      if !At(stream, Sync(), pos) {
        var nextSync := Find(stream, Sync(), pos + 1);
        SplitFind(result, stream, pos);
        if nextSync == -1 {
          pos := length;
          break;
        }
        pos := nextSync;
      }
      SplitStop(result, stream, pos);
      var size := WireSize(stream, pos);
      if size.Err? {
        pos := pos + 1;
        continue;
      }
      if pos + size.value > length {
        break;
      }
      SplitTake(goal, result, stream, pos, size.value);
      result := result + [stream[pos..pos + size.value]];
      pos := pos + size.value;
    }
    SplitEnd(result, stream);
    SplitWhole(stream);
  }

  // ---- Incremental reassembly ---------------------------------------------

  /** Draining on from a position, with D_PDUs already found. */
  function DrainFrom(done: seq<bytes>, b: bytes, pos: nat): Outcome<bytes>
    requires pos <= |b|
    decreases |b| - pos
  {
    if pos + 2 > |b| then Outcome(done, b[pos..])
    else if !At(b, Sync(), pos) then DrainFrom(done, b, pos + 1)
    else
      match WireSize(b, pos)
      case Err(_) => Outcome(done, b[pos..])
      case Ok(size) =>
        if pos + size > |b| then Outcome(done, b[pos..]) else DrainFrom(done + [b[pos..pos + size]], b, pos + size)
  }

  /** One round of the drain does what the parser decides. */
  lemma DrainStep(done: seq<bytes>, b: bytes, pos: nat)
    requires pos <= |b|
    ensures match NextFrame(b[pos..])
      case Wait => DrainFrom(done, b, pos) == Outcome(done, b[pos..])
      case Skip(n) => 1 <= n && pos + n <= |b| && b[pos..][n..] == b[pos + n..]
        && DrainFrom(done, b, pos) == DrainFrom(done, b, pos + n)
      case Take(n, item) =>
        1 <= n && pos + n <= |b| && b[pos..][n..] == b[pos + n..]
        && DrainFrom(done, b, pos) == DrainFrom(done + [item], b, pos + n)
  {
    var s := b[pos..];
    WireSizeShift(b, pos);
    hide WireSize;
    assert pos + 2 <= |b| ==> s[..2] == b[pos..pos + 2];
    if NextFrame(s).Take? {
      assert s[..NextFrame(s).n] == b[pos..pos + NextFrame(s).n];
    }
  }

  lemma {:induction false} DrainFromIsRun(done: seq<bytes>, b: bytes, pos: nat)
    requires Steady(NextFrame) && pos <= |b|
    ensures DrainFrom(done, b, pos) == Behind(done, Run(NextFrame, b[pos..]))
    decreases |b| - pos
  {
    hide *;
    var s := b[pos..];
    DrainStep(done, b, pos);
    match NextFrame(s)
    case Wait =>
      RunWait(NextFrame, s);
      BehindNone(done, s);
    case Skip(n) =>
      RunSkip(NextFrame, s);
      DrainFromIsRun(done, b, pos + n);
    case Take(n, item) =>
      RunTake(NextFrame, s);
      DrainFromIsRun(done + [item], b, pos + n);
      BehindOne(done, item, Run(NextFrame, s[n..]));
  }

  /** What a run gives, behind D_PDUs already found. */
  function Behind(done: seq<bytes>, run: Outcome<bytes>): Outcome<bytes> {
    Outcome(done + run.items, run.rest)
  }

  lemma BehindNone(done: seq<bytes>, rest: bytes)
    ensures Behind(done, Outcome([], rest)) == Outcome(done, rest)
  {
    assert done + [] == done;
  }

  lemma BehindOne(done: seq<bytes>, item: bytes, later: Outcome<bytes>)
    ensures Behind(done + [item], later) == Behind(done, Outcome([item] + later.items, later.rest))
  {
    MoveOne(done, item, later.items);
  }

  /** Draining computes what the parser computes. */
  lemma DrainIsRun(b: bytes)
    ensures Steady(NextFrame) && DrainFrom([], b, 0) == Run(NextFrame, b)
  {
    FramesSteady();
    DrainFromIsRun([], b, 0);
    assert b[0..] == b;
    assert [] + Run(NextFrame, b).items == Run(NextFrame, b).items;
  }

  lemma {:induction false} DrainAhead(done: seq<bytes>, b: bytes, lo: nat, hi: nat)
    requires lo <= hi < |b|
    requires forall i: nat :: lo <= i < hi ==> !At(b, Sync(), i)
    ensures DrainFrom(done, b, lo) == DrainFrom(done, b, hi)
    decreases hi - lo
  {
    if lo < hi { DrainAhead(done, b, lo + 1, hi); }
  }

  /** Jumping to the next sync, or to the last byte when there is none, skips nothing that could be a D_PDU. */
  lemma DrainFind(done: seq<bytes>, b: bytes, pos: nat)
    requires pos < |b| && !At(b, Sync(), pos)
    ensures var nxt := Find(b, Sync(), pos + 1);
      && DrainFrom(done, b, pos) == DrainFrom(done, b, if nxt == -1 then |b| - 1 else nxt)
      && (nxt != -1 ==> At(b, Sync(), nxt))
  {
    var nxt := Find(b, Sync(), pos + 1);
    FindsFirst(b, Sync(), pos + 1);
    DrainAhead(done, b, pos, if nxt == -1 then |b| - 1 else nxt);
  }

  /** Nothing more can be taken off at a sync whose D_PDU is not complete. */
  lemma DrainStop(done: seq<bytes>, b: bytes, pos: nat)
    requires pos < |b| && At(b, Sync(), pos)
    requires var size := WireSize(b[pos..], 0); |b| - pos < 8 || size.Err? || pos + size.value > |b|
    ensures DrainFrom(done, b, pos) == Outcome(done, b[pos..])
  {
    WireSizeShift(b, pos);
  }

  lemma DrainEnd(done: seq<bytes>, b: bytes, pos: nat)
    requires pos <= |b| < pos + 2
    ensures DrainFrom(done, b, pos) == Outcome(done, b[pos..])
  {
  }

  lemma DrainTake(goal: Outcome<bytes>, done: seq<bytes>, b: bytes, pos: nat, size: nat)
    requires pos < |b| && At(b, Sync(), pos) && goal == DrainFrom(done, b, pos)
    requires WireSize(b[pos..], 0) == Ok(size) && pos + size <= |b|
    ensures goal == DrainFrom(done + [b[pos..pos + size]], b, pos + size)
  {
    hide NextFrame;
    WireSizeShift(b, pos);
  }

  class DpduReassembler {
    var buf: bytes

    constructor ()
      ensures buf == []
    {
      buf := [];
    }

    method Reset()
      modifies this
      ensures buf == []
    {
      buf := [];
    }

    /** Adds bytes and returns the D_PDUs that they complete. */
    method Feed(data: bytes) returns (out: seq<bytes>)
      modifies this
      ensures Steady(NextFrame) && Outcome(out, buf) == Run(NextFrame, old(buf) + data)
    {
      buf := buf + data;
      DrainIsRun(buf);
      out := Drain();
    }

    method Drain() returns (out: seq<bytes>)
      modifies this
      ensures DrainFrom([], old(buf), 0) == Outcome(out, buf)
    {
      hide DrainFrom;
      var pos;
      out, pos := Scan(buf);
      assert buf[0..] == buf;
      if pos != 0 { buf := buf[pos..]; }
    }

    /** The loop of the drain: the D_PDUs found, and how much of the buffer is done with. */
    static method Scan(b: bytes) returns (out: seq<bytes>, pos: nat)
      ensures pos <= |b| && DrainFrom([], b, 0) == Outcome(out, b[pos..])
    {
      hide DrainFrom, WireSize, At, Find;
      out, pos := [], 0;
      var length := |b|;
      ghost var goal := DrainFrom([], b, 0);
      while pos < length
        invariant 0 <= pos <= length
        invariant goal == DrainFrom(out, b, pos)
        decreases length - pos
      {
        if !At(b, Sync(), pos) {
          var nxt := Find(b, Sync(), pos + 1);
          DrainFind(out, b, pos);
          if nxt == -1 {
            pos := length - 1;
            break;
          }
          pos := nxt;
        }
        var size := WireSize(b[pos..], 0);
        if length - pos < 8 || size.Err? || pos + size.value > length {
          DrainStop(out, b, pos);
          break;
        }
        DrainTake(goal, out, b, pos, size.value);
        out := out + [b[pos..pos + size.value]];
        pos := pos + size.value;
      }
      if pos + 2 > length { DrainEnd(out, b, pos); }
    }
  }
}

/** The reliable connection-oriented client: its segments, and their reassembly by number. */
module Rcop {
  import opened Bits
  import opened Chunking
  import opened Prelude
  import opened Packets

  const HEADER_SIZE := 6
  const MAX_APP_DATA := 2042

  datatype Pdu = Pdu(connectionId: nat, upduId: nat, segment: nat, appId: nat, data: bytes)

  /** The field ranges that the program checks when a PDU is made. */
  predicate InRange(p: Pdu) {
    p.connectionId < 16 && p.upduId < 256 && p.segment < 0x1_0000 && p.appId < 0x1_0000
  }

  // ---- Wire format --------------------------------------------------------

  function Encode(p: Pdu): bytes
    requires InRange(p)
  {
    [p.connectionId * 16, p.upduId] + BigEndian(p.segment) + BigEndian(p.appId) + p.data
  }

  function Decode(raw: bytes): Result<Pdu, string> {
    if |raw| < HEADER_SIZE then Err("RCOP PDU truncated")
    else Ok(Pdu(raw[0] / 16, raw[1], GetBig(raw, 2), GetBig(raw, 4), raw[HEADER_SIZE..]))
  }

  lemma RoundTrip(p: Pdu)
    requires InRange(p)
    ensures Decode(Encode(p)) == Ok(p)
  {
    var raw := Encode(p);
    assert raw[2..4] == BigEndian(p.segment) && raw[4..6] == BigEndian(p.appId);
    BigBack(p.segment, raw, 2);
    BigBack(p.appId, raw, 4);
  }

  /** A decoded PDU encodes to the same bytes exactly when its reserved bits were clear. */
  lemma ReencodedIff(raw: bytes)
    requires Decode(raw).Ok?
    ensures InRange(Decode(raw).value)
    ensures Encode(Decode(raw).value) == raw <==> raw[0] % 16 == 0
  {
    BigForward(raw, 2);
    BigForward(raw, 4);
    var again := Encode(Decode(raw).value);
    assert raw == [raw[0], raw[1]] + raw[2..4] + raw[4..6] + raw[6..];
    assert again[0] == raw[0] / 16 * 16;
  }

  // ---- Segmentation -------------------------------------------------------

  /** The PDUs of a message: one empty one for an empty message. */
  function Segments(conn: nat, updu: nat, app: nat, p: bytes): (s: seq<Pdu>)
    ensures s != []
  {
    if p == [] then [Pdu(conn, updu, 0, app, [])]
    else
      seq(|Chunks(p, MAX_APP_DATA)|, i requires 0 <= i < |Chunks(p, MAX_APP_DATA)| =>
        Pdu(conn, updu, i, app, Chunks(p, MAX_APP_DATA)[i]))
  }

  /** The message needs more segments than the program allows. */
  predicate TooLong(p: bytes) {
    |Chunks(p, MAX_APP_DATA)| > 65535
  }

  lemma TooLongIff(p: bytes)
    ensures TooLong(p) <==> |p| > 65535 * 2042
  {
    ChunkCount(p, MAX_APP_DATA);
  }

  method BuildSegments(conn: nat, updu: nat, app: nat, p: bytes) returns (r: Result<seq<bytes>, string>)
    ensures r.Ok? <==> conn < 16 && updu < 256 && app < 0x1_0000 && |p| <= 65535 * 2042
    ensures r.Ok? ==> |r.value| == |Segments(conn, updu, app, p)|
    ensures r.Ok? ==> forall i :: 0 <= i < |r.value| ==> Decode(r.value[i]) == Ok(Segments(conn, updu, app, p)[i])
  {
    hide Chunks, Decode, Encode;
    TooLongIff(p);
    if conn >= 16 || updu >= 256 || app >= 0x1_0000 { return Err("RCOP field out of range"); }
    ghost var goal := Segments(conn, updu, app, p);
    if p == [] {
      RoundTrip(Pdu(conn, updu, 0, app, []));
      return Ok([Encode(Pdu(conn, updu, 0, app, []))]);
    }
    var segs: seq<bytes> := [];
    var offset := 0;
    while offset < |p|
      invariant |segs| <= |goal| && |segs| <= 65535
      invariant offset == if |segs| < |goal| then |segs| * MAX_APP_DATA else |p|
      invariant forall i :: 0 <= i < |segs| ==> Decode(segs[i]) == Ok(goal[i])
      decreases |p| - offset
    {
      ChunkEnds(p, |segs|);
      var end := if offset + MAX_APP_DATA < |p| then offset + MAX_APP_DATA else |p|;
      RoundTrip(Pdu(conn, updu, |segs|, app, p[offset..end]));
      segs := segs + [Encode(Pdu(conn, updu, |segs|, app, p[offset..end]))];
      if |segs| > 65535 { return Err("too many RCOP segments"); }
      offset := end;
    }
    if |segs| < |goal| { ChunkEnds(p, |segs|); }
    return Ok(segs);
  }

  lemma ChunkEnds(p: bytes, i: nat)
    requires i < |Chunks(p, MAX_APP_DATA)|
    ensures var at := i * MAX_APP_DATA;
      var end := if at + MAX_APP_DATA < |p| then at + MAX_APP_DATA else |p|;
      && at < |p| && Chunks(p, MAX_APP_DATA)[i] == p[at..end]
      && end == if i + 1 < |Chunks(p, MAX_APP_DATA)| then (i + 1) * MAX_APP_DATA else |p|
  {
    ChunkAt(p, MAX_APP_DATA, i);
    ChunksPartition(p, MAX_APP_DATA);
  }

  /** A message whose last segment can be told from the others. */
  predicate EndsShort(p: bytes) {
    p == [] || |p| % 2042 != 0
  }

  /** Only the last segment can be short, and it is so exactly when the length is not a multiple of the segment size. */
  lemma ShortIff(conn: nat, updu: nat, app: nat, p: bytes, i: nat)
    requires i < |Segments(conn, updu, app, p)|
    ensures var s := Segments(conn, updu, app, p);
      && s[i].segment == i
      && (|s[i].data| < MAX_APP_DATA <==> i + 1 == |s| && EndsShort(p))
  {
    if p != [] {
      ChunkAt(p, MAX_APP_DATA, i);
      ChunksPartition(p, MAX_APP_DATA);
      var c := Chunks(p, MAX_APP_DATA)[i];
      if i + 1 == |Chunks(p, MAX_APP_DATA)| {
        if |c| < MAX_APP_DATA { Remainder(|p|, i, |c|); } else { Remainder(|p|, i + 1, 0); }
      }
    }
  }

  lemma Remainder(x: nat, q: nat, m: nat)
    requires m < MAX_APP_DATA && x == q * MAX_APP_DATA + m
    ensures x % MAX_APP_DATA == m
  {
    DivIs(x, MAX_APP_DATA, q, m);
  }

  // ---- Reassembly ---------------------------------------------------------

  /** Source address and access point, connection and message id. */
  type Key = (int, int, nat, nat)

  /** An application id and data: of one segment, or of a whole message. */
  datatype Part = Part(appId: nat, data: bytes)

  /** The segments of one message received so far. */
  type Buffer = map<nat, Part>

  /** The segments held are the first ones of the message, none missing. */
  ghost predicate Whole(b: Buffer) {
    forall i :: 0 <= i < |b| ==> i in b
  }

  function Assembled(b: Buffer, n: nat): bytes
    requires forall i :: 0 <= i < n ==> i in b
  {
    if n == 0 then [] else Assembled(b, n - 1) + b[n - 1].data
  }

  datatype Outcome = Outcome(buffers: map<Key, Buffer>, message: Option<Part>)

  /** What a segment does: completeness is looked into only when it is a short one. */
  ghost function OnSegment(buffers: map<Key, Buffer>, key: Key, p: Pdu): Outcome {
    if p.segment == 0 && |p.data| < MAX_APP_DATA then Outcome(buffers - {key}, Some(Part(p.appId, p.data)))
    else
      var b := Held(buffers, key)[p.segment := Part(p.appId, p.data)];
      if |p.data| < MAX_APP_DATA && Whole(b) then
        Outcome(buffers - {key}, Some(Part(b[0].appId, Assembled(b, |b|))))
      else Outcome(buffers[key := b], None)
  }

  function Held(buffers: map<Key, Buffer>, key: Key): Buffer {
    if key in buffers then buffers[key] else map[]
  }

  function Below(n: nat): (s: set<nat>)
    ensures |s| == n && forall i: nat :: i in s <==> i < n
  {
    if n == 0 then {} else Below(n - 1) + {n - 1}
  }

  /** A subset as large as the set is the set. */
  lemma SameSize(a: set<nat>, b: set<nat>)
    requires a <= b && |a| == |b|
    ensures a == b
  {
    assert b == a + (b - a);
    assert |b| == |a| + |b - a|;
  }

  /** Counting the segments against the largest number tells whether any is missing. */
  lemma WholeIff(b: Buffer, top: nat)
    requires top in b && forall i :: i in b ==> i <= top
    ensures Whole(b) <==> |b| == top + 1
    ensures Whole(b) <==> forall i :: 0 <= i <= top ==> i in b
  {
    assert |b.Keys| == |b|;
    assert b.Keys <= Below(top + 1);
    if Whole(b) {
      assert Below(|b|) <= b.Keys;
      SameSize(Below(|b|), b.Keys);
      assert top in Below(|b|);
    }
    if |b| == top + 1 { SameSize(b.Keys, Below(top + 1)); }
    if forall i :: 0 <= i <= top ==> i in b { assert b.Keys == Below(top + 1); }
    SizeWithin(b.Keys, Below(top + 1));
  }

  lemma SizeWithin(a: set<nat>, b: set<nat>)
    requires a <= b
    ensures |a| <= |b|
  {
    assert b == a + (b - a);
  }

  lemma FirstHeld(b: Buffer)
    requires b != map[]
    ensures Whole(b) ==> 0 in b && forall i :: 0 <= i < |b| ==> i in b
  {
    assert |b| > 0;
  }

  /** The outcome of a segment, case by case. */
  lemma SegmentCases(buffers: map<Key, Buffer>, key: Key, p: Pdu)
    ensures var b, out := Held(buffers, key)[p.segment := Part(p.appId, p.data)], OnSegment(buffers, key, p);
      && (p.segment == 0 && |p.data| < MAX_APP_DATA ==> out == Outcome(buffers - {key}, Some(Part(p.appId, p.data))))
      && (|p.data| >= MAX_APP_DATA ==> out == Outcome(buffers[key := b], None))
      && (p.segment != 0 && !Whole(b) ==> out == Outcome(buffers[key := b], None))
      && (p.segment != 0 && |p.data| < MAX_APP_DATA && Whole(b) ==>
            && 0 in b && (forall i :: 0 <= i < |b| ==> i in b)
            && out == Outcome(buffers - {key}, Some(Part(b[0].appId, Assembled(b, |b|)))))
  {
    FirstHeld(Held(buffers, key)[p.segment := Part(p.appId, p.data)]);
  }

  lemma DropSet<K, V>(m: map<K, V>, k: K, v: V)
    ensures m[k := v] - {k} == m - {k}
  {
  }

  class Reassembly {
    const timeout: int
    var buffers: map<Key, Buffer>
    var lastSeen: map<Key, int>

    /** Every message in progress has a time, and nothing else has. */
    ghost predicate Valid()
      reads this
    {
      lastSeen.Keys == buffers.Keys
    }

    constructor (timeoutSeconds: int)
      ensures Valid() && buffers == map[] && timeout == timeoutSeconds
    {
      timeout := timeoutSeconds;
      buffers, lastSeen := map[], map[];
    }

    method Feed(key: Key, p: Pdu, now: int) returns (message: Option<Part>)
      requires Valid()
      modifies this
      ensures Valid()
      ensures Outcome(buffers, message) == OnSegment(old(buffers), key, p)
      ensures lastSeen == if message.Some? then old(lastSeen) - {key} else old(lastSeen)[key := now]
    {
      hide OnSegment, Whole, Assembled;
      SegmentCases(buffers, key, p);
      DropSet(lastSeen, key, now);
      lastSeen := lastSeen[key := now];
      if p.segment == 0 && |p.data| < MAX_APP_DATA {
        buffers, lastSeen := buffers - {key}, lastSeen - {key};
        return Some(Part(p.appId, p.data));
      }
      var buf := (if key in buffers then buffers[key] else map[])[p.segment := Part(p.appId, p.data)];
      DropSet(buffers, key, buf);
      buffers := buffers[key := buf];
      if |p.data| >= MAX_APP_DATA { return None; }
      var top := LargestKey(buf, p.segment);
      WholeIff(buf, top);
      if |buf| != top + 1 { return None; }
      var all := JoinParts(buf, top + 1);
      buffers, lastSeen := buffers - {key}, lastSeen - {key};
      return Some(Part(buf[0].appId, all));
    }

    static method LargestKey(b: Buffer, known: nat) returns (top: nat)
      requires known in b
      ensures top in b && forall i :: i in b ==> i <= top
    {
      top := known;
      var todo := b.Keys;
      while todo != {}
        invariant top in b && todo <= b.Keys
        invariant forall i :: i in b && i !in todo ==> i <= top
        decreases |todo|
      {
        var k :| k in todo;
        if k > top { top := k; }
        todo := todo - {k};
      }
    }

    static method JoinParts(b: Buffer, n: nat) returns (all: bytes)
      requires forall i :: 0 <= i < n ==> i in b
      ensures all == Assembled(b, n)
    {
      all := [];
      for i := 0 to n
        invariant all == Assembled(b, i)
      {
        all := all + b[i].data;
      }
    }

    /** Drops exactly the messages for which nothing has come within the timeout. */
    method PurgeExpired(now: int) returns (expired: set<Key>)
      requires Valid()
      modifies this
      ensures Valid()
      ensures expired == set k | k in old(lastSeen) && old(lastSeen)[k] < now - timeout
      ensures buffers == old(buffers) - expired && lastSeen == old(lastSeen) - expired
    {
      expired := set k | k in lastSeen && lastSeen[k] < now - timeout;
      buffers, lastSeen := buffers - expired, lastSeen - expired;
    }
  }

  // ---- One message --------------------------------------------------------

  /** Segments of one message arriving: which of them, in this order. */
  ghost predicate Picks(n: nat, picks: seq<nat>) {
    forall k :: 0 <= k < |picks| ==> picks[k] < n
  }

  /** The state before segment `k` arrives. */
  ghost function Before(buffers: map<Key, Buffer>, key: Key, msg: seq<Pdu>, picks: seq<nat>, k: nat): map<Key, Buffer>
    requires Picks(|msg|, picks) && k <= |picks|
  {
    if k == 0 then buffers else OnSegment(Before(buffers, key, msg, picks, k - 1), key, msg[picks[k - 1]]).buffers
  }

  /** What is handed over when segment `k` arrives. */
  ghost function Handed(buffers: map<Key, Buffer>, key: Key, msg: seq<Pdu>, picks: seq<nat>, k: nat): Option<Part>
    requires Picks(|msg|, picks) && k < |picks|
  {
    OnSegment(Before(buffers, key, msg, picks, k), key, msg[picks[k]]).message
  }

  /** The buffer holds exactly the segments that have arrived. */
  ghost predicate Holds(b: Buffer, msg: seq<Pdu>, arrived: seq<nat>)
    requires Picks(|msg|, arrived)
  {
    && (forall i :: i in b <==> i in arrived)
    && (forall i :: i in arrived ==> i < |msg| && b[i] == Part(msg[i].appId, msg[i].data))
  }

  lemma HoldsMore(b: Buffer, msg: seq<Pdu>, picks: seq<nat>, k: nat)
    requires Picks(|msg|, picks) && k < |picks| && Picks(|msg|, picks[..k]) && Holds(b, msg, picks[..k])
    ensures Picks(|msg|, picks[..k + 1])
    ensures Holds(b[picks[k] := Part(msg[picks[k]].appId, msg[picks[k]].data)], msg, picks[..k + 1])
  {
    var more := picks[..k + 1];
    assert more == picks[..k] + [picks[k]];
  }

  lemma NothingHeld(buffers: map<Key, Buffer>, key: Key, msg: seq<Pdu>, picks: seq<nat>)
    requires key !in buffers
    ensures Picks(|msg|, picks[..0]) && Holds(Held(buffers, key), msg, picks[..0])
  {
  }

  /** A segment that completes nothing is added to what is held, and the other messages are left alone. */
  lemma KeptWhenNone(buffers: map<Key, Buffer>, key: Key, p: Pdu)
    requires OnSegment(buffers, key, p).message == None
    ensures OnSegment(buffers, key, p).buffers == buffers[key := Held(buffers, key)[p.segment := Part(p.appId, p.data)]]
    ensures Held(OnSegment(buffers, key, p).buffers, key) == Held(buffers, key)[p.segment := Part(p.appId, p.data)]
  {
  }

  /** As long as nothing has been handed over, everything that arrived is kept. */
  lemma {:induction false} NothingForgotten(buffers: map<Key, Buffer>, key: Key, msg: seq<Pdu>, picks: seq<nat>, k: nat)
    requires Picks(|msg|, picks) && k <= |picks| && key !in buffers
    requires forall i :: 0 <= i < |msg| ==> msg[i].segment == i
    requires forall j :: 0 <= j < k ==> Handed(buffers, key, msg, picks, j) == None
    ensures Picks(|msg|, picks[..k])
    ensures Holds(Held(Before(buffers, key, msg, picks, k), key), msg, picks[..k])
  {
    hide OnSegment, Holds, Held;
    if k == 0 {
      NothingHeld(buffers, key, msg, picks);
    } else {
      var was := Before(buffers, key, msg, picks, k - 1);
      NothingForgotten(buffers, key, msg, picks, k - 1);
      HoldsMore(Held(was, key), msg, picks, k - 1);
      assert Handed(buffers, key, msg, picks, k - 1) == None;
      KeptWhenNone(was, key, msg[picks[k - 1]]);
    }
  }

  /** Joining all segments of a message gives the message. */
  lemma {:induction false} AssembledIs(b: Buffer, conn: nat, updu: nat, app: nat, p: bytes, n: nat)
    requires p != [] && n <= |Segments(conn, updu, app, p)|
    requires forall i :: 0 <= i < n ==> i in b && b[i] == Part(app, Segments(conn, updu, app, p)[i].data)
    ensures Assembled(b, n) == Join(Chunks(p, MAX_APP_DATA)[..n])
  {
    if n > 0 {
      AssembledIs(b, conn, updu, app, p, n - 1);
      var cs := Chunks(p, MAX_APP_DATA);
      assert cs[..n] == cs[..n - 1] + [cs[n - 1]];
      JoinSnoc(cs[..n - 1], cs[n - 1]);
    }
  }

  /** The message is there as soon as its short segment arrives with all others before it. */
  ghost predicate Completes(p: bytes, n: nat, picks: seq<nat>, k: nat)
    requires k < |picks|
  {
    EndsShort(p) && picks[k] + 1 == n && forall i: nat :: i + 1 < n ==> i in picks[..k]
  }

  /**
    * Segments of one message in any order, repeated at will: the first time anything is handed over, it is the message,
    * and that happens exactly when its short last segment arrives after all the others. A message without a short
    * segment, whose length is a positive multiple of the segment size, never gets through, and neither does one whose
    * short segment has come too early, until that segment is sent again.
    */
  lemma HandedIff(buffers: map<Key, Buffer>, key: Key, conn: nat, updu: nat, app: nat, p: bytes, picks: seq<nat>,
      k: nat)
    requires key !in buffers && k < |picks| && Picks(|Segments(conn, updu, app, p)|, picks)
    requires forall j :: 0 <= j < k ==> Handed(buffers, key, Segments(conn, updu, app, p), picks, j) == None
    ensures var msg := Segments(conn, updu, app, p);
      Handed(buffers, key, msg, picks, k) == if Completes(p, |msg|, picks, k) then Some(Part(app, p)) else None
  {
    var msg := Segments(conn, updu, app, p);
    AllNumbered(conn, updu, app, p);
    NothingForgotten(buffers, key, msg, picks, k);
    ArrivalIs(Before(buffers, key, msg, picks, k), key, conn, updu, app, p, picks, k);
  }

  lemma AllNumbered(conn: nat, updu: nat, app: nat, p: bytes)
    ensures var s := Segments(conn, updu, app, p); forall i :: 0 <= i < |s| ==> s[i].segment == i && s[i].appId == app
  {
  }

  lemma ArrivalIs(buffers: map<Key, Buffer>, key: Key, conn: nat, updu: nat, app: nat, p: bytes, picks: seq<nat>,
      k: nat)
    requires k < |picks| && Picks(|Segments(conn, updu, app, p)|, picks)
    requires var msg := Segments(conn, updu, app, p);
      Picks(|msg|, picks[..k]) && Holds(Held(buffers, key), msg, picks[..k])
    ensures var msg := Segments(conn, updu, app, p);
      OnSegment(buffers, key, msg[picks[k]]).message ==
        if Completes(p, |msg|, picks, k) then Some(Part(app, p)) else None
  {
    var msg, c := Segments(conn, updu, app, p), picks[k];
    AllNumbered(conn, updu, app, p);
    ShortIff(conn, updu, app, p, c);
    if c + 1 == |msg| && EndsShort(p) {
      if c == 0 {
        OnlySegment(conn, updu, app, p);
      } else {
        LastArrival(Held(buffers, key), conn, updu, app, p, picks, k);
      }
    }
  }

  lemma OnlySegment(conn: nat, updu: nat, app: nat, p: bytes)
    requires |Segments(conn, updu, app, p)| == 1
    ensures Segments(conn, updu, app, p)[0].data == p
  {
    if p != [] {
      ChunksPartition(p, MAX_APP_DATA);
      assert Join(Chunks(p, MAX_APP_DATA)) == Chunks(p, MAX_APP_DATA)[0] + Join(Chunks(p, MAX_APP_DATA)[1..]);
    }
  }

  lemma HeldParts(b: Buffer, conn: nat, updu: nat, app: nat, p: bytes, arrived: seq<nat>)
    requires Picks(|Segments(conn, updu, app, p)|, arrived) && Holds(b, Segments(conn, updu, app, p), arrived)
    ensures forall i :: i in b ==>
      i < |Segments(conn, updu, app, p)| && b[i] == Part(app, Segments(conn, updu, app, p)[i].data)
  {
    AllNumbered(conn, updu, app, p);
  }

  lemma LastArrival(b: Buffer, conn: nat, updu: nat, app: nat, p: bytes, picks: seq<nat>, k: nat)
    requires k < |picks| && Picks(|Segments(conn, updu, app, p)|, picks) && p != []
    requires var msg := Segments(conn, updu, app, p);
      Picks(|msg|, picks[..k]) && Holds(b, msg, picks[..k]) && picks[k] + 1 == |msg|
    ensures var msg := Segments(conn, updu, app, p);
      var b1 := b[picks[k] := Part(app, msg[picks[k]].data)];
      && (Whole(b1) <==> forall i: nat :: i + 1 < |msg| ==> i in picks[..k])
      && (Whole(b1) ==> 0 in b1 && b1[0].appId == app && Assembled(b1, |b1|) == p)
  {
    hide Chunks, Assembled;
    var msg, c := Segments(conn, updu, app, p), picks[k];
    var b1 := b[c := Part(app, msg[c].data)];
    AllNumbered(conn, updu, app, p);
    HoldsMore(b, msg, picks, k);
    assert picks[..k + 1] == picks[..k] + [c];
    WholeIff(b1, c);
    forall i: nat | i <= c ensures i in b1 <==> i in picks[..k] || i == c {
      assert i in picks[..k + 1] <==> i in picks[..k] || i == c;
    }
    if Whole(b1) {
      HeldParts(b1, conn, updu, app, p, picks[..k + 1]);
      AssembledIs(b1, conn, updu, app, p, |msg|);
      ChunksPartition(p, MAX_APP_DATA);
      assert Chunks(p, MAX_APP_DATA)[..|msg|] == Chunks(p, MAX_APP_DATA);
    }
  }

  /** A message of a positive multiple of the segment size is never handed over, whatever arrives and how often. */
  lemma {:induction false} MultipleNeverArrives(buffers: map<Key, Buffer>, key: Key, conn: nat, updu: nat, app: nat,
                                                p: bytes, picks: seq<nat>, k: nat)
    requires key !in buffers && k < |picks| && Picks(|Segments(conn, updu, app, p)|, picks)
    requires p != [] && |p| % MAX_APP_DATA == 0
    ensures Handed(buffers, key, Segments(conn, updu, app, p), picks, k) == None
  {
    forall j | 0 <= j < k ensures Handed(buffers, key, Segments(conn, updu, app, p), picks, j) == None {
      MultipleNeverArrives(buffers, key, conn, updu, app, p, picks, j);
    }
    HandedIff(buffers, key, conn, updu, app, p, picks, k);
  }
}

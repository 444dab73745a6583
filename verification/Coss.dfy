/** The character stream client: dense packing of five-bit characters, and the buffer that decides when to send. */
module Coss {
  import opened Bits
  import opened Prelude

  // ---- Dense packing ------------------------------------------------------

  /** Three characters in two octets; the top bit of the second octet tells whether the third one is there. */
  function Pair(c0: nat, c1: nat, flag: nat, c2: nat): (p: bytes)
    requires c0 < 32 && c1 < 32 && c2 < 32 && flag < 2
  {
    [(c1 % 8) * 32 + c0, flag * 128 + (c1 / 8) * 32 + c2]
  }

  function FiveBits(chars: bytes): (s: bytes)
    ensures |s| == |chars|
  {
    Masked(chars, 32)
  }

  /** Every octet reduced to a character below the limit. */
  function Masked(data: bytes, limit: nat): (s: bytes)
    requires 0 < limit <= 256
    ensures |s| == |data|
  {
    seq(|data|, i requires 0 <= i < |data| => data[i] % limit)
  }

  function Pack(cs: bytes): bytes
    requires AllBelow(cs, 32)
  {
    match |cs|
    case 0 => []
    case 1 => cs
    case 2 => Pair(cs[0], cs[1], 0, 0)
    case _ => Pair(cs[0], cs[1], 1, cs[2]) + Pack(cs[3..])
  }

  predicate AllBelow(cs: bytes, limit: nat) {
    forall i :: 0 <= i < |cs| ==> cs[i] < limit
  }

  function Unpack(raw: bytes): bytes {
    match |raw|
    case 0 => []
    case 1 => [raw[0] % 32]
    case _ => Unpaired(raw[0], raw[1]) + Unpack(raw[2..])
  }

  /** The two or three characters of a pair of octets. */
  function Unpaired(even: byte, odd: byte): bytes {
    var two: bytes := [even % 32, even / 32 + (odd / 32 % 4) * 8];
    if odd >= 128 then two + [odd % 32] else two
  }

  /** Octets that the packing can produce: only the last pair may lack its third character, and spare bits are clear. */
  predicate Canonical(raw: bytes) {
    match |raw|
    case 0 => true
    case 1 => raw[0] < 32
    case _ => if raw[1] >= 128 then Canonical(raw[2..]) else raw[1] % 32 == 0 && |raw| == 2
  }

  lemma PairBack(c0: nat, c1: nat, flag: nat, c2: nat)
    requires c0 < 32 && c1 < 32 && c2 < 32 && flag < 2
    ensures var p := Pair(c0, c1, flag, c2); Unpaired(p[0], p[1]) == if flag == 1 then [c0, c1, c2] else [c0, c1]
  {
    PairParts(c0, c1 % 8, c1 / 8, flag, c2);
  }

  /** The parts of the two octets can be read back. */
  lemma PairParts(c0: nat, low: nat, high: nat, flag: nat, c2: nat)
    requires c0 < 32 && low < 8 && high < 4 && flag < 2 && c2 < 32
    ensures var even, odd := low * 32 + c0, flag * 128 + high * 32 + c2;
      even % 32 == c0 && even / 32 == low && odd % 32 == c2 && odd / 32 % 4 == high && (odd >= 128 <==> flag == 1)
  {
    hide *;
    DivIs(low * 32 + c0, 32, low, c0);
    DivIs(flag * 128 + high * 32 + c2, 32, flag * 4 + high, c2);
    DivIs(flag * 4 + high, 4, flag, high);
  }

  lemma PairTail(c0: nat, c1: nat, flag: nat, c2: nat)
    requires c0 < 32 && c1 < 32 && c2 < 32 && flag < 2
    ensures var p := Pair(c0, c1, flag, c2); |p| == 2 && p[1] % 32 == c2 && (p[1] >= 128 <==> flag == 1)
  {
  }

  lemma PairForward(even: byte, odd: byte)
    ensures var c := Unpaired(even, odd);
      && c[0] < 32 && c[1] < 32
      && (odd >= 128 ==> c[2] < 32 && Pair(c[0], c[1], 1, c[2]) == [even, odd])
      && (odd < 128 && odd % 32 == 0 ==> Pair(c[0], c[1], 0, 0) == [even, odd])
  {
    var low, high := even / 32, odd / 32 % 4;
    DivIs(low + high * 8, 8, high, low);
    OctetParts(even);
    OctetParts(odd);
  }

  lemma OctetParts(b: byte)
    ensures b / 32 < 8 && b == (b / 32) * 32 + b % 32
    ensures b / 32 == (if b >= 128 then 4 else 0) + b / 32 % 4
  {
  }

  /** Packing loses nothing, for any number of characters. */
  lemma {:induction false} PackRoundTrip(cs: bytes)
    requires AllBelow(cs, 32)
    ensures Unpack(Pack(cs)) == cs
    decreases |cs|
  {
    if |cs| == 2 {
      PairBack(cs[0], cs[1], 0, 0);
      assert Pack(cs)[2..] == [];
    } else if |cs| > 2 {
      PairBack(cs[0], cs[1], 1, cs[2]);
      PackRoundTrip(cs[3..]);
      assert Pack(cs)[2..] == Pack(cs[3..]);
    }
  }

  lemma {:induction false} PackCanonical(cs: bytes)
    requires AllBelow(cs, 32)
    ensures Canonical(Pack(cs))
    decreases |cs|
  {
    hide Pair;
    if |cs| == 2 {
      PairTail(cs[0], cs[1], 0, 0);
    } else if |cs| > 2 {
      PairTail(cs[0], cs[1], 1, cs[2]);
      PackCanonical(cs[3..]);
      assert Pack(cs)[2..] == Pack(cs[3..]);
    }
  }

  lemma {:induction false} UnpackBelow(raw: bytes)
    ensures AllBelow(Unpack(raw), 32)
    decreases |raw|
  {
    if |raw| > 1 {
      PairForward(raw[0], raw[1]);
      UnpackBelow(raw[2..]);
    }
  }

  lemma {:induction false} CanonicalBack(raw: bytes)
    requires Canonical(raw)
    ensures AllBelow(Unpack(raw), 32) && Pack(Unpack(raw)) == raw
    decreases |raw|
  {
    UnpackBelow(raw);
    if |raw| > 1 {
      PairForward(raw[0], raw[1]);
      var c, rest := Unpaired(raw[0], raw[1]), Unpack(raw[2..]);
      if raw[1] >= 128 {
        CanonicalBack(raw[2..]);
        assert (c + rest)[3..] == rest;
        assert raw == [raw[0], raw[1]] + raw[2..];
      } else {
        assert c + rest == c;
      }
    }
  }

  /**
    * Octets unpacked and packed again are the same octets exactly when they could have been packed in the first place:
    * the decoder also accepts a short pair in the middle and spare bits that are set, and forgets about them.
    */
  lemma RepackedIff(raw: bytes)
    ensures AllBelow(Unpack(raw), 32)
    ensures Pack(Unpack(raw)) == raw <==> Canonical(raw)
  {
    UnpackBelow(raw);
    PackCanonical(Unpack(raw));
    if Canonical(raw) { CanonicalBack(raw); }
  }

  method EncodeDense(chars: bytes) returns (result: bytes)
    ensures AllBelow(FiveBits(chars), 32) && result == Pack(FiveBits(chars))
  {
    hide Pack, FiveBits, Masked;
    FiveBitsBelow(chars);
    var b := FiveBits(chars);
    var r := |b| % 3;
    var triplets := (|b| - r) / 3;
    result := [];
    var idx, n := 0, 0;
    PackStart(b);
    while n < triplets
      invariant 0 <= n <= triplets && idx == 3 * n && idx <= |b| - r
      invariant Pack(b) == result + Pack(b[idx..])
    {
      PackThree(result, b, idx);
      result := result + Pair(b[idx], b[idx + 1], 1, b[idx + 2]);
      idx, n := idx + 3, n + 1;
    }
    PackRest(result, b, idx);
    if r == 1 {
      result := result + [b[idx]];
    } else if r == 2 {
      result := result + Pair(b[idx], b[idx + 1], 0, 0);
    }
  }

  lemma FiveBitsBelow(chars: bytes)
    ensures AllBelow(FiveBits(chars), 32)
  {
  }

  lemma PackStart(b: bytes)
    requires AllBelow(b, 32)
    ensures AllBelow(b[0..], 32) && Pack(b) == [] + Pack(b[0..])
  {
    assert b[0..] == b && [] + Pack(b) == Pack(b);
  }

  lemma PackThree(done: bytes, b: bytes, idx: nat)
    requires AllBelow(b, 32) && idx + 3 <= |b|
    ensures done + Pack(b[idx..]) == done + Pair(b[idx], b[idx + 1], 1, b[idx + 2]) + Pack(b[idx + 3..])
  {
    assert b[idx..][3..] == b[idx + 3..];
    AppendAssoc(done, Pair(b[idx], b[idx + 1], 1, b[idx + 2]), Pack(b[idx + 3..]));
  }

  lemma PackRest(done: bytes, b: bytes, idx: nat)
    requires AllBelow(b, 32) && idx <= |b| < idx + 3
    ensures done + Pack(b[idx..]) ==
      if |b| == idx then done else if |b| == idx + 1 then done + [b[idx]] else done + Pair(b[idx], b[idx + 1], 0, 0)
  {
    if |b| == idx + 1 { assert b[idx..] == [b[idx]]; }
  }

  method DecodeDense(raw: bytes) returns (result: bytes)
    ensures result == Unpack(raw)
  {
    hide Unpack, Unpaired;
    UnpackEnds(raw);
    if raw == [] { return []; }
    if |raw| == 1 { return [raw[0] % 32]; }
    var pairBytes := if |raw| % 2 == 0 then |raw| else |raw| - 1;
    result := [];
    var i := 0;
    while i < pairBytes
      invariant 0 <= i <= pairBytes && i % 2 == 0
      invariant Unpack(raw) == result + Unpack(raw[i..])
    {
      UnpackTwo(result, raw, i);
      result := result + Unpaired(raw[i], raw[i + 1]);
      i := i + 2;
    }
    UnpackEnds(raw[i..]);
    if |raw| % 2 == 1 {
      result := result + [raw[|raw| - 1] % 32];
    }
  }

  lemma UnpackEnds(raw: bytes)
    ensures |raw| == 0 ==> Unpack(raw) == []
    ensures |raw| == 1 ==> Unpack(raw) == [raw[0] % 32]
    ensures Unpack(raw) == [] + Unpack(raw[0..])
  {
    assert raw[0..] == raw && [] + Unpack(raw) == Unpack(raw);
  }

  lemma UnpackTwo(done: bytes, raw: bytes, i: nat)
    requires i + 2 <= |raw|
    ensures done + Unpack(raw[i..]) == done + Unpaired(raw[i], raw[i + 1]) + Unpack(raw[i + 2..])
  {
    assert raw[i..][2..] == raw[i + 2..];
    AppendAssoc(done, Unpaired(raw[i], raw[i + 1]), Unpack(raw[i + 2..]));
  }

  // ---- Encapsulation modes ------------------------------------------------

  datatype Mode = Octet | Ita5 | LoosePack | DensePack | SixBit

  /** The number of characters of a mode. */
  function Limit(m: Mode): (n: nat)
    ensures 0 < n <= 256
  {
    match m case Octet => 256 case Ita5 => 128 case LoosePack => 32 case DensePack => 32 case SixBit => 64
  }

  function Encode(data: bytes, m: Mode): bytes {
    if m.DensePack? then
      assert AllBelow(FiveBits(data), 32);
      Pack(FiveBits(data))
    else Masked(data, Limit(m))
  }

  function Decode(data: bytes, m: Mode): bytes {
    if m.DensePack? then Unpack(data) else Masked(data, Limit(m))
  }

  /** Every mode carries the characters that it has: exactly the inputs that consist of them come back as they were. */
  lemma ModeRoundTrip(data: bytes, m: Mode)
    ensures Decode(Encode(data, m), m) == Masked(data, Limit(m))
    ensures Decode(Encode(data, m), m) == data <==> AllBelow(data, Limit(m))
    ensures m.Octet? ==> Decode(Encode(data, m), m) == data
    ensures m.Ita5? ==> (Decode(Encode(data, m), m) == data <==> AllBelow(data, 128))
    ensures m.LoosePack? || m.DensePack? ==> (Decode(Encode(data, m), m) == data <==> AllBelow(data, 32))
    ensures m.SixBit? ==> (Decode(Encode(data, m), m) == data <==> AllBelow(data, 64))
  {
    if m.Octet? { assert AllBelow(data, 256); }
    hide Pack, Unpack, Masked, AllBelow;
    MaskedFacts(data, Limit(m));
    if m.DensePack? { PackRoundTrip(FiveBits(data)); }
  }

  lemma MaskedFacts(data: bytes, limit: nat)
    requires 0 < limit <= 256
    ensures Masked(Masked(data, limit), limit) == Masked(data, limit)
    ensures AllBelow(Masked(data, limit), limit)
    ensures Masked(data, limit) == data <==> AllBelow(data, limit)
  {
    var masked := Masked(data, limit);
    forall i | 0 <= i < |data|
      ensures masked[i] < limit && masked[i] % limit == masked[i] && (masked[i] == data[i] <==> data[i] < limit)
    {
      ModOnce(data[i], limit);
    }
    assert Masked(masked, limit) == masked;
  }

  lemma ModOnce(x: nat, m: nat)
    requires m > 0
    ensures x % m < m && (x % m) % m == x % m && (x % m == x <==> x < m)
  {
    DivIs(x % m, m, 0, x % m);
    if x < m { DivIs(x, m, 0, x); }
  }

  // ---- The input buffer ---------------------------------------------------

  datatype Rules = Rules(threshold: int, flushOnCrlf: bool, timeout: int)

  /** What waits, when the last octet came, and the chunks handed over so far. */
  datatype Buffer = Buffer(waiting: bytes, lastRx: int, sent: seq<bytes>)

  predicate EndsInCrlf(s: bytes) {
    |s| >= 2 && s[|s| - 2] == 0x0D && s[|s| - 1] == 0x0A
  }

  /** The chunk must be handed over at its last octet. */
  predicate Due(s: bytes, r: Rules) {
    |s| >= r.threshold || (r.flushOnCrlf && EndsInCrlf(s))
  }

  function Flushed(b: Buffer): Buffer {
    if b.waiting == [] then b else b.(waiting := [], sent := b.sent + [b.waiting])
  }

  function OnByte(b: Buffer, x: byte, now: int, r: Rules): Buffer {
    var b1 := b.(waiting := b.waiting + [x], lastRx := now);
    if Due(b1.waiting, r) then Flushed(b1) else b1
  }

  function OnBytes(b: Buffer, data: bytes, now: int, r: Rules): Buffer {
    if data == [] then b
    else OnByte(OnBytes(b, data[..|data| - 1], now, r), data[|data| - 1], now, r)
  }

  function OnTick(b: Buffer, now: int, r: Rules): Buffer {
    if b.waiting != [] && now - b.lastRx >= r.timeout then Flushed(b) else b
  }

  datatype Event = Fed(data: bytes, now: int) | Ticked(now: int) | Forced

  function After(start: int, events: seq<Event>, r: Rules): Buffer {
    if events == [] then Buffer([], start, [])
    else
      var b := After(start, events[..|events| - 1], r);
      match events[|events| - 1]
      case Fed(data, now) => OnBytes(b, data, now, r)
      case Ticked(now) => OnTick(b, now, r)
      case Forced => Flushed(b)
  }

  /** All octets put in, in order. */
  function Input(events: seq<Event>): bytes {
    if events == [] then []
    else
      var e := events[|events| - 1];
      Input(events[..|events| - 1]) + if e.Fed? then e.data else []
  }

  /** No octet but the last was a reason to hand the chunk over. */
  predicate NotDueBefore(s: bytes, r: Rules) {
    forall n :: 0 < n < |s| ==> !Due(s[..n], r)
  }

  /** What waits is not due, and no chunk was held back beyond the octet at which it became due. */
  ghost predicate Prompt(b: Buffer, r: Rules) {
    && NotDueBefore(b.waiting, r) && (b.waiting != [] ==> !Due(b.waiting, r))
    && forall i :: 0 <= i < |b.sent| ==> b.sent[i] != [] && NotDueBefore(b.sent[i], r)
  }

  lemma OneByte(b: Buffer, x: byte, now: int, r: Rules)
    requires Prompt(b, r)
    ensures Prompt(OnByte(b, x, now, r), r)
    ensures Held(OnByte(b, x, now, r)) == Held(b) + [x]
  {
    var w := b.waiting + [x];
    forall n | 0 < n < |w| ensures !Due(w[..n], r) {
      assert w[..n] == b.waiting[..n];
      if n == |b.waiting| { assert b.waiting[..n] == b.waiting; }
    }
    AppendAssoc(Join(b.sent), b.waiting, [x]);
    FlushKeeps(b.(waiting := w, lastRx := now), r);
  }

  /** Everything that has gone in. */
  function Held(b: Buffer): bytes { Join(b.sent) + b.waiting }

  lemma FlushKeeps(b: Buffer, r: Rules)
    requires NotDueBefore(b.waiting, r)
    requires forall i :: 0 <= i < |b.sent| ==> b.sent[i] != [] && NotDueBefore(b.sent[i], r)
    ensures Prompt(Flushed(b), r) && Held(Flushed(b)) == Held(b)
  {
    JoinSnoc(b.sent, b.waiting);
    assert Join(b.sent + [b.waiting]) + [] == Join(b.sent + [b.waiting]);
  }

  lemma {:induction false} ManyBytes(b: Buffer, data: bytes, now: int, r: Rules)
    requires Prompt(b, r)
    ensures Prompt(OnBytes(b, data, now, r), r)
    ensures Held(OnBytes(b, data, now, r)) == Held(b) + data
    decreases |data|
  {
    if data == [] {
      assert Held(b) + [] == Held(b);
    } else {
      var n := |data| - 1;
      ManyBytes(b, data[..n], now, r);
      OneByte(OnBytes(b, data[..n], now, r), data[n], now, r);
      AppendAssoc(Held(b), data[..n], [data[n]]);
      assert data == data[..n] + [data[n]];
    }
  }

  /**
    * Over any run of input, timer ticks and forced flushes, the chunks handed over and what still waits are the input,
    * complete and in order, and every chunk left at the first octet at which it was due.
    */
  lemma {:induction false} NothingLost(start: int, events: seq<Event>, r: Rules)
    ensures var b := After(start, events, r); Join(b.sent) + b.waiting == Input(events) && Prompt(b, r)
    decreases |events|
  {
    if events != [] {
      var n := |events| - 1;
      var b := After(start, events[..n], r);
      NothingLost(start, events[..n], r);
      match events[n]
      case Fed(data, now) => ManyBytes(b, data, now, r);
      case Ticked(now) =>
        FlushKeeps(b, r);
        assert Input(events[..n]) + [] == Input(events[..n]);
      case Forced =>
        FlushKeeps(b, r);
        assert Input(events[..n]) + [] == Input(events[..n]);
    }
  }

  /** The octets that the receiving side gives out for these chunks. */
  function Carried(chunks: seq<bytes>, m: Mode): bytes {
    if chunks == [] then [] else Decode(Encode(chunks[0], m), m) + Carried(chunks[1..], m)
  }

  lemma {:induction false} CarriedIs(chunks: seq<bytes>, m: Mode)
    ensures Carried(chunks, m) == Masked(Join(chunks), Limit(m))
  {
    if chunks != [] {
      CarriedIs(chunks[1..], m);
      ModeRoundTrip(chunks[0], m);
      MaskedJoin(chunks[0], Join(chunks[1..]), Limit(m));
    }
  }

  lemma MaskedJoin(a: bytes, b: bytes, limit: nat)
    requires 0 < limit <= 256
    ensures Masked(a + b, limit) == Masked(a, limit) + Masked(b, limit)
  {
  }

  /** However the stream was cut into chunks, the other side receives the characters of the whole stream. */
  lemma StreamCarried(start: int, events: seq<Event>, r: Rules, m: Mode)
    ensures var b := After(start, events, r);
      Carried(b.sent, m) + Masked(b.waiting, Limit(m)) == Masked(Input(events), Limit(m))
  {
    var b := After(start, events, r);
    NothingLost(start, events, r);
    CarriedIs(b.sent, m);
    MaskedJoin(Join(b.sent), b.waiting, Limit(m));
  }

  class FlushBuffer {
    const rules: Rules
    var waiting: bytes
    var lastRx: int
    var sent: seq<bytes>

    function State(): Buffer
      reads this
    {
      Buffer(waiting, lastRx, sent)
    }

    constructor (r: Rules, now: int)
      ensures rules == r && State() == After(now, [], r)
    {
      rules := r;
      waiting, lastRx, sent := [], now, [];
    }

    /** Puts octets in one by one. All are given the same time. */
    method Feed(data: bytes, now: int)
      modifies this
      ensures State() == OnBytes(old(State()), data, now, rules)
    {
      var i := 0;
      while i < |data|
        invariant 0 <= i <= |data|
        invariant State() == OnBytes(old(State()), data[..i], now, rules)
      {
        assert data[..i + 1][..i] == data[..i];
        waiting := waiting + [data[i]];
        lastRx := now;
        if |waiting| >= rules.threshold {
          Flush();
        } else if rules.flushOnCrlf && |waiting| >= 2 {
          if waiting[|waiting| - 2] == 0x0D && waiting[|waiting| - 1] == 0x0A { Flush(); }
        }
        i := i + 1;
      }
      assert data[..|data|] == data;
    }

    method Tick(now: int)
      modifies this
      ensures State() == OnTick(old(State()), now, rules)
    {
      if waiting != [] && now - lastRx >= rules.timeout { Flush(); }
    }

    method FlushNow()
      modifies this
      ensures State() == Flushed(old(State()))
    {
      if waiting != [] { Flush(); }
    }

    method Flush()
      modifies this
      ensures State() == Flushed(old(State()))
    {
      if waiting == [] { return; }
      var chunk := waiting;
      waiting := [];
      sent := sent + [chunk];
    }
  }
}

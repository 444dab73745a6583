/** IPv4 fragmentation and the header checksum (RFC 791 sections 3.1 and 3.2). */
module IpFragment {
  import opened Bits
  import opened Chunking
  import opened NonArqRuns
  import opened Prelude

  const MORE := 0x20

  /** Sixteen bits at an offset, most significant byte first. */
  function Word(h: bytes, off: nat): (w: nat)
    requires off + 2 <= |h|
    ensures w < 0x1_0000
  {
    var hi: nat := h[off];
    hi * 256 + h[off + 1]
  }

  // ---- Checksum -----------------------------------------------------------

  /** The sum of the 16-bit words; an odd last byte counts as the high half of a word. */
  function Sum(h: bytes): nat {
    if h == [] then 0
    else if |h| == 1 then (h[0] as nat) * 256
    else Word(h, 0) + Sum(h[2..])
  }

  function Fold(t: nat): nat { t / 0x1_0000 + t % 0x1_0000 }

  /** The checksum of a header, as the program folds it. */
  function Checksum(h: bytes): (c: nat)
    ensures c < 0x1_0000
  {
    var t := Fold(Sum(h));
    0xFFFF - (t + t / 0x1_0000) % 0x1_0000
  }

  /** The receiver's test: the one's complement sum of the header, checksum included, is all ones. */
  predicate Verifies(h: bytes) {
    Fold(Fold(Sum(h))) == 0xFFFF
  }

  /** For sums of up to 30 words two folds are enough, and adding the checksum makes the folded sum all ones. */
  lemma FoldsSuffice(t: nat)
    requires 0 < t <= 30 * 0xFFFF
    ensures var f := Fold(t);
      var c := 0xFFFF - (f + f / 0x1_0000) % 0x1_0000;
      Fold(Fold(t + c)) == 0xFFFF
  {
    hide Fold;
    var q, r := t / 0x1_0000, t % 0x1_0000;
    FoldIs(t, q, r);
    FoldIs(0xFFFF, 0, 0xFFFF);
    var f := q + r;
    if f < 0x1_0000 {
      DivIs(f, 0x1_0000, 0, f);
      FoldIs(t + (0xFFFF - f), q, 0xFFFF - q);
    } else {
      var g := f + 1 - 0x1_0000;
      DivIs(f, 0x1_0000, 1, f - 0x1_0000);
      DivIs(f + 1, 0x1_0000, 1, g);
      FoldIs(t + (0xFFFF - g), q + 1, 0xFFFF - q - 1);
    }
  }

  lemma FoldIs(x: nat, q: nat, r: nat)
    requires x == 0x1_0000 * q + r && r < 0x1_0000
    ensures Fold(x) == q + r
  {
    DivIs(x, 0x1_0000, q, r);
  }

  lemma {:induction false} SumBound(h: bytes)
    ensures Sum(h) <= ((|h| + 1) / 2) * 0xFFFF
    decreases |h|
  {
    if |h| >= 2 { SumBound(h[2..]); }
  }

  /** Writing one aligned word changes the sum by the difference. */
  lemma {:induction false} SumSet(h: bytes, off: nat, hi: byte, lo: byte)
    requires off % 2 == 0 && off + 2 <= |h|
    ensures Sum(h[off := hi][off + 1 := lo]) == Sum(h) - Word(h, off) + (hi as nat) * 256 + lo
    decreases off
  {
    var g := h[off := hi][off + 1 := lo];
    if off == 0 {
      assert g[2..] == h[2..];
    } else {
      SumSet(h[2..], off - 2, hi, lo);
      assert g[2..] == h[2..][off - 2 := hi][off - 1 := lo];
    }
  }

  method IpChecksum(header: bytes) returns (c: nat)
    ensures c == Checksum(header)
  {
    hide Sum;
    var h: bytes := header;
    if |h| % 2 != 0 {
      h := h + [0];
      PadSum(header);
    }
    var total := 0;
    var i := 0;
    ghost var goal := Sum(h);
    WholeSum(h);
    while i < |h|
      invariant 0 <= i <= |h| && i % 2 == 0 && |h| % 2 == 0
      invariant goal == total + Sum(h[i..])
    {
      NextSum(h, i);
      var hi: nat := h[i];
      total := total + hi * 256 + h[i + 1];
      i := i + 2;
    }
    NothingLeft(h);
    total := total / 0x1_0000 + total % 0x1_0000;
    total := total + total / 0x1_0000;
    c := 0xFFFF - total % 0x1_0000;
  }

  lemma NothingLeft(h: bytes)
    ensures Sum(h[|h|..]) == 0
  {
  }

  lemma WholeSum(h: bytes)
    ensures Sum(h[0..]) == Sum(h)
  {
    assert h[0..] == h;
  }

  lemma NextSum(h: bytes, i: nat)
    requires i + 2 <= |h|
    ensures Sum(h[i..]) == Word(h, i) + Sum(h[i + 2..])
  {
    assert h[i..][2..] == h[i + 2..];
  }

  lemma {:induction false} PadSum(h: bytes)
    requires |h| % 2 == 1
    ensures Sum(h + [0]) == Sum(h)
    decreases |h|
  {
    if |h| > 1 {
      PadSum(h[2..]);
      assert (h + [0])[2..] == h[2..] + [0];
    } else {
      assert (h + [0])[2..] == [];
    }
  }

  // ---- Datagrams ----------------------------------------------------------

  function HeaderLen(d: bytes): nat
    requires d != []
  {
    (d[0] % 16) * 4
  }

  /** The fragment offset field, in bytes. */
  function OffsetOf(d: bytes): nat
    requires |d| >= 8
  {
    (Word(d, 6) % 0x2000) * 8
  }

  predicate MoreFragments(d: bytes)
    requires |d| >= 8
  {
    (d[6] / MORE) % 2 == 1
  }

  /** A whole datagram: its header is complete, and its data end within the 65535 bytes that offsets can address. */
  predicate Datagram(d: bytes) {
    && |d| >= 20 && 20 <= HeaderLen(d) <= |d| <= 0xFFFF
    && OffsetOf(d) + |d| - HeaderLen(d) <= 0xFFFF
  }

  /** The payload bytes that fit, a multiple of eight. */
  function MaxPayload(mtu: int, header: int): int { ((mtu - header) / 8) * 8 }

  /** The header of one fragment, its checksum still zero. */
  function Blank(h: bytes, len: nat, units: nat, last: bool): (g: bytes)
    requires |h| >= 20 && len < 0x1_0000
    ensures |g| == |h|
  {
    h[2 := len / 256][3 := len % 256]
     [6 := (if last then 0 else MORE) + (units / 256) % 32][7 := units % 256][10 := 0][11 := 0]
  }

  function Sealed(h: bytes): (g: bytes)
    requires |h| >= 20
    ensures |g| == |h|
  {
    h[10 := Checksum(h) / 256][11 := Checksum(h) % 256]
  }

  /** Fragment `k` of a datagram. */
  function Fragment(d: bytes, mtu: nat, k: nat): bytes
    requires Datagram(d) && mtu >= HeaderLen(d) + 8
    requires k < |Chunks(d[HeaderLen(d)..], MaxPayload(mtu, HeaderLen(d)))|
  {
    var ihl := HeaderLen(d);
    var n := MaxPayload(mtu, ihl);
    var cs := Chunks(d[ihl..], n);
    ChunkLength(d[ihl..], n, k);
    Sealed(Blank(d[..ihl], ihl + |cs[k]|, (OffsetOf(d) + k * n) / 8, k + 1 == |cs|)) + cs[k]
  }

  function Fragments(d: bytes, mtu: nat): (fs: seq<bytes>)
    requires Datagram(d) && mtu >= HeaderLen(d) + 8
    ensures |fs| == |Chunks(d[HeaderLen(d)..], MaxPayload(mtu, HeaderLen(d)))|
  {
    var m := |Chunks(d[HeaderLen(d)..], MaxPayload(mtu, HeaderLen(d)))|;
    seq(m, k requires 0 <= k < m => Fragment(d, mtu, k))
  }

  // ---- What a fragment is -------------------------------------------------

  /** The fields of a fragment header, and the fields that fragmentation leaves alone. */
  lemma BlankFields(h: bytes, len: nat, units: nat, last: bool)
    requires 20 <= |h| <= 60 && h[0] % 16 >= 5 && len < 0x1_0000 && units < 0x2000
    ensures var g := Sealed(Blank(h, len, units, last));
      && g[..2] == h[..2] && g[4..6] == h[4..6] && g[8..10] == h[8..10] && g[12..] == h[12..]
      && Word(g, 2) == len && OffsetOf(g) == units * 8 && MoreFragments(g) == !last && Verifies(g)
  {
    var b := Blank(h, len, units, last);
    SealVerifies(b);
    var g := Sealed(b);
    assert g[6] == b[6] == (if last then 0 else MORE) + units / 256;
    assert g[7] == b[7] == units % 256;
    assert Word(g, 6) == (if last then 0 else 0x2000) + units;
    assert g[2] == len / 256 && g[3] == len % 256;
  }

  /** Sealing a header with a zero checksum makes the receiver's test succeed. */
  lemma SealVerifies(b: bytes)
    requires 20 <= |b| <= 60 && b[0] % 16 >= 5 && b[10] == 0 && b[11] == 0
    ensures Verifies(Sealed(b))
  {
    SumBound(b);
    SumSet(b, 10, Checksum(b) / 256, Checksum(b) % 256);
    FirstWord(b);
    FoldsSuffice(Sum(b));
  }

  lemma FirstWord(b: bytes)
    requires |b| >= 20 && b[0] % 16 >= 5
    ensures Sum(b) > 0
  {
    assert Word(b, 0) > 0;
  }

  lemma MaxPayloadFacts(mtu: nat, ihl: nat)
    requires mtu >= ihl + 8
    ensures var n := MaxPayload(mtu, ihl); n >= 8 && n % 8 == 0 && ihl + n <= mtu
  {
  }

  /** The header fields that fragmentation leaves alone. */
  predicate Untouched(f: bytes, d: bytes, ihl: nat) {
    && 20 <= ihl <= |f| && ihl <= |d|
    && f[..2] == d[..2] && f[4..6] == d[4..6] && f[8..10] == d[8..10] && f[12..ihl] == d[12..ihl]
  }

  /** Where the data of a fragment go, and the data. */
  function SegmentOf(f: bytes, base: nat): Seg
    requires |f| >= 20 && HeaderLen(f) <= |f| && base <= OffsetOf(f)
  {
    Seg(OffsetOf(f) - base, f[HeaderLen(f)..])
  }

  /**
    * Every fragment fits the MTU, carries a header that verifies, states its own length, has the flag exactly when it
    * is not the last, carries a multiple of eight bytes unless it is the last, and holds exactly the bytes that its
    * offset says.
    */
  lemma FragmentCorrect(d: bytes, mtu: nat, k: nat)
    requires Datagram(d) && mtu >= HeaderLen(d) + 8 && k < |Fragments(d, mtu)|
    ensures var f, ihl := Fragments(d, mtu)[k], HeaderLen(d);
      && ihl <= |f| <= mtu && HeaderLen(f) == ihl && Word(f, 2) == |f| && Verifies(f[..ihl])
      && MoreFragments(f) == (k + 1 < |Fragments(d, mtu)|) && (MoreFragments(f) ==> (|f| - ihl) % 8 == 0)
      && Untouched(f, d, ihl)
      && OffsetOf(f) >= OffsetOf(d)
      && SegmentOf(f, OffsetOf(d)) == BuildSegments(d[ihl..], MaxPayload(mtu, ihl))[k]
  {
    hide *;
    Layout(d, mtu);
    var ihl := HeaderLen(d);
    var n, h, p := MaxPayload(mtu, ihl), d[..ihl], d[ihl..];
    PieceHeader(h, p, n, OffsetOf(d), k);
    FragmentMade(d, mtu, k);
    FragmentIs(d, Piece(h, p, n, OffsetOf(d), k), Chunks(p, n)[k]);
    SegmentIs(Fragments(d, mtu)[k], OffsetOf(d), k * n, Chunks(p, n)[k]);
  }

  /** The three flag bits of a fragment: the reserved and the don't-fragment bit clear, and then the MF bit. */
  lemma FlagBits(d: bytes, mtu: nat, k: nat)
    requires Datagram(d) && mtu >= HeaderLen(d) + 8 && k < |Fragments(d, mtu)|
    ensures var f := Fragments(d, mtu)[k];
      |f| >= 20 && f[6] / 32 == if k + 1 < |Fragments(d, mtu)| then 1 else 0
  {
    hide Chunks, Checksum, OffsetOf, MaxPayload;
    FragmentCorrect(d, mtu, k);
  }

  /**
    * The last fragment carries the flag of the datagram exactly when that was clear: a fragment that is fragmented
    * again ends up looking like the end of the original datagram.
    */
  lemma LastFlagIff(d: bytes, mtu: nat)
    requires Datagram(d) && mtu >= HeaderLen(d) + 8 && |d| > HeaderLen(d)
    ensures var fs := Fragments(d, mtu);
      fs != [] && |fs[|fs| - 1]| >= 20 && (MoreFragments(fs[|fs| - 1]) == MoreFragments(d) <==> !MoreFragments(d))
  {
    var ihl := HeaderLen(d);
    Layout(d, mtu);
    assert d[ihl..] != [] && Chunks(d[ihl..], MaxPayload(mtu, ihl)) != [];
    FragmentCorrect(d, mtu, |Fragments(d, mtu)| - 1);
  }

  /** The sizes that fragmentation works with. */
  lemma Layout(d: bytes, mtu: nat)
    requires Datagram(d) && mtu >= HeaderLen(d) + 8
    ensures var ihl, n := HeaderLen(d), MaxPayload(mtu, HeaderLen(d));
      && 20 <= ihl <= 60 && ihl <= |d| <= 0xFFFF && d[..ihl][0] % 16 >= 5 && OffsetOf(d) % 8 == 0
      && OffsetOf(d) + |d| - ihl <= 0xFFFF && n >= 8 && n % 8 == 0 && ihl + n <= mtu
  {
  }

  lemma FragmentMade(d: bytes, mtu: nat, k: nat)
    requires Datagram(d) && mtu >= HeaderLen(d) + 8 && k < |Fragments(d, mtu)|
    requires var ihl, n := HeaderLen(d), MaxPayload(mtu, HeaderLen(d));
      n > 0 && ihl + |Chunks(d[ihl..], n)[k]| < 0x1_0000
    ensures var ihl, n := HeaderLen(d), MaxPayload(mtu, HeaderLen(d));
      Fragments(d, mtu)[k] == Piece(d[..ihl], d[ihl..], n, OffsetOf(d), k) + Chunks(d[ihl..], n)[k]
  {
  }

  lemma SegmentIs(f: bytes, base: nat, start: nat, c: bytes)
    requires |f| >= 20 && HeaderLen(f) <= |f| && f[HeaderLen(f)..] == c && OffsetOf(f) == base + start
    ensures SegmentOf(f, base) == Seg(start, c)
  {
  }

  /** The header that goes with piece `k` of a payload. */
  function Piece(h: bytes, p: bytes, n: nat, base: nat, k: nat): bytes
    requires |h| >= 20 && n > 0 && k < |Chunks(p, n)| && |h| + |Chunks(p, n)[k]| < 0x1_0000
  {
    Sealed(Blank(h, |h| + |Chunks(p, n)[k]|, (base + k * n) / 8, k + 1 == |Chunks(p, n)|))
  }

  lemma PieceHeader(h: bytes, p: bytes, n: nat, base: nat, k: nat)
    requires 20 <= |h| <= 60 && h[0] % 16 >= 5 && |h| + |p| <= 0xFFFF
    requires n >= 8 && n % 8 == 0 && base % 8 == 0 && base + |p| <= 0xFFFF && k < |Chunks(p, n)|
    ensures |Chunks(p, n)[k]| <= |p|
    ensures var g, c, last := Piece(h, p, n, base, k), Chunks(p, n)[k], k + 1 == |Chunks(p, n)|;
      && |g| == |h| && g[..2] == h[..2] && g[4..6] == h[4..6] && g[8..10] == h[8..10] && g[12..] == h[12..]
      && Word(g, 2) == |h| + |c| && OffsetOf(g) == base + k * n && MoreFragments(g) == !last && Verifies(g)
      && 0 < |c| <= n && (!last ==> |c| == n) && BuildSegments(p, n)[k] == Seg(k * n, c)
  {
    hide OffsetOf, Word, Verifies, MoreFragments, Sealed, Blank, Chunks, BuildSegments;
    PieceOf(p, n, base, k);
    BlankFields(h, |h| + |Chunks(p, n)[k]|, (base + k * n) / 8, k + 1 == |Chunks(p, n)|);
  }

  lemma PieceOf(p: bytes, n: nat, base: nat, k: nat)
    requires n >= 8 && n % 8 == 0 && base % 8 == 0 && base + |p| <= 0xFFFF && k < |Chunks(p, n)|
    ensures var cs, units := Chunks(p, n), (base + k * n) / 8;
      && 0 < |cs[k]| <= n && |cs[k]| <= |p| && units < 0x2000 && (k + 1 < |cs| ==> |cs[k]| == n)
      && units * 8 == base + k * n && BuildSegments(p, n)[k] == Seg(k * n, cs[k])
  {
    ChunkAt(p, n, k);
    ChunksPartition(p, n);
    UnitsExact(base, k, n);
  }

  /** The offset of a fragment is a whole number of units. */
  lemma UnitsExact(base: nat, k: nat, n: nat)
    requires base % 8 == 0 && n % 8 == 0
    ensures ((base + k * n) / 8) * 8 == base + k * n
  {
    var m := n / 8;
    assert k * n == 8 * (k * m);
  }

  lemma FragmentIs(d: bytes, g: bytes, c: bytes)
    requires |d| >= 20 && 20 <= HeaderLen(d) == |g| <= |d|
    requires g[..2] == d[..HeaderLen(d)][..2] && g[4..6] == d[..HeaderLen(d)][4..6]
    requires g[8..10] == d[..HeaderLen(d)][8..10] && g[12..] == d[..HeaderLen(d)][12..]
    ensures var f, ihl := g + c, HeaderLen(d);
      && HeaderLen(f) == ihl && f[..ihl] == g && f[ihl..] == c
      && Word(f, 2) == Word(g, 2) && OffsetOf(f) == OffsetOf(g) && MoreFragments(f) == MoreFragments(g)
      && Untouched(f, d, ihl)
  {
    var f, ihl := g + c, HeaderLen(d);
    var h := d[..ihl];
    assert f[..2] == g[..2] && f[4..6] == g[4..6] && f[8..10] == g[8..10] && f[12..ihl] == g[12..];
    assert h[..2] == d[..2] && h[4..6] == d[4..6] && h[8..10] == d[8..10] && h[12..] == d[12..ihl];
    assert f[0] == f[..2][0] == d[..2][0];
  }

  /** The receiver can read fragment `k`. */
  predicate Readable(d: bytes, f: bytes) {
    |d| >= 20 && |f| >= 20 && HeaderLen(f) <= |f| && OffsetOf(d) <= OffsetOf(f)
  }

  /** The segments that a receiver reads from fragments arriving in this order. */
  function Collected(d: bytes, mtu: nat, arrived: seq<nat>): (segs: seq<Seg>)
    requires Datagram(d) && mtu >= HeaderLen(d) + 8 && InList(|Fragments(d, mtu)|, arrived)
    ensures |segs| == |arrived|
  {
    AllReadable(d, mtu);
    seq(|arrived|, i requires 0 <= i < |arrived| => SegmentOf(Fragments(d, mtu)[arrived[i]], OffsetOf(d)))
  }

  predicate InList(n: nat, arrived: seq<nat>) {
    forall i :: 0 <= i < |arrived| ==> arrived[i] < n
  }

  lemma AllReadable(d: bytes, mtu: nat)
    requires Datagram(d) && mtu >= HeaderLen(d) + 8
    ensures forall k :: 0 <= k < |Fragments(d, mtu)| ==> Readable(d, Fragments(d, mtu)[k])
  {
    forall k | 0 <= k < |Fragments(d, mtu)| ensures Readable(d, Fragments(d, mtu)[k]) {
      FragmentCorrect(d, mtu, k);
    }
  }

  /** Segments picked from those of a byte string, none missing, put the byte string together again. */
  lemma PickedReassemble(p: bytes, n: nat, segs: seq<Seg>, arrived: seq<nat>)
    requires n > 0 && |segs| == |arrived| && InList(|BuildSegments(p, n)|, arrived)
    requires forall i :: 0 <= i < |segs| ==> segs[i] == BuildSegments(p, n)[arrived[i]]
    requires forall i :: 0 <= i < |BuildSegments(p, n)| ==> i in arrived
    ensures AllInRange(|p|, segs) && Gathered(|p|, segs).buffer == p
  {
    PickedMembers(BuildSegments(p, n), segs, arrived);
    WholeIffAll(p, n, segs);
    WholeIsOriginal(p, segs);
  }

  lemma PickedMembers(built: seq<Seg>, segs: seq<Seg>, arrived: seq<nat>)
    requires |segs| == |arrived| && InList(|built|, arrived)
    requires forall i :: 0 <= i < |segs| ==> segs[i] == built[arrived[i]]
    requires forall i :: 0 <= i < |built| ==> i in arrived
    ensures forall i :: 0 <= i < |built| ==> built[i] in segs
    ensures forall k :: 0 <= k < |segs| ==> segs[k] in built
  {
    forall i | 0 <= i < |built| ensures built[i] in segs {
      assert i in arrived;
      var j :| 0 <= j < |arrived| && arrived[j] == i;
      assert segs[j] == built[i];
    }
  }

  /** Fragments placed by their offsets, in any order and repeated or not, give the payload when none is missing. */
  lemma FragmentsReassemble(d: bytes, mtu: nat, arrived: seq<nat>)
    requires Datagram(d) && mtu >= HeaderLen(d) + 8 && InList(|Fragments(d, mtu)|, arrived)
    requires forall i :: 0 <= i < |Fragments(d, mtu)| ==> i in arrived
    ensures var segs, p := Collected(d, mtu, arrived), d[HeaderLen(d)..];
      AllInRange(|p|, segs) && Gathered(|p|, segs).buffer == p
  {
    var p, n := d[HeaderLen(d)..], MaxPayload(mtu, HeaderLen(d));
    var segs := Collected(d, mtu, arrived);
    MaxPayloadFacts(mtu, HeaderLen(d));
    forall i | 0 <= i < |segs| ensures segs[i] == BuildSegments(p, n)[arrived[i]] {
      FragmentCorrect(d, mtu, arrived[i]);
    }
    PickedReassemble(p, n, segs, arrived);
  }

  // ---- The loop -----------------------------------------------------------

  method FragmentIpv4(d: bytes, mtu: nat) returns (fragments: seq<bytes>)
    requires Datagram(d) && mtu >= HeaderLen(d) + 8
    ensures fragments == Fragments(d, mtu)
  {
    hide Blank, Checksum, Sum, Chunks;
    var ihl := HeaderLen(d);
    var header := d[..ihl];
    var payload := d[ihl..];
    var origOffset := OffsetOf(d);
    var maxPayload := MaxPayload(mtu, ihl);
    MaxPayloadFacts(mtu, ihl);
    fragments := [];
    var offset := 0;
    while offset < |payload|
      invariant 0 <= offset <= |payload| && |fragments| <= |Fragments(d, mtu)|
      invariant offset == StartOf(payload, maxPayload, |fragments|)
      invariant forall k :: 0 <= k < |fragments| ==> fragments[k] == Fragments(d, mtu)[k]
      decreases |payload| - offset
    {
      ghost var k := |fragments|;
      NextStart(payload, maxPayload, k);
      ChunkAt(payload, maxPayload, k);
      var end := if offset + maxPayload < |payload| then offset + maxPayload else |payload|;
      var chunk := payload[offset..end];
      var isLast := offset + |chunk| >= |payload|;
      var fragHeader := Blank(header, ihl + |chunk|, (origOffset + offset) / 8, isLast);
      var checksum := IpChecksum(fragHeader);
      fragHeader := fragHeader[10 := checksum / 256][11 := checksum % 256];
      fragments := fragments + [fragHeader + chunk];
      offset := offset + |chunk|;
    }
  }

  // ---- When the loop ends -------------------------------------------------

  /** The length of the slice `p[from:to]` of a list of length `n`, with the program's meaning of a negative end. */
  function SliceLen(n: nat, from: nat, to: int): nat {
    var end := if to < 0 then (if n + to < 0 then 0 else n + to) else if to > n then n else to;
    if end > from then end - from else 0
  }

  /** The offset after `k` rounds of the loop. */
  function OffsetAfter(n: nat, step: int, k: nat): nat {
    if k == 0 then 0
    else
      var o := OffsetAfter(n, step, k - 1);
      if o >= n then o else o + SliceLen(n, o, o + step)
  }

  lemma {:induction false} Stuck(n: nat, step: int, k: nat)
    requires n > 0 && step <= 0
    ensures OffsetAfter(n, step, k) < n
  {
    if k > 0 { Stuck(n, step, k - 1); }
  }

  lemma {:induction false} Advances(n: nat, step: int, k: nat)
    requires step > 0 && k <= n
    ensures OffsetAfter(n, step, k) >= k
    decreases k
  {
    if k > 0 { Advances(n, step, k - 1); }
  }

  /**
    * The loop ends exactly when there is nothing to send or the MTU leaves room for eight bytes after the header. The
    * smallest MTU that can be configured, 28, does so only for headers of 20 bytes.
    */
  lemma LoopEndsIff(mtu: nat, ihl: nat, n: nat)
    ensures (exists k :: OffsetAfter(n, MaxPayload(mtu, ihl), k) >= n) <==> n == 0 || mtu >= ihl + 8
  {
    var step := MaxPayload(mtu, ihl);
    if n == 0 {
      assert OffsetAfter(n, step, 0) >= n;
    } else if mtu >= ihl + 8 {
      Advances(n, step, n);
    } else {
      forall k ensures OffsetAfter(n, step, k) < n { Stuck(n, step, k); }
    }
  }
}

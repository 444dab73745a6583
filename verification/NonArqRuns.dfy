/** Whole receptions of non-ARQ segments: the two trackers side by side, and what they deliver. */
module NonArqRuns {
  import opened Bits
  import opened Chunking
  import opened NonArqTrackers
  import opened Prelude

  /** One segment of a C_PDU, by its first byte position. */
  datatype Seg = Seg(start: nat, payload: bytes)

  predicate InRange(size: nat, s: Seg) { s.start + |s.payload| <= size }

  predicate AllInRange(size: nat, segs: seq<Seg>) {
    forall k :: 0 <= k < |segs| ==> InRange(size, segs[k])
  }

  /** What the interval tracker delivers at each segment; a completed entry is dropped. */
  function IntervalRun(size: nat, e: Option<Entry>, segs: seq<Seg>): (out: seq<Option<bytes>>)
    requires e.Some? ==> |e.value.buffer| == e.value.size
    ensures |out| == |segs|
    decreases |segs|
  {
    if segs == [] then []
    else
      var r := Accept(if e.Some? then e.value else NewEntry(size), segs[0].start, segs[0].payload);
      [r.cpdu] + IntervalRun(size, if r.cpdu.Some? then None else Some(r.entry), segs[1..])
  }

  /** What the bitmap tracker delivers at each segment; a completed assembly is dropped. */
  function BitmapRun(size: nat, a: Option<Assembly>, segs: seq<Seg>): (out: seq<Option<bytes>>)
    requires a.Some? ==> Sound(a.value)
    ensures |out| == |segs|
    decreases |segs|
  {
    if segs == [] then []
    else
      FreshAgree(size);
      var b := Absorb(if a.Some? then a.value else NewAssembly(size), segs[0].start, segs[0].payload);
      [if Complete(b) then Some(b.buffer) else None]
      + BitmapRun(size, if Complete(b) then None else Some(b), segs[1..])
  }

  /** Both trackers are between C_PDUs, or agree on the one in progress. */
  ghost predicate SameProgress(size: nat, e: Option<Entry>, a: Option<Assembly>) {
    match e
    case None => a.None?
    case Some(x) => a.Some? && Agree(x, a.value) && x.size == size
  }

  /**
    * On any in-range segments of C_PDUs of one size, in any order, with duplicates and overlaps, over any number of
    * completions, the two trackers deliver the same bytes at the same segments.
    */
  lemma {:induction false} RunsAgree(size: nat, e: Option<Entry>, a: Option<Assembly>, segs: seq<Seg>)
    requires SameProgress(size, e, a) && AllInRange(size, segs)
    ensures IntervalRun(size, e, segs) == BitmapRun(size, a, segs)
    decreases |segs|
  {
    if segs != [] {
      FreshAgree(size);
      var x, y := if e.Some? then e.value else NewEntry(size), if a.Some? then a.value else NewAssembly(size);
      assert InRange(size, segs[0]);
      StepAgrees(x, y, segs[0].start, segs[0].payload);
      var r, b := Accept(x, segs[0].start, segs[0].payload), Absorb(y, segs[0].start, segs[0].payload);
      var e', a' := if r.cpdu.Some? then None else Some(r.entry), if Complete(b) then None else Some(b);
      assert SameProgress(size, e', a');
      TailInRange(size, segs);
      RunsAgree(size, e', a', segs[1..]);
    }
  }

  lemma TailInRange(size: nat, segs: seq<Seg>)
    requires AllInRange(size, segs) && segs != []
    ensures AllInRange(size, segs[1..])
  {
    assert forall k :: 0 <= k < |segs| - 1 ==> segs[1..][k] == segs[k + 1];
  }

  // ---- When a C_PDU completes ---------------------------------------------

  predicate Holds(s: Seg, i: int) { s.start <= i < s.start + |s.payload| }

  /** Byte `i` has arrived. */
  predicate Arrived(segs: seq<Seg>, i: int) {
    exists k :: 0 <= k < |segs| && Holds(segs[k], i)
  }

  predicate Whole(size: nat, segs: seq<Seg>) {
    forall i :: 0 <= i < size ==> Arrived(segs, i)
  }

  /** The assembly after these segments, had none of them completed it. */
  function Gathered(size: nat, segs: seq<Seg>): (a: Assembly)
    requires AllInRange(size, segs)
    ensures Sound(a) && a.size == size
  {
    if segs == [] then
      FreshAgree(size);
      NewAssembly(size)
    else
      var n := |segs| - 1;
      InitInRange(size, segs);
      Absorb(Gathered(size, segs[..n]), segs[n].start, segs[n].payload)
  }

  lemma InitInRange(size: nat, segs: seq<Seg>)
    requires AllInRange(size, segs) && segs != []
    ensures AllInRange(size, segs[..|segs| - 1])
  {
    assert forall k :: 0 <= k < |segs| - 1 ==> segs[..|segs| - 1][k] == segs[k];
  }

  lemma ArrivedSnoc(segs: seq<Seg>, i: int)
    requires segs != []
    ensures Arrived(segs, i) <==> Arrived(segs[..|segs| - 1], i) || Holds(segs[|segs| - 1], i)
  {
    var n := |segs| - 1;
    if Arrived(segs, i) {
      var k :| 0 <= k < |segs| && Holds(segs[k], i);
      assert k < n ==> segs[..n][k] == segs[k];
    }
    if Arrived(segs[..n], i) {
      var k :| 0 <= k < n && Holds(segs[..n][k], i);
      assert Holds(segs[k], i);
    }
  }

  /** The marks are exactly the bytes that have arrived. */
  lemma {:induction false} MarksAreArrivals(size: nat, segs: seq<Seg>)
    requires AllInRange(size, segs)
    ensures forall i :: 0 <= i < size ==> Gathered(size, segs).received[i] == Arrived(segs, i)
    decreases |segs|
  {
    if segs != [] {
      var n := |segs| - 1;
      InitInRange(size, segs);
      MarksAreArrivals(size, segs[..n]);
      forall i | 0 <= i < size ensures Gathered(size, segs).received[i] == Arrived(segs, i) {
        ArrivedSnoc(segs, i);
        assert InRange(size, segs[n]);
      }
    }
  }

  /** The assembly completes exactly when every byte has arrived. */
  lemma CompleteIff(size: nat, segs: seq<Seg>)
    requires AllInRange(size, segs)
    ensures Complete(Gathered(size, segs)) <==> Whole(size, segs)
  {
    MarksAreArrivals(size, segs);
    CountFull(Gathered(size, segs).received);
  }

  /** Every byte is among the first `m` segments. */
  predicate WholeBy(size: nat, segs: seq<Seg>, m: nat)
    requires m <= |segs|
  {
    Whole(size, segs[..m])
  }

  /** The bitmap tracker after the first `k` segments, as long as the C_PDU is not complete. */
  function StateAt(size: nat, segs: seq<Seg>, k: nat): (a: Option<Assembly>)
    requires AllInRange(size, segs) && k <= |segs|
    ensures a.Some? ==> Sound(a.value)
  {
    PrefixInRange(size, segs, k);
    if k == 0 then None else Some(Gathered(size, segs[..k]))
  }

  lemma PrefixInRange(size: nat, segs: seq<Seg>, k: nat)
    requires AllInRange(size, segs) && k <= |segs|
    ensures AllInRange(size, segs[..k])
  {
    assert forall j :: 0 <= j < k ==> segs[..k][j] == segs[j];
  }

  /** What the tracker delivers for the `k`-th segment, and how it goes on. */
  lemma OneStep(size: nat, segs: seq<Seg>, k: nat)
    requires AllInRange(size, segs) && k < |segs|
    ensures AllInRange(size, segs[..k + 1])
    ensures BitmapRun(size, StateAt(size, segs, k), segs[k..]) ==
      if WholeBy(size, segs, k + 1) then
        [Some(Gathered(size, segs[..k + 1]).buffer)] + BitmapRun(size, None, segs[k + 1..])
      else [None] + BitmapRun(size, StateAt(size, segs, k + 1), segs[k + 1..])
  {
    hide Absorb, Sound;
    PrefixInRange(size, segs, k);
    PrefixInRange(size, segs, k + 1);
    assert segs[..k + 1][..k] == segs[..k] && segs[..k + 1][k] == segs[k];
    assert segs[k..][0] == segs[k] && segs[k..][1..] == segs[k + 1..];
    assert k == 0 ==> segs[..k] == [];
    CompleteIff(size, segs[..k + 1]);
  }

  /**
    * A C_PDU is delivered at exactly the segment with which its last missing byte arrives, and nothing is delivered
    * before.
    */
  lemma {:induction false} DeliveredWhenWhole(size: nat, segs: seq<Seg>, k: nat, n: nat)
    requires AllInRange(size, segs) && k <= n < |segs|
    requires forall m :: k < m <= n ==> !WholeBy(size, segs, m)
    ensures AllInRange(size, segs[..n + 1])
    ensures var out := BitmapRun(size, StateAt(size, segs, k), segs[k..]);
      && (forall m :: 0 <= m < n - k ==> out[m] == None)
      && out[n - k] == if WholeBy(size, segs, n + 1) then Some(Gathered(size, segs[..n + 1]).buffer) else None
    decreases n - k
  {
    hide BitmapRun, StateAt, Gathered, WholeBy, AllInRange;
    OneStep(size, segs, k);
    if k < n { DeliveredWhenWhole(size, segs, k + 1, n); }
  }

  // ---- Segments of one C_PDU ----------------------------------------------

  /** The segment carries the bytes of `p` that its position says. */
  predicate PartOf(p: bytes, s: Seg) {
    InRange(|p|, s) && s.payload == p[s.start..s.start + |s.payload|]
  }

  predicate AllPartOf(p: bytes, segs: seq<Seg>) {
    forall k :: 0 <= k < |segs| ==> PartOf(p, segs[k])
  }

  lemma {:induction false} BufferHolds(p: bytes, segs: seq<Seg>)
    requires AllPartOf(p, segs)
    ensures AllInRange(|p|, segs)
    ensures var a := Gathered(|p|, segs); forall i :: 0 <= i < |p| && a.received[i] ==> a.buffer[i] == p[i]
    decreases |segs|
  {
    if segs != [] {
      var n := |segs| - 1;
      assert forall k :: 0 <= k < n ==> segs[..n][k] == segs[k];
      BufferHolds(p, segs[..n]);
      assert PartOf(p, segs[n]);
    }
  }

  /** What a completed assembly holds is the C_PDU. */
  lemma WholeIsOriginal(p: bytes, segs: seq<Seg>)
    requires AllPartOf(p, segs) && Whole(|p|, segs)
    ensures AllInRange(|p|, segs) && Gathered(|p|, segs).buffer == p
  {
    BufferHolds(p, segs);
    MarksAreArrivals(|p|, segs);
    assert forall i :: 0 <= i < |p| ==> Arrived(segs, i);
  }

  // ---- Segmentation -------------------------------------------------------

  /** The segments of a C_PDU, with at most `n` bytes each. */
  function BuildSegments(p: bytes, n: nat): (segs: seq<Seg>)
    requires n > 0
    ensures |segs| == |Chunks(p, n)|
  {
    seq(|Chunks(p, n)|, i requires 0 <= i < |Chunks(p, n)| => Seg(i * n, Chunks(p, n)[i]))
  }

  method BuildSegmentsLoop(cpdu: bytes, maxPayload: nat) returns (segments: seq<Seg>)
    requires maxPayload > 0
    ensures segments == BuildSegments(cpdu, maxPayload)
  {
    var size := |cpdu|;
    segments := [];
    var offset := 0;
    ghost var cs := Chunks(cpdu, maxPayload);
    while offset < size
      invariant 0 <= offset <= size && |segments| <= |cs|
      invariant offset == StartOf(cpdu, maxPayload, |segments|)
      invariant forall k :: 0 <= k < |segments| ==> segments[k] == BuildSegments(cpdu, maxPayload)[k]
      decreases size - offset
    {
      NextStart(cpdu, maxPayload, |segments|);
      var end := if offset + maxPayload < size then offset + maxPayload else size;
      var chunk := cpdu[offset..end];
      segments := segments + [Seg(offset, chunk)];
      offset := offset + |chunk|;
    }
    assert |segments| == |cs|;
  }

  /** Where segment `i` starts; the end of the C_PDU when there is no such segment. */
  function StartOf(p: bytes, n: nat, i: nat): (o: nat)
    requires n > 0
    ensures i < |Chunks(p, n)| ==> o < |p|
  {
    if i < |Chunks(p, n)| then
      ChunkAt(p, n, i);
      i * n
    else |p|
  }

  lemma NextStart(p: bytes, n: nat, i: nat)
    requires n > 0 && i <= |Chunks(p, n)| && StartOf(p, n, i) < |p|
    ensures i < |Chunks(p, n)|
    ensures var o := StartOf(p, n, i);
      var end := if o + n < |p| then o + n else |p|;
      BuildSegments(p, n)[i] == Seg(o, p[o..end]) && StartOf(p, n, i + 1) == end
  {
    ChunkLength(p, n, i);
    ChunkAt(p, n, i);
    assert (i + 1) * n == i * n + n;
  }

  /** Every chunk ends at the next multiple of the size or at the end. */
  lemma ChunkLength(p: bytes, n: nat, i: nat)
    requires n > 0 && i < |Chunks(p, n)|
    ensures 0 <= i * n < |p|
    ensures i * n + |Chunks(p, n)[i]| == if i * n + n < |p| then i * n + n else |p|
    ensures Chunks(p, n)[i] == p[i * n..i * n + |Chunks(p, n)[i]|]
  {
    ChunkAt(p, n, i);
    ChunksPartition(p, n);
  }

  lemma BuiltArePartOf(p: bytes, n: nat, i: nat)
    requires n > 0 && i < |BuildSegments(p, n)|
    ensures PartOf(p, BuildSegments(p, n)[i])
  {
    ChunkLength(p, n, i);
  }

  lemma InBlock(b: nat, n: nat, i: nat)
    requires n > 0
    ensures i * n <= b < i * n + n <==> i == b / n
  {
    if i * n <= b < i * n + n {
      DivIs(b, n, i, b - i * n);
    } else {
      assert b == n * (b / n) + b % n;
    }
  }

  lemma LessThanOne(n: nat, d: int)
    requires n > 0 && n * d < n
    ensures d <= 0
  {
  }

  lemma DivMono(a: nat, b: nat, n: nat)
    requires n > 0 && a <= b
    ensures a / n <= b / n
  {
    var x, y := a / n, b / n;
    assert n * x <= a && b < n * y + n;
    assert n * (x - y) == n * x - n * y;
    LessThanOne(n, x - y);
  }

  /** A byte belongs to one segment only: the one that its position selects. */
  lemma HolderIs(p: bytes, n: nat, i: nat, b: nat)
    requires n > 0 && i < |BuildSegments(p, n)| && b < |p|
    ensures Holds(BuildSegments(p, n)[i], b) <==> i == b / n
  {
    ChunkLength(p, n, i);
    InBlock(b, n, i);
  }

  lemma SelectedExists(p: bytes, n: nat, b: nat)
    requires n > 0 && b < |p|
    ensures b / n < |BuildSegments(p, n)|
  {
    ChunkCount(p, n);
    DivStep(|p| - 1, n);
    DivMono(b, |p| - 1, n);
  }

  /** `segs` are segments of the C_PDU, in any order, repeated or not. */
  predicate Drawn(p: bytes, n: nat, segs: seq<Seg>)
    requires n > 0
  {
    forall k :: 0 <= k < |segs| ==> segs[k] in BuildSegments(p, n)
  }

  /** With the segments of one C_PDU, every byte has arrived exactly when every segment has. */
  lemma WholeIffAll(p: bytes, n: nat, segs: seq<Seg>)
    requires n > 0 && Drawn(p, n, segs)
    ensures AllPartOf(p, segs)
    ensures Whole(|p|, segs) <==> forall i :: 0 <= i < |BuildSegments(p, n)| ==> BuildSegments(p, n)[i] in segs
  {
    hide Chunks;
    var built := BuildSegments(p, n);
    forall k | 0 <= k < |segs| ensures PartOf(p, segs[k]) {
      assert segs[k] in built;
      var i :| 0 <= i < |built| && built[i] == segs[k];
      BuiltArePartOf(p, n, i);
    }
    if Whole(|p|, segs) {
      forall i | 0 <= i < |built| ensures built[i] in segs {
        ByteBrings(p, n, segs, i);
      }
    }
    if forall i :: 0 <= i < |built| ==> built[i] in segs {
      forall b | 0 <= b < |p| ensures Arrived(segs, b) {
        SelectedExists(p, n, b);
        HolderIs(p, n, b / n, b);
        var k :| 0 <= k < |segs| && segs[k] == built[b / n];
        assert Holds(segs[k], b);
      }
    }
  }

  /** The first byte of a segment can only have come with that segment. */
  lemma ByteBrings(p: bytes, n: nat, segs: seq<Seg>, i: nat)
    requires n > 0 && Drawn(p, n, segs) && Whole(|p|, segs) && i < |BuildSegments(p, n)|
    ensures BuildSegments(p, n)[i] in segs
  {
    var built, b := BuildSegments(p, n), i * n;
    ChunkLength(p, n, i);
    DivIs(b, n, i, 0);
    assert Arrived(segs, b);
    var k :| 0 <= k < |segs| && Holds(segs[k], b);
    var j :| 0 <= j < |built| && built[j] == segs[k];
    HolderIs(p, n, j, b);
  }

  /**
    * Whatever order the segments of a C_PDU arrive in, and however often each, both trackers deliver the original
    * C_PDU with the arrival that completes the set, and nothing before.
    */
  lemma AnyOrder(p: bytes, n: nat, segs: seq<Seg>, last: nat)
    requires n > 0 && Drawn(p, n, segs) && last < |segs|
    requires forall m :: 0 < m <= last ==> !WholeBy(|p|, segs, m)
    ensures AllInRange(|p|, segs)
    ensures IntervalRun(|p|, None, segs) == BitmapRun(|p|, None, segs)
    ensures var out := BitmapRun(|p|, None, segs);
      && (forall m :: 0 <= m < last ==> out[m] == None)
      && out[last] ==
        if forall i :: 0 <= i < |BuildSegments(p, n)| ==>
          BuildSegments(p, n)[i] in segs[..last + 1] then Some(p) else None
  {
    hide IntervalRun, BitmapRun, Gathered, BuildSegments, Drawn;
    DrawnInRange(p, n, segs);
    RunsAgree(|p|, None, None, segs);
    DeliveredWhenWhole(|p|, segs, 0, last);
    assert segs[0..] == segs;
    ArrivedSoFar(p, n, segs, last + 1);
  }

  lemma DrawnInRange(p: bytes, n: nat, segs: seq<Seg>)
    requires n > 0 && Drawn(p, n, segs)
    ensures AllInRange(|p|, segs)
  {
    WholeIffAll(p, n, segs);
    assert forall k :: 0 <= k < |segs| ==> PartOf(p, segs[k]);
  }

  lemma ArrivedSoFar(p: bytes, n: nat, segs: seq<Seg>, m: nat)
    requires n > 0 && Drawn(p, n, segs) && m <= |segs|
    ensures AllInRange(|p|, segs[..m])
    ensures WholeBy(|p|, segs, m) <==> forall i :: 0 <= i < |BuildSegments(p, n)| ==>
        BuildSegments(p, n)[i] in segs[..m]
    ensures WholeBy(|p|, segs, m) ==> Gathered(|p|, segs[..m]).buffer == p
  {
    var arrived := segs[..m];
    assert forall k :: 0 <= k < |arrived| ==> arrived[k] == segs[k];
    DrawnInRange(p, n, arrived);
    WholeIffAll(p, n, arrived);
    if Whole(|p|, arrived) { WholeIsOriginal(p, arrived); }
  }
}

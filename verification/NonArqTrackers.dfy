/** The two reassembly trackers for non-ARQ segments, an interval list and a per-byte bitmap, and why they agree. */
module NonArqTrackers {
  import opened Prelude

  // ---- Intervals ----------------------------------------------------------

  /** Bytes `lo` up to, not including, `hi`. */
  datatype Range = Range(lo: int, hi: int)

  predicate Covers(rs: seq<Range>, i: int) {
    exists k :: 0 <= k < |rs| && rs[k].lo <= i < rs[k].hi
  }

  /** Sorted, and with a gap between any two neighbours. */
  predicate Normal(rs: seq<Range>) {
    && (forall k :: 0 <= k < |rs| ==> rs[k].lo <= rs[k].hi)
    && (forall j, k :: 0 <= j < k < |rs| ==> rs[j].hi < rs[k].lo)
  }

  function Min(a: int, b: int): int { if a <= b then a else b }

  function Max(a: int, b: int): int { if a >= b then a else b }

  /** A range added to a normal list: everything it touches becomes one range. */
  function Merge(rs: seq<Range>, r: Range): (m: seq<Range>)
    ensures m != []
  {
    if rs == [] then [r]
    else if rs[0].hi < r.lo then [rs[0]] + Merge(rs[1..], r)
    else if r.hi < rs[0].lo then [r] + rs
    else Merge(rs[1..], Range(Min(r.lo, rs[0].lo), Max(r.hi, rs[0].hi)))
  }

  lemma CoversCons(r: Range, rs: seq<Range>, i: int)
    ensures Covers([r] + rs, i) <==> r.lo <= i < r.hi || Covers(rs, i)
  {
    var all := [r] + rs;
    if r.lo <= i < r.hi { assert all[0] == r; }
    if Covers(rs, i) {
      var k :| 0 <= k < |rs| && rs[k].lo <= i < rs[k].hi;
      assert all[k + 1] == rs[k];
    }
  }

  lemma NormalTail(rs: seq<Range>)
    requires Normal(rs) && rs != []
    ensures Normal(rs[1..]) && forall k :: 0 <= k < |rs| - 1 ==> rs[0].hi < rs[1..][k].lo
  {
  }

  lemma NormalCons(r: Range, rs: seq<Range>)
    requires Normal(rs) && r.lo <= r.hi && forall k :: 0 <= k < |rs| ==> r.hi < rs[k].lo
    ensures Normal([r] + rs)
  {
  }

  /** Merging keeps the list normal, and what is covered is what was covered and the new range. */
  lemma {:induction false} MergeCorrect(rs: seq<Range>, r: Range, floor: int)
    requires Normal(rs) && r.lo <= r.hi
    requires floor < r.lo && forall k :: 0 <= k < |rs| ==> floor < rs[k].lo
    ensures Normal(Merge(rs, r)) && forall k :: 0 <= k < |Merge(rs, r)| ==> floor < Merge(rs, r)[k].lo
    ensures forall i :: Covers(Merge(rs, r), i) <==> Covers(rs, i) || r.lo <= i < r.hi
    decreases |rs|
  {
    if rs == [] {
      assert [r] + [] == [r];
      forall i { CoversCons(r, [], i); }
    } else {
      NormalTail(rs);
      assert rs == [rs[0]] + rs[1..];
      forall i { CoversCons(rs[0], rs[1..], i); }
      if rs[0].hi < r.lo {
        MergeCorrect(rs[1..], r, rs[0].hi);
        NormalCons(rs[0], Merge(rs[1..], r));
        forall i { CoversCons(rs[0], Merge(rs[1..], r), i); }
      } else if r.hi < rs[0].lo {
        NormalCons(r, rs);
        forall i { CoversCons(r, rs, i); }
      } else {
        var wide := Range(Min(r.lo, rs[0].lo), Max(r.hi, rs[0].hi));
        MergeCorrect(rs[1..], wide, floor);
      }
    }
  }

  /** A normal list that covers everything from 0 to a positive end is one range. */
  lemma WholeIsOne(rs: seq<Range>, size: nat)
    requires Normal(rs) && rs != [] && forall k :: 0 <= k < |rs| ==> 0 <= rs[k].lo && rs[k].hi <= size
    ensures (|rs| == 1 && rs[0].lo == 0 && rs[0].hi >= size) <==> (forall i :: 0 <= i < size ==> Covers(rs, i))
  {
    if |rs| == 1 && rs[0].lo == 0 && rs[0].hi >= size {
      forall i | 0 <= i < size ensures Covers(rs, i) {
        assert rs[0].lo <= i < rs[0].hi;
      }
    } else if |rs| > 1 {
      // the byte just past the first range lies before the second
      forall k | 0 <= k < |rs| ensures !(rs[k].lo <= rs[0].hi < rs[k].hi) {
        assert k > 1 ==> rs[1].hi < rs[k].lo;
      }
      assert !Covers(rs, rs[0].hi) && 0 <= rs[0].hi < size;
    } else if rs[0].lo > 0 {
      assert !Covers(rs, 0);
    } else {
      assert !Covers(rs, size - 1);
    }
  }

  method MergeRanges(ranges: seq<Range>, added: Range) returns (merged: seq<Range>)
    requires Normal(ranges) && added.lo <= added.hi
    ensures merged == Merge(ranges, added)
  {
    if ranges == [] { return [added]; }
    var start, end := added.lo, added.hi;
    merged := [];
    var inserted := false;
    ghost var goal := Merge(ranges, added);
    for i := 0 to |ranges|
      invariant start <= end
      invariant !inserted ==> goal == merged + Merge(ranges[i..], Range(start, end))
      invariant inserted ==> goal == merged + ranges[i..] && forall k :: i <= k < |ranges| ==> end < ranges[k].lo
    {
      var r := ranges[i];
      assert ranges[i..][0] == r && ranges[i..][1..] == ranges[i + 1..];
      if r.hi < start {
        assert !inserted;
        MoveOne(merged, r, Merge(ranges[i + 1..], Range(start, end)));
        merged := merged + [r];
      } else if end < r.lo {
        if !inserted {
          MoveOne(merged, Range(start, end), ranges[i..]);
          merged := merged + [Range(start, end)];
          inserted := true;
        }
        assert ranges[i..] == [r] + ranges[i + 1..];
        MoveOne(merged, r, ranges[i + 1..]);
        merged := merged + [r];
      } else {
        start := Min(start, r.lo);
        end := Max(end, r.hi);
      }
    }
    if !inserted {
      merged := merged + [Range(start, end)];
    }
  }

  // ---- The interval tracker -----------------------------------------------

  /** A partly received C_PDU, with the intervals received so far. */
  datatype Entry = Entry(size: nat, buffer: bytes, ranges: seq<Range>)

  function NewEntry(size: nat): (e: Entry)
    ensures |e.buffer| == size
  {
    Entry(size, Blank(size), [])
  }

  function Blank(n: nat): (b: bytes)
    ensures |b| == n
  {
    seq(n, i => 0)
  }

  /** Writing a segment over part of a buffer. */
  function Splice(buffer: bytes, start: nat, data: bytes): (b: bytes)
    requires start + |data| <= |buffer|
    ensures |b| == |buffer|
    ensures forall i :: 0 <= i < |b| ==> b[i] == if start <= i < start + |data| then data[i - start] else buffer[i]
  {
    buffer[..start] + data + buffer[start + |data|..]
  }

  datatype Accepted = Accepted(entry: Entry, cpdu: Option<bytes>)

  function Accept(e: Entry, start: int, payload: bytes): (r: Accepted)
    requires |e.buffer| == e.size
    ensures r.entry.size == e.size && |r.entry.buffer| == e.size
  {
    var end := start + |payload|;
    if start < 0 || end > e.size then Accepted(e, None)
    else
      var e' := Entry(e.size, Splice(e.buffer, start, payload), Merge(e.ranges, Range(start, end)));
      var done := |e'.ranges| == 1 && e'.ranges[0].lo == 0 && e'.ranges[0].hi >= e.size;
      Accepted(e', if done then Some(e'.buffer) else None)
  }

  // ---- The bitmap tracker -------------------------------------------------

  /** A partly received C_PDU, with one mark per byte and their number. */
  datatype Assembly = Assembly(size: nat, buffer: bytes, received: seq<bool>, count: nat)

  function NewAssembly(size: nat): Assembly {
    Assembly(size, Blank(size), seq(size, i => false), 0)
  }

  function Count(marks: seq<bool>): (n: nat)
    ensures n <= |marks|
  {
    if marks == [] then 0 else (if marks[|marks| - 1] then 1 else 0) + Count(marks[..|marks| - 1])
  }

  /** How many bytes of a segment fall inside the C_PDU. */
  function Inside(size: nat, start: nat, len: nat): (n: nat)
    ensures n <= len && (n > 0 ==> start + n <= size)
  {
    if start >= size then 0 else if start + len <= size then len else size - start
  }

  predicate Sound(a: Assembly) {
    |a.buffer| == a.size && |a.received| == a.size && a.count == Count(a.received)
  }

  function Absorb(a: Assembly, start: nat, data: bytes): (r: Assembly)
    requires Sound(a)
    ensures Sound(r) && r.size == a.size
  {
    var n := Inside(a.size, start, |data|);
    var received := seq(a.size, i requires 0 <= i < a.size => a.received[i] || start <= i < start + n);
    var buffer := seq(a.size, i requires 0 <= i < a.size =>
      if start <= i < start + n then data[i - start] else a.buffer[i]);
    Assembly(a.size, buffer, received, Count(received))
  }

  predicate Complete(a: Assembly) { a.count >= a.size }

  lemma {:induction false} CountFull(marks: seq<bool>)
    ensures Count(marks) == |marks| <==> forall i :: 0 <= i < |marks| ==> marks[i]
    decreases |marks|
  {
    if marks != [] {
      var n := |marks| - 1;
      CountFull(marks[..n]);
      assert forall i :: 0 <= i < n ==> marks[..n][i] == marks[i];
    }
  }

  lemma {:induction false} CountSet(marks: seq<bool>, k: nat)
    requires k < |marks|
    ensures Count(marks[k := true]) == Count(marks) + if marks[k] then 0 else 1
    decreases |marks|
  {
    var n := |marks| - 1;
    if k == n {
      assert marks[k := true][..n] == marks[..n];
    } else {
      CountSet(marks[..n], k);
      assert marks[k := true][..n] == marks[..n][k := true];
    }
  }

  /** The byte loop, on the arrays that the tracker keeps. */
  method AbsorbLoop(buffer: array<byte>, received: array<bool>, count: nat, start: nat, data: bytes)
    returns (total: nat)
    requires buffer.Length == received.Length && count == Count(received[..])
    modifies buffer, received
    ensures Assembly(buffer.Length, buffer[..], received[..], total)
         == Absorb(old(Assembly(buffer.Length, buffer[..], received[..], count)), start, data)
  {
    hide Count;
    total := count;
    var size := buffer.Length;
    var chunk := data[..Inside(size, start, |data|)];
    for offset := 0 to |chunk|
      invariant total == Count(received[..])
      invariant forall i :: 0 <= i < size ==>
        received[i] == (old(received[i]) || start <= i < start + offset)
      invariant forall i :: 0 <= i < size ==>
        buffer[i] == if start <= i < start + offset then data[i - start] else old(buffer[i])
    {
      var absolute := start + offset;
      ghost var marks := received[..];
      if !received[absolute] {
        CountSet(marks, absolute);
        received[absolute] := true;
        assert received[..] == marks[absolute := true];
        total := total + 1;
      }
      buffer[absolute] := chunk[offset];
    }
    ghost var goal := Absorb(old(Assembly(buffer.Length, buffer[..], received[..], count)), start, data);
    assert received[..] == goal.received;
    assert buffer[..] == goal.buffer;
  }

  // ---- Agreement ----------------------------------------------------------

  /** Both trackers have seen the same bytes. */
  ghost predicate Agree(e: Entry, a: Assembly) {
    && e.size == a.size && |e.buffer| == e.size && e.buffer == a.buffer && Sound(a)
    && Normal(e.ranges) && (forall k :: 0 <= k < |e.ranges| ==> 0 <= e.ranges[k].lo && e.ranges[k].hi <= e.size)
    && (forall i :: 0 <= i < a.size ==> a.received[i] == Covers(e.ranges, i))
  }

  lemma FreshAgree(size: nat)
    ensures Agree(NewEntry(size), NewAssembly(size))
  {
    CountNone(size);
  }

  lemma {:induction false} CountNone(n: nat)
    ensures Count(seq(n, i => false)) == 0
  {
    if n > 0 {
      CountNone(n - 1);
      assert seq(n, i => false)[..n - 1] == seq(n - 1, i => false);
    }
  }

  /** Merged ranges stay inside the C_PDU. */
  lemma {:induction false} MergeBounds(rs: seq<Range>, r: Range, size: int)
    requires 0 <= r.lo && r.hi <= size && forall k :: 0 <= k < |rs| ==> 0 <= rs[k].lo && rs[k].hi <= size
    ensures forall k :: 0 <= k < |Merge(rs, r)| ==> 0 <= Merge(rs, r)[k].lo && Merge(rs, r)[k].hi <= size
    decreases |rs|
  {
    if rs != [] {
      MergeBounds(rs[1..], r, size);
      MergeBounds(rs[1..], Range(Min(r.lo, rs[0].lo), Max(r.hi, rs[0].hi)), size);
    }
  }

  /** For a segment inside the C_PDU the trackers stay in agreement, and complete together, with the same bytes. */
  lemma StepAgrees(e: Entry, a: Assembly, start: nat, payload: bytes)
    requires Agree(e, a) && start + |payload| <= e.size
    ensures var r, b := Accept(e, start, payload), Absorb(a, start, payload);
      && Agree(r.entry, b)
      && (r.cpdu.Some? <==> Complete(b))
      && (r.cpdu.Some? ==> r.cpdu.value == b.buffer)
  {
    hide Merge, Count;
    var r, b, end := Accept(e, start, payload), Absorb(a, start, payload), start + |payload|;
    MergeCorrect(e.ranges, Range(start, end), -1);
    MergeBounds(e.ranges, Range(start, end), e.size);
    assert r.entry.buffer == b.buffer;
    WholeIsOne(r.entry.ranges, e.size);
    CountFull(b.received);
  }
}

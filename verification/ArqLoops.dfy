/** The engine's loops over its windows, each proved equal to the function that specifies it. */
module ArqLoops {
  import opened Bits
  import opened Prelude
  import opened ArqTypes
  import opened Chunking
  import opened ArqTx
  import opened ArqRx

  /** Slots are stored under their own ring index, with 8-bit labels. */
  ghost predicate SlotsLabelled(slots: map<int, TxSlot>) {
    forall k :: k in slots ==> 0 <= slots[k].seqNo < SEQ_MOD && Slot(slots[k].seqNo) == k
  }

  /** Ring index and window offset determine each other. */
  lemma OffsetOf(lwe: int, i: nat, k: int)
    requires 0 <= k < WINDOW
    ensures k == Slot(SeqAdd(lwe, i)) ==> (k - lwe) % WINDOW == i % WINDOW
    ensures (k - lwe) % WINDOW == i ==> k == Slot(SeqAdd(lwe, i))
  {
    SlotExact(lwe + i);
    if k == Slot(SeqAdd(lwe, i)) {
      var m := (lwe + i) / WINDOW;
      assert k - lwe == WINDOW * (i / WINDOW - m) + i % WINDOW;
      DivIs(k - lwe, WINDOW, i / WINDOW - m, i % WINDOW);
    }
    if (k - lwe) % WINDOW == i {
      var n := (k - lwe) / WINDOW;
      assert lwe + i == WINDOW * (-n) + k;
      DivIs(lwe + i, WINDOW, -n, k);
    }
  }

  method SegmentCpdu(p: Cpdu, nextSeq: int, uwe: int, lwe: int) returns (frames: seq<DataFrame>)
    ensures frames == FramesOf(p, nextSeq, uwe, lwe)
  {
    frames := [];
    var offset := 0;
    var s := nextSeq % SEQ_MOD;
    ghost var all := Chunks(p.payload, MAX_DATA_BYTES);
    while offset < |p.payload|
      invariant 0 <= offset <= |p.payload|
      invariant |frames| <= |all| && all[|frames|..] == Chunks(p.payload[offset..], MAX_DATA_BYTES)
      invariant offset == 0 <==> frames == []
      invariant s == SeqAdd(nextSeq, |frames|)
      invariant forall i :: 0 <= i < |frames| ==> frames[i] == FrameOf(all, i, nextSeq, p.inOrder, uwe, lwe)
      decreases |p.payload| - offset
    {
      var end := if offset + MAX_DATA_BYTES < |p.payload| then offset + MAX_DATA_BYTES else |p.payload|;
      var chunk := p.payload[offset..end];
      ChunksStep(p.payload, MAX_DATA_BYTES, offset);
      HeadAndTail(all, |frames|, chunk, Chunks(p.payload[end..], MAX_DATA_BYTES));
      SeqStep(nextSeq, |frames|);
      NextFrameOf(p, all, |frames|, nextSeq, uwe, lwe, offset, end);
      frames := frames + [DataFrame(s, chunk, offset == 0, end >= |p.payload|, p.inOrder, false, s == uwe, s == lwe)];
      s := SeqAdd(s, 1);
      offset := end;
    }
  }

  /** The frame built from the bytes at an offset is the next one of the specification. */
  lemma NextFrameOf(p: Cpdu, all: seq<bytes>, i: nat, nextSeq: int, uwe: int, lwe: int, offset: nat, end: nat)
    requires i < |all| && offset <= end <= |p.payload| && all[i] == p.payload[offset..end]
    requires (offset == 0 <==> i == 0) && (end >= |p.payload| <==> i == |all| - 1)
    ensures var s := SeqAdd(nextSeq, i);
      FrameOf(all, i, nextSeq, p.inOrder, uwe, lwe)
      == DataFrame(s, p.payload[offset..end], offset == 0, end >= |p.payload|, p.inOrder, false, s == uwe, s == lwe)
  {
  }

  lemma HeadAndTail(all: seq<bytes>, n: nat, x: bytes, rest: seq<bytes>)
    requires n <= |all| && all[n..] == [x] + rest
    ensures n < |all| && all[n] == x && all[n + 1..] == rest
    ensures rest == [] <==> n == |all| - 1
  {
    assert all[n] == all[n..][0];
    assert all[n + 1..] == all[n..][1..];
  }

  lemma SeqStep(s: int, i: int)
    ensures SeqAdd(SeqAdd(s, i), 1) == SeqAdd(s, i + 1)
  {
    var q := (s + i) / SEQ_MOD;
    assert (s + i) % SEQ_MOD + 1 == s + i + 1 - SEQ_MOD * q;
  }

  method StoreAll(slots: map<int, TxSlot>, frames: seq<DataFrame>, now: int) returns (r: map<int, TxSlot>)
    ensures r == Populate(slots, frames, now)
  {
    r := slots;
    for n := 0 to |frames|
      invariant r == Populate(slots, frames[..n], now)
    {
      assert frames[..n + 1][..n] == frames[..n];
      r := r[Slot(frames[n].seqNo) := FreshSlot(frames[n], now)];
    }
    assert frames[..|frames|] == frames;
  }

  lemma {:induction false} PopulateLabelled(slots: map<int, TxSlot>, frames: seq<DataFrame>, now: int)
    requires SlotsLabelled(slots) && forall f :: f in frames ==> 0 <= f.seqNo < SEQ_MOD
    ensures SlotsLabelled(Populate(slots, frames, now))
    decreases |frames|
  {
    if frames != [] {
      PopulateLabelled(slots, frames[..|frames| - 1], now);
    }
  }

  method ScanFor(ghost tx: Tx, slots: map<int, TxSlot>, lwe: int, count: nat, st: AckStatus) returns (i: nat)
    requires tx.slots == slots && tx.lwe == lwe && tx.count == count
    ensures i == FirstWith(tx, st, 0)
  {
    i := 0;
    while i < count
      invariant 0 <= i <= count
      invariant FirstWith(tx, st, 0) == FirstWith(tx, st, i)
    {
      var idx := Slot(SeqAdd(lwe, i));
      if idx in slots && slots[idx].status == st { return; }
      i := i + 1;
    }
  }

  /** The window after the first `n` offsets have been checked for timeouts. */
  ghost function MarkedUpTo(tx: Tx, n: nat, now: int, cfg: Config): map<int, TxSlot> {
    map k | k in tx.slots ::
      if (k - tx.lwe) % WINDOW < n then TimedOut(tx.slots[k], now, cfg) else tx.slots[k]
  }

  lemma MarkNext(tx: Tx, n: nat, now: int, cfg: Config)
    requires SlotsLabelled(tx.slots)
    ensures var k := Slot(SeqAt(tx, n));
      var m := MarkedUpTo(tx, n, now, cfg);
      MarkedUpTo(tx, n + 1, now, cfg) == if k in m then m[k := TimedOut(m[k], now, cfg)] else m
  {
    hide TimedOut;
    var k0, m, m1 := Slot(SeqAt(tx, n)), MarkedUpTo(tx, n, now, cfg), MarkedUpTo(tx, n + 1, now, cfg);
    forall k | k in tx.slots ensures m1[k] == if k == k0 then TimedOut(m[k], now, cfg) else m[k] {
      OffsetOf(tx.lwe, n, k);
      TimedOutOnce(tx.slots[k], now, cfg);
    }
  }

  lemma TimedOutOnce(s: TxSlot, now: int, cfg: Config)
    ensures TimedOut(TimedOut(s, now, cfg), now, cfg) == TimedOut(s, now, cfg)
  {
  }

  /** Some offset below `n` has status `st`. */
  predicate SomeBelow(tx: Tx, n: nat, st: AckStatus) {
    n > 0 && (HasStatus(tx, n - 1, st) || SomeBelow(tx, n - 1, st))
  }

  lemma {:induction false} SomeBelowIs(tx: Tx, n: nat, st: AckStatus, j: nat)
    requires j < n && HasStatus(tx, j, st)
    ensures SomeBelow(tx, n, st)
    decreases n
  {
    if j < n - 1 { SomeBelowIs(tx, n - 1, st, j); }
  }

  lemma {:induction false} SomeBelowFirst(tx: Tx, n: nat, st: AckStatus)
    requires n <= tx.count
    ensures SomeBelow(tx, n, st) <==> FirstWith(tx, st, 0) < n
    decreases n
  {
    var r := FirstWith(tx, st, 0);
    if n > 0 {
      SomeBelowFirst(tx, n - 1, st);
      if r == n - 1 { assert HasStatus(tx, r, st); }
      assert HasStatus(tx, n - 1, st) ==> r <= n - 1;
    }
  }

  /** The state of the scan before offset `i`. */
  ghost predicate Scanned(tx: Tx, i: nat, now: int, cfg: Config, r: map<int, TxSlot>, sent: bool, nacked: bool) {
    && r == MarkedUpTo(tx, i, now, cfg)
    && (sent <==> SomeBelow(tx, i, SentWaitAck))
    && (nacked <==> SomeBelow(MarkTimeouts(tx, now, cfg), i, Nacked))
  }

  lemma ScanStart(tx: Tx, now: int, cfg: Config)
    ensures Scanned(tx, 0, now, cfg, tx.slots, false, false)
  {
    assert tx.slots == MarkedUpTo(tx, 0, now, cfg);
  }

  lemma ScanStep(tx: Tx, i: nat, now: int, cfg: Config, r: map<int, TxSlot>, sent: bool, nacked: bool, k: int)
    requires i < tx.count && SlotsLabelled(tx.slots) && Scanned(tx, i, now, cfg, r, sent, nacked)
    requires k == Slot(SeqAt(tx, i))
    ensures Scanned(tx, i + 1, now, cfg,
                    if k in r then r[k := TimedOut(r[k], now, cfg)] else r,
                    sent || (k in r && r[k].status == SentWaitAck),
                    nacked || (k in r && TimedOut(r[k], now, cfg).status == Nacked))
  {
    MarkNext(tx, i, now, cfg);
    Visit(tx, i, now, cfg);
  }

  lemma ScanEnd(tx: Tx, now: int, cfg: Config, r: map<int, TxSlot>, sent: bool, nacked: bool)
    requires Scanned(tx, tx.count, now, cfg, r, sent, nacked)
    ensures tx.(slots := r) == MarkTimeouts(tx, now, cfg)
    ensures sent <==> FirstWith(tx, SentWaitAck, 0) < tx.count
    ensures nacked <==> FirstWith(MarkTimeouts(tx, now, cfg), Nacked, 0) < tx.count
  {
    assert tx.(slots := r) == MarkTimeouts(tx, now, cfg);
    SomeBelowFirst(tx, tx.count, SentWaitAck);
    SomeBelowFirst(MarkTimeouts(tx, now, cfg), tx.count, Nacked);
  }

  /** Marks the frames whose timer has run out; tells whether any was waiting and whether any is NACKED. */
  method ScanTimeouts(ghost tx: Tx, slots: map<int, TxSlot>, lwe: int, count: nat, now: int, cfg: Config)
      returns (r: map<int, TxSlot>, sent: bool, nacked: bool)
    requires tx.slots == slots && tx.lwe == lwe && tx.count == count && SlotsLabelled(slots)
    ensures tx.(slots := r) == MarkTimeouts(tx, now, cfg)
    ensures sent <==> FirstWith(tx, SentWaitAck, 0) < tx.count
    ensures nacked <==> FirstWith(MarkTimeouts(tx, now, cfg), Nacked, 0) < tx.count
  {
    r, sent, nacked := slots, false, false;
    ScanStart(tx, now, cfg);
    for i := 0 to count
      invariant Scanned(tx, i, now, cfg, r, sent, nacked)
    {
      var k := Slot(SeqAdd(lwe, i));
      ScanStep(tx, i, now, cfg, r, sent, nacked, k);
      var waits, bad;
      r, waits, bad := VisitSlot(r, k, now, cfg);
      sent, nacked := sent || waits, nacked || bad;
    }
    ScanEnd(tx, now, cfg, r, sent, nacked);
  }

  method VisitSlot(slots: map<int, TxSlot>, k: int, now: int, cfg: Config)
      returns (r: map<int, TxSlot>, waits: bool, nacked: bool)
    ensures r == if k in slots then slots[k := TimedOut(slots[k], now, cfg)] else slots
    ensures waits <==> k in slots && slots[k].status == SentWaitAck
    ensures nacked <==> k in slots && TimedOut(slots[k], now, cfg).status == Nacked
  {
    r, waits, nacked := slots, false, false;
    if k in slots {
      if slots[k].status == SentWaitAck {
        waits := true;
        if now - slots[k].txTime >= cfg.retxTimeout {
          r := slots[k := slots[k].(status := Nacked)];
          nacked := true;
        } else {
          assert slots[k := slots[k]] == slots;
        }
      } else {
        nacked := slots[k].status == Nacked;
        assert slots[k := slots[k]] == slots;
      }
    }
  }

  /** What the scan finds at offset `i`, and what it has found already if the same ring index came up before. */
  lemma Visit(tx: Tx, i: nat, now: int, cfg: Config)
    requires i < tx.count && SlotsLabelled(tx.slots)
    ensures var k := Slot(SeqAt(tx, i));
      var m := MarkedUpTo(tx, i, now, cfg);
      && (k in m <==> k in tx.slots)
      && (HasStatus(MarkTimeouts(tx, now, cfg), i, Nacked) <==> k in m && TimedOut(m[k], now, cfg).status == Nacked)
      && (HasStatus(tx, i, SentWaitAck) ==> m[k].status == SentWaitAck || SomeBelow(tx, i, SentWaitAck))
      && (k in m && m[k].status == SentWaitAck ==> HasStatus(tx, i, SentWaitAck))
  {
    hide SlotsLabelled;
    var k := Slot(SeqAt(tx, i));
    OffsetOf(tx.lwe, i, k);
    assert (k - tx.lwe) % WINDOW <= i;
    if (k - tx.lwe) % WINDOW < i {
      var j := (k - tx.lwe) % WINDOW;
      OffsetOf(tx.lwe, j, k);
      if HasStatus(tx, i, SentWaitAck) { SomeBelowIs(tx, i, SentWaitAck, j); }
    }
  }

  method ScanAllAcked(ghost tx: Tx, slots: map<int, TxSlot>, lwe: int, count: nat) returns (all: bool)
    requires tx.slots == slots && tx.lwe == lwe && tx.count == count
    ensures all <==> AllAcked(tx)
  {
    for i := 0 to count
      invariant forall j :: 0 <= j < i ==> HasStatus(tx, j, Acked)
    {
      var idx := Slot(SeqAdd(lwe, i));
      if idx !in slots || slots[idx].status != Acked {
        assert !HasStatus(tx, i, Acked);
        return false;
      }
    }
    return true;
  }

  method PopWindow(ghost tx: Tx, slots: map<int, TxSlot>, lwe: int, count: nat) returns (r: map<int, TxSlot>)
    requires tx.slots == slots && tx.lwe == lwe && tx.count == count && SlotsLabelled(slots)
    ensures r == map k | k in slots && !InWindow(tx, k) :: slots[k]
  {
    r := slots;
    for i := 0 to count
      invariant r == map k | k in slots && !((k - lwe) % WINDOW < i) :: slots[k]
    {
      var idx := Slot(SeqAdd(lwe, i));
      forall k | k in slots
        ensures (k - lwe) % WINDOW < i + 1 <==> (k - lwe) % WINDOW < i || k == idx
      {
        OffsetOf(lwe, i, k);
        OffsetOf(lwe, i, idx);
      }
      r := r - {idx};
    }
  }

  // ---- Acknowledgements ---------------------------------------------------

  /** The whole parse, given what has been read before bit `k`. */
  function ParseOnTop(acks: map<int, bool>, peerLwe: int, bitmap: bytes, lwe: int, count: int, k: nat): map<int, bool>
    requires k <= 8 * |bitmap|
  {
    acks + ParseSelectiveAck(peerLwe, bitmap, lwe, count, k)
  }

  lemma ParseOne(acks: map<int, bool>, peerLwe: int, bitmap: bytes, lwe: int, count: int, i: nat, bit: nat)
    requires i < |bitmap| && bit < 8
    ensures var s := SeqAdd(peerLwe, 1 + i * 8 + bit);
      var all := ParseOnTop(acks, peerLwe, bitmap, lwe, count, 8 * i + bit);
      if SeqInWindow(s, lwe, count)
      then all == ParseOnTop(acks[s := Bit(bitmap[i], bit)], peerLwe, bitmap, lwe, count, 8 * i + bit + 1)
      else all == acks && SeqDist(lwe, s) >= count
  {
    var k := 8 * i + bit;
    assert k / 8 == i && k % 8 == bit;
    var s := SeqAdd(peerLwe, 1 + k);
    if SeqInWindow(s, lwe, count) {
      var rest := ParseSelectiveAck(peerLwe, bitmap, lwe, count, k + 1);
      assert acks + (map[s := BitAt(bitmap, k)] + rest) == acks[s := BitAt(bitmap, k)] + rest;
    }
  }

  method ParseBitmap(peerLwe: int, bitmap: bytes, lwe: int, count: int) returns (acks: map<int, bool>)
    ensures acks == ParseSelectiveAck(peerLwe, bitmap, lwe, count, 0)
  {
    acks := map[];
    ghost var all := ParseSelectiveAck(peerLwe, bitmap, lwe, count, 0);
    var i := 0;
    while i < |bitmap|
      invariant 0 <= i <= |bitmap|
      invariant all == ParseOnTop(acks, peerLwe, bitmap, lwe, count, 8 * i)
    {
      var bit := 0;
      while bit < 8
        invariant 0 <= bit <= 8
        invariant all == ParseOnTop(acks, peerLwe, bitmap, lwe, count, 8 * i + bit)
      {
        var s := SeqAdd(peerLwe, 1 + i * 8 + bit);
        ParseOne(acks, peerLwe, bitmap, lwe, count, i, bit);
        if !SeqInWindow(s, lwe, count) {
          if SeqDist(lwe, s) >= count { return; }
        }
        acks := acks[s := Bit(bitmap[i], bit)];
        bit := bit + 1;
      }
      i := i + 1;
    }
  }

  lemma {:induction false} ParsedInWindow(peerLwe: int, bitmap: bytes, lwe: int, count: int, k: nat, s: int)
    requires k <= 8 * |bitmap|
    ensures s in ParseSelectiveAck(peerLwe, bitmap, lwe, count, k) ==> SeqInWindow(s, lwe, count)
    decreases 8 * |bitmap| - k
  {
    if k < 8 * |bitmap| { ParsedInWindow(peerLwe, bitmap, lwe, count, k + 1, s); }
  }

  lemma NonEmpty(s: set<int>)
    requires s != {}
    ensures exists x :: x in s
  {
    assert (forall x :: x !in s) ==> s == {};
  }

  /** Applies every entry of a parsed bitmap, in whatever order, to the slot of its number. */
  method ApplyAcks(slots: map<int, TxSlot>, acks: map<int, bool>, lwe: int, count: int) returns (r: map<int, TxSlot>)
    requires SlotsLabelled(slots)
    requires forall s :: s in acks ==> SeqInWindow(s, lwe, count)
    ensures r == map k | k in slots :: Marked(slots[k], k, acks)
  {
    r := slots;
    var todo: set<int> := acks.Keys;
    while todo != {}
      invariant todo <= acks.Keys
      invariant r.Keys == slots.Keys
      invariant forall k :: k in slots ==>
          r[k] == if slots[k].seqNo in todo then slots[k] else Marked(slots[k], k, acks)
      decreases todo
    {
      NonEmpty(todo);
      var s :| s in todo;
      todo := todo - {s};
      if SeqInWindow(s, lwe, count) {
        var k := Slot(s);
        if k in r && r[k].seqNo == s {
          if acks[s] {
            r := r[k := r[k].(status := Acked)];
          } else if r[k].status != Pending {
            r := r[k := r[k].(status := Nacked)];
          }
        }
      }
    }
  }

  /** Marks as ACKED the frames at the first `advance` offsets. */
  method AckFirst(ghost tx: Tx, slots: map<int, TxSlot>, lwe: int, advance: nat) returns (r: map<int, TxSlot>)
    requires tx.slots == slots && tx.lwe == lwe && SlotsLabelled(slots)
    requires 0 <= lwe < SEQ_MOD && advance < SEQ_MOD
    ensures r == AckPrefix(tx, advance)
  {
    r := slots;
    assert r == AckPrefix(tx, 0);
    for i := 0 to advance
      invariant r == AckPrefix(tx, i)
    {
      var s := SeqAdd(lwe, i);
      var k := Slot(s);
      ghost var next := AckPrefix(tx, i + 1);
      forall x | x in slots
        ensures SeqDist(lwe, slots[x].seqNo) < i + 1 <==> SeqDist(lwe, slots[x].seqNo) < i || slots[x].seqNo == s
      {
        DistOfAdd(lwe, i, slots[x].seqNo);
      }
      if k in r && r[k].seqNo == s {
        r := r[k := r[k].(status := Acked)];
      }
      assert r == next;
    }
  }

  lemma DistOfAdd(lwe: int, i: nat, s: int)
    requires 0 <= lwe < SEQ_MOD && i < SEQ_MOD && 0 <= s < SEQ_MOD
    ensures SeqDist(lwe, s) == i <==> s == SeqAdd(lwe, i)
  {
  }

  // ---- Receive ring -------------------------------------------------------

  method FindUpperEdge(lwe: int, window: array<RxSlot>) returns (uwe: nat)
    requires window.Length == WINDOW
    ensures uwe == UpperEdge(window[..], lwe, WINDOW)
  {
    uwe := 0;
    for i := 1 to WINDOW + 1
      invariant uwe == UpperEdge(window[..], lwe, i - 1)
    {
      var s := SeqAdd(lwe, i);
      if window[Slot(s)].seqNo == s && window[Slot(s)].status != Empty {
        uwe := i;
      }
    }
  }

  method BuildBitmap(lwe: int, window: array<RxSlot>) returns (bitmap: bytes)
    requires window.Length == WINDOW
    ensures bitmap == Bitmap(window[..], lwe)
  {
    hide Has, UpperEdge;
    ghost var ring: RxRing := window[..];
    var uwe := FindUpperEdge(lwe, window);
    assert Pow2(8) == 256;
    bitmap := [];
    var bit, current := 0, 0;
    for k := 0 to uwe
      invariant 0 <= bit < 8 && k == 8 * |bitmap| + bit
      invariant forall j :: 0 <= j < |bitmap| ==> bitmap[j] == BitmapByte(ring, lwe, uwe, j, 8)
      invariant current == BitmapByte(ring, lwe, uwe, |bitmap|, bit)
    {
      var s := SeqAdd(lwe, k + 1);
      current := BitmapAccumulate(window, s, current, bit);
      assert current == BitmapByte(ring, lwe, uwe, |bitmap|, bit + 1);
      bit := bit + 1;
      if bit >= 8 {
        bitmap := bitmap + [current];
        bit, current := 0, 0;
      }
    }
    if bit > 0 {
      PadByte(ring, lwe, uwe, |bitmap|, bit, 8);
      bitmap := bitmap + [current];
    }
  }

  /** Sets bit `bit` of the byte under construction when the ring holds `s`. */
  method BitmapAccumulate(window: array<RxSlot>, s: int, current: nat, bit: nat) returns (r: nat)
    requires window.Length == WINDOW
    ensures r == current + if Has(window[..], s) then Pow2(bit) else 0
  {
    r := if window[Slot(s)].seqNo == s && window[Slot(s)].status == Received then current + Pow2(bit) else current;
  }

  /** Bits beyond the upper edge add nothing. */
  lemma {:induction false} PadByte(ring: RxRing, lwe: int, uwe: nat, j: nat, b: nat, n: nat)
    requires uwe == 8 * j + b && b <= n
    ensures BitmapByte(ring, lwe, uwe, j, n) == BitmapByte(ring, lwe, uwe, j, b)
    decreases n
  {
    if b < n { PadByte(ring, lwe, uwe, j, b, n - 1); }
  }

  /** A frame held at `lwe` cannot be held again one turn of the ring later. */
  lemma FullTurn(ring: RxRing, lwe: int)
    requires 0 <= lwe < SEQ_MOD && Has(ring, SeqAdd(lwe, 0))
    ensures !Has(ring, SeqAdd(lwe, WINDOW))
  {
    OffsetTurn(lwe);
  }

  lemma OffsetTurn(lwe: int)
    requires 0 <= lwe < SEQ_MOD
    ensures Slot(SeqAdd(lwe, WINDOW)) == Slot(lwe) && SeqAdd(lwe, WINDOW) != lwe == SeqAdd(lwe, 0)
  {
    SlotExact(lwe + WINDOW);
  }

  /** A search result seen from `n` steps earlier. */
  function Later(n: nat, found: Option<nat>): Option<nat> {
    match found
    case None => None
    case Some(m) => Some(n + m)
  }

  lemma CountBack(end: int, n: nat)
    requires 0 <= end < SEQ_MOD && n < WINDOW
    ensures SeqDist(Back(end, n), end) == n
  {
    DistExact(end - n, end);
  }

  lemma BackAt(end: int, n: nat, i: nat)
    requires 0 <= end < SEQ_MOD && i <= n < WINDOW
    ensures SeqAdd(Back(end, n), i) == Back(end, n - i)
  {
    AddExact(end - n, i);
  }

  /** Every slot from the first segment to the last of a C_PDU found by the backward search is held. */
  lemma CollectAll(ring: RxRing, end: int, n: nat)
    requires 0 <= end < SEQ_MOD && StartBack(ring, end, WINDOW) == Some(n)
    ensures forall i :: 0 <= i < n + 1 ==> Has(ring, SeqAdd(Back(end, n), i))
  {
    StartBackFound(ring, end, WINDOW);
    forall i | 0 <= i < n + 1 ensures Has(ring, SeqAdd(Back(end, n), i)) {
      BackAt(end, n, i);
      assert Has(ring, Back(end, n - i));
    }
  }

  lemma ClearNext(ring: RxRing, s: int, i: nat)
    requires i < WINDOW
    ensures var k := Slot(SeqAdd(s, i));
      Cleared(ring, s, i + 1) ==
        Cleared(ring, s, i)[k := Cleared(ring, s, i)[k].(seqNo := -1, data := [], status := Empty)]
  {
    var k0 := Slot(SeqAdd(s, i));
    forall k | 0 <= k < WINDOW ensures InRun(k, s, i + 1) <==> InRun(k, s, i) || k == k0 {
      OffsetOf(s, i, k);
    }
  }
}

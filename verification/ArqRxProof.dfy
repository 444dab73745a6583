/** What one DATA frame does to a receiver that is in step with the segment stream. */
module ArqRxProof {
  import opened Prelude
  import opened ArqTypes
  import opened ArqSegs
  import opened ArqTx
  import opened ArqRx

  /** The ring holds the segment with absolute number `s`. */
  predicate Holds(ring: RxRing, s: nat) {
    Has(ring, s % SEQ_MOD)
  }

  /** The segment is below the lower window edge `r` or held in the ring. */
  predicate Got(ring: RxRing, r: nat, s: nat) {
    s < r || Holds(ring, s)
  }

  /** A frame carries exactly the segment with absolute number `s`. */
  predicate Carries(f: DataFrame, segs: seq<Seg>, s: nat) {
    && s < |segs|
    && f.seqNo == s % SEQ_MOD
    && Seg(f.chunk, f.pduStart, f.pduEnd) == segs[s]
    && !f.dropPdu
  }

  /** If the slot of number `s` holds a frame, it is segment `s`, already sent. */
  predicate SlotTrue(ring: RxRing, segs: seq<Seg>, top: nat, s: nat) {
    var slot := ring[Slot(s)];
    slot.status == Received ==>
      && s < top <= |segs|
      && slot.seqNo == s % SEQ_MOD
      && Seg(slot.data, slot.pduStart, slot.pduEnd) == segs[s]
  }

  /** The ring agrees with the stream: base `d` of the C_PDU in progress, edge `r`, first unsent number `top`. */
  ghost predicate RingInv(ring: RxRing, segs: seq<Seg>, d: nat, r: nat, top: nat) {
    && d <= r <= top <= |segs|
    && top <= d + WINDOW
    && (forall s :: d <= s < d + WINDOW ==> SlotTrue(ring, segs, top, s))
    && (forall s :: d <= s < r ==> Holds(ring, s))
  }

  /** Segments `d` to `top` form one C_PDU. */
  predicate OneCpdu(segs: seq<Seg>, d: nat, top: nat)
    requires d <= top <= |segs|
  {
    forall s :: d <= s < top ==> (segs[s].pduStart <==> s == d) && (segs[s].pduEnd <==> s == top - 1)
  }

  /** Nothing beyond the sent numbers is ever held. */
  lemma HeldIsSent(ring: RxRing, segs: seq<Seg>, d: nat, r: nat, top: nat, s: nat)
    requires RingInv(ring, segs, d, r, top)
    requires d <= s < d + SEQ_MOD
    requires Holds(ring, s)
    ensures s < top
  {
    SlotExact(s);
    var s' := if s < d + WINDOW then s else s - WINDOW;
    assert Slot(s') == Slot(s);
    assert SlotTrue(ring, segs, top, s');
    LabelInjective(s, s');
  }

  /** The agreement survives more segments and more numbers sent. */
  lemma RingInvGrows(ring: RxRing, segs: seq<Seg>, segs1: seq<Seg>, d: nat, r: nat, top: nat, top1: nat)
    requires RingInv(ring, segs, d, r, top)
    requires segs <= segs1 && top <= top1 <= |segs1| && top1 <= d + WINDOW
    ensures RingInv(ring, segs1, d, r, top1)
  {
    forall s | d <= s < d + WINDOW ensures SlotTrue(ring, segs1, top1, s) {
      assert SlotTrue(ring, segs, top, s);
    }
  }

  /** Storing segment `s` in its slot keeps the agreement and loses no segment. */
  lemma StoreKeeps(ring: RxRing, segs: seq<Seg>, d: nat, r: nat, top: nat, f: DataFrame, s: nat)
    requires RingInv(ring, segs, d, r, top)
    requires Carries(f, segs, s) && r <= s < top
    ensures RingInv(ring[Slot(s) := Stored(f, false)], segs, d, r, top)
    ensures Holds(ring[Slot(s) := Stored(f, false)], s)
    ensures forall x :: d <= x < d + SEQ_MOD && Holds(ring, x) ==> Holds(ring[Slot(s) := Stored(f, false)], x)
    ensures forall x :: d <= x < d + SEQ_MOD && Holds(ring[Slot(s) := Stored(f, false)], x) ==> x == s || Holds(ring, x)
  {
    var ring1 := ring[Slot(s) := Stored(f, false)];
    SlotExact(s);
    forall x | d <= x < d + WINDOW ensures SlotTrue(ring1, segs, top, x) {
      assert SlotTrue(ring, segs, top, x);
      if Slot(x) == Slot(s) { SlotInjective(x, s); }
    }
    forall x | d <= x < d + SEQ_MOD
      ensures Holds(ring, x) ==> Holds(ring1, x)
      ensures Holds(ring1, x) ==> x == s || Holds(ring, x)
    {
      SlotExact(x);
      if Slot(x) == Slot(s) {
        if Holds(ring, x) {
          HeldIsSent(ring, segs, d, r, top, x);
          SlotInjective(x, s);
        }
        if Holds(ring1, x) { LabelInjective(x, s); }
      }
    }
  }

  /** A run counted by the engine is a run of held absolute numbers, and ends at a number not held. */
  lemma RunIsHeld(ring: RxRing, segs: seq<Seg>, d: nat, r: nat, top: nat)
    requires RingInv(ring, segs, d, r, top)
    ensures var n := RunLength(ring, r % SEQ_MOD, 0);
      && RingInv(ring, segs, d, r + n, top)
      && !Holds(ring, r + n)
      && SeqAdd(r % SEQ_MOD, n) == (r + n) % SEQ_MOD
  {
    hide RunLength;
    var n := RunLength(ring, r % SEQ_MOD, 0);
    forall s | r <= s < r + n ensures Holds(ring, s) {
      AddExact(r, s - r);
      assert Has(ring, SeqAdd(r % SEQ_MOD, s - r));
    }
    AddExact(r, n);
    if r + n > top { HeldIsSent(ring, segs, d, r, top, top); }
    if n == WINDOW && Holds(ring, r + n) { HeldIsSent(ring, segs, d, r, top, r + n); }
  }

  /** The backward search from segment `d + m` of the C_PDU finds its first segment. */
  lemma {:induction false} SearchFindsStart(ring: RxRing, segs: seq<Seg>, d: nat, r: nat, top: nat, m: nat, fuel: nat)
    requires RingInv(ring, segs, d, r, top) && OneCpdu(segs, d, top)
    requires d + m < r && m < fuel
    ensures StartBack(ring, (d + m) % SEQ_MOD, fuel) == Some(m)
    decreases m
  {
    var s := d + m;
    SlotExact(s);
    assert Holds(ring, s) && SlotTrue(ring, segs, top, s);
    if m > 0 {
      AddExact(s, SEQ_MOD - 1);
      LabelInjective(s - 1, (s + SEQ_MOD - 1) - SEQ_MOD);
      assert SeqAdd(s % SEQ_MOD, SEQ_MOD - 1) == (s - 1) % SEQ_MOD;
      SearchFindsStart(ring, segs, d, r, top, m - 1, fuel - 1);
    }
  }

  lemma {:induction false} RingDataIs(ring: RxRing, segs: seq<Seg>, d: nat, r: nat, top: nat, n: nat)
    requires RingInv(ring, segs, d, r, top) && d + n <= r
    ensures RingData(ring, d % SEQ_MOD, n) == Data(segs[d..d + n])
    decreases n
  {
    if n > 0 {
      RingDataIs(ring, segs, d, r, top, n - 1);
      AddExact(d, n - 1);
      SlotExact(d + n - 1);
      assert Holds(ring, d + n - 1) && SlotTrue(ring, segs, top, d + n - 1);
      assert segs[d..d + n][..n - 1] == segs[d..d + n - 1];
    }
  }

  /** Below a complete C_PDU nothing is delivered. */
  lemma {:induction false} NoEarlyEnd(rx: Rx, segs: seq<Seg>, d: nat, r: nat, top: nat, i: nat)
    requires RingInv(rx.ring, segs, d, r, top) && OneCpdu(segs, d, top)
    requires rx.deliverLwe == d % SEQ_MOD
    requires d + i <= r < top
    ensures FirstEnd(rx, i, r - d) == r - d
    decreases r - d - i
  {
    if d + i < r {
      AddExact(d, i);
      SlotExact(d + i);
      assert Holds(rx.ring, d + i) && SlotTrue(rx.ring, segs, top, d + i);
      NoEarlyEnd(rx, segs, d, r, top, i + 1);
    }
  }

  /** The first end found in a complete C_PDU is its last segment. */
  lemma {:induction false} EndIsLast(rx: Rx, segs: seq<Seg>, d: nat, top: nat, i: nat)
    requires RingInv(rx.ring, segs, d, top, top) && OneCpdu(segs, d, top)
    requires rx.deliverLwe == d % SEQ_MOD
    requires d + i < top
    ensures FirstEnd(rx, i, top - d) == top - 1 - d
    decreases top - d - i
  {
    AddExact(d, i);
    SlotExact(d + i);
    assert Holds(rx.ring, d + i) && SlotTrue(rx.ring, segs, top, d + i);
    if d + i == top - 1 {
      SearchFindsStart(rx.ring, segs, d, top, top, i, WINDOW);
    } else {
      EndIsLast(rx, segs, d, top, i + 1);
    }
  }

  /** Delivering a complete C_PDU empties the ring of everything sent so far. */
  lemma DeliveredEmpty(ring: RxRing, segs: seq<Seg>, d: nat, top: nat)
    requires RingInv(ring, segs, d, top, top) && d < top
    ensures RingInv(Cleared(ring, d % SEQ_MOD, top - d), segs, top, top, top)
    ensures !Holds(Cleared(ring, d % SEQ_MOD, top - d), top)
  {
    var ring1 := Cleared(ring, d % SEQ_MOD, top - d);
    forall x | top <= x < top + WINDOW ensures ring1[Slot(x)].status != Received {
      var s := if x < d + WINDOW then x else x - WINDOW;
      assert Slot(s) == Slot(x);
      assert SlotTrue(ring, segs, top, s);
      CyclicOffset(d, s);
    }
    forall x | top <= x < top + WINDOW ensures SlotTrue(ring1, segs, top, x) {
      assert ring1[Slot(x)].status != Received;
    }
    SlotExact(top);
    assert ring1[Slot(top)].status != Received;
  }

  /** The cyclic distance between ring indices is the distance of the numbers. */
  lemma CyclicOffset(d: nat, s: nat)
    requires d <= s < d + WINDOW
    ensures (Slot(s) - d % SEQ_MOD) % WINDOW == s - d
  {
    SlotExact(d);
    var x := Slot(s) - d % SEQ_MOD;
    var q := s / WINDOW;
    var p := d / SEQ_MOD;
    assert x == (s - d) + WINDOW * (2 * p - q);
  }

  /** One round of the delivery loop. */
  lemma DeliverOne(rx: Rx, i: nat, n: nat)
    requires i < SeqDist(rx.deliverLwe, rx.lwe)
    requires FirstEnd(rx, 0, SeqDist(rx.deliverLwe, rx.lwe)) == i
    requires StartBack(rx.ring, SeqAdd(rx.deliverLwe, i), WINDOW) == Some(n)
    ensures TryDeliver(rx) == TryDeliver(Delivered(rx, SeqAdd(rx.deliverLwe, i), n))
  {
  }

  lemma DeliveredIs(rx: Rx, segs: seq<Seg>, d: nat, top: nat)
    requires RingInv(rx.ring, segs, d, top, top) && d < top
    requires rx.deliverLwe == d % SEQ_MOD
    ensures Delivered(rx, (top - 1) % SEQ_MOD, top - 1 - d)
         == rx.(ring := Cleared(rx.ring, d % SEQ_MOD, top - d),
                delivered := rx.delivered + [Data(segs[d..top])],
                deliverLwe := top % SEQ_MOD)
  {
    BackIs(d, top - 1 - d);
    AddExact(top - 1, 1);
    RingDataIs(rx.ring, segs, d, top, top, top - d);
  }

  /** While segments of the C_PDU in progress are missing, nothing is delivered. */
  lemma NoDelivery(rx: Rx, segs: seq<Seg>, d: nat, r: nat, top: nat)
    requires RingInv(rx.ring, segs, d, r, top) && OneCpdu(segs, d, top)
    requires rx.deliverLwe == d % SEQ_MOD && rx.lwe == r % SEQ_MOD
    requires r < top
    ensures TryDeliver(rx) == rx
  {
    DistExact(d, r);
    NoEarlyEnd(rx, segs, d, r, top, 0);
  }

  /** When its last segment is in, exactly the C_PDU in progress is delivered. */
  lemma FullDelivery(rx: Rx, segs: seq<Seg>, d: nat, top: nat)
    requires RingInv(rx.ring, segs, d, top, top) && OneCpdu(segs, d, top)
    requires rx.deliverLwe == d % SEQ_MOD && rx.lwe == top % SEQ_MOD
    requires d < top
    ensures TryDeliver(rx) == rx.(ring := Cleared(rx.ring, d % SEQ_MOD, top - d),
                                  delivered := rx.delivered + [Data(segs[d..top])],
                                  deliverLwe := top % SEQ_MOD)
  {
    var n := top - 1 - d;
    assert SeqDist(rx.deliverLwe, rx.lwe) == n + 1 by { DistExact(d, top); }
    EndIsLast(rx, segs, d, top, 0);
    assert SeqAdd(rx.deliverLwe, n) == (top - 1) % SEQ_MOD by { AddExact(d, n); }
    SearchFindsStart(rx.ring, segs, d, top, top, n, WINDOW);
    DeliverOne(rx, n, n);
    DeliveredIs(rx, segs, d, top);
    NothingLeft(Delivered(rx, (top - 1) % SEQ_MOD, n));
  }

  lemma NothingLeft(rx: Rx)
    requires rx.lwe == rx.deliverLwe
    ensures TryDeliver(rx) == rx
  {
    assert SeqDist(rx.deliverLwe, rx.lwe) == 0;
  }

  lemma BackIs(d: nat, n: nat)
    ensures Back((d + n) % SEQ_MOD, n) == d % SEQ_MOD
  {
    var x := (d + n) % SEQ_MOD;
    assert x - n == d - SEQ_MOD * ((d + n) / SEQ_MOD);
  }

  /** Summary of the receiver after an intact frame carrying segment `s` of the C_PDU from `d` to `top`. */
  lemma OnDataExact(rx: Rx, segs: seq<Seg>, d: nat, r: nat, top: nat, f: DataFrame, s: nat)
      returns (r1: nat)
    requires RingInv(rx.ring, segs, d, r, top) && OneCpdu(segs, d, top)
    requires rx.deliverLwe == d % SEQ_MOD && rx.lwe == r % SEQ_MOD
    requires Carries(f, segs, s) && r <= s + WINDOW && s < top
    requires r == top ==> d == top
    requires !Holds(rx.ring, r)
    ensures var rx1 := OnData(rx, f, false);
      && r <= r1 <= top
      && (s < r ==> r1 == r && rx1 == rx.(ackDirty := true))
      && rx1.ackDirty
      && rx1.lwe == r1 % SEQ_MOD
      && !Holds(rx1.ring, r1)
      && (r1 == r == top ==> rx1 == rx.(ackDirty := true))
      && (r1 < top ==> RingInv(rx1.ring, segs, d, r1, top) && rx1.deliverLwe == rx.deliverLwe
                       && rx1.delivered == rx.delivered)
      && (r < r1 == top ==> RingInv(rx1.ring, segs, top, top, top) && rx1.deliverLwe == top % SEQ_MOD
                            && rx1.delivered == rx.delivered + [Data(segs[d..top])])
      && (forall x :: d <= x < d + SEQ_MOD && Got(rx.ring, r, x) ==> Got(rx1.ring, r1, x))
      && Got(rx1.ring, r1, s)
      && (forall x :: top <= x < top + WINDOW ==> !Holds(rx1.ring, x))
      && (forall x :: d <= x < d + SEQ_MOD && Got(rx1.ring, r1, x) ==> Got(rx.ring, r, x) || x == s)
  {
    hide RunLength;
    WindowTestExact(s, r);
    if s < r {
      r1 := r;
      forall x | top <= x < top + WINDOW ensures !Holds(rx.ring, x) {
        if Holds(rx.ring, x) { HeldIsSent(rx.ring, segs, d, r, top, x); }
      }
    } else {
      SlotExact(s);
      StoreKeeps(rx.ring, segs, d, r, top, f, s);
      var ring1 := rx.ring[Slot(s) := Stored(f, false)];
      RunIsHeld(ring1, segs, d, r, top);
      r1 := r + RunLength(ring1, r % SEQ_MOD, 0);
      var rx2 := Advanced(rx.(ring := ring1));
      if r1 == top { FullDelivery(rx2, segs, d, top); } else { NoDelivery(rx2, segs, d, r1, top); }
      forall x | d <= x < d + SEQ_MOD && Got(rx.ring, r, x)
        ensures Got(OnData(rx, f, false).ring, r1, x)
      {
        if r <= x {
          assert Holds(ring1, x);
          if r1 == top { HeldIsSent(ring1, segs, d, r1, top, x); }
        }
      }
      if r1 == top {
        DeliveredEmpty(ring1, segs, d, top);
        var ring2 := Cleared(ring1, d % SEQ_MOD, top - d);
        forall x | top <= x < top + WINDOW ensures !Holds(ring2, x) {
          if Holds(ring2, x) { HeldIsSent(ring2, segs, top, top, top, x); }
        }
      } else {
        forall x | top <= x < top + WINDOW ensures !Holds(ring1, x) {
          if Holds(ring1, x) { HeldIsSent(ring1, segs, d, r1, top, x); }
        }
      }
    }
  }
}

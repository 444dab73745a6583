/** The selective ACK bitmap: what is built is what is parsed. */
module ArqAckProof {
  import opened Bits
  import opened Prelude
  import opened ArqTypes
  import opened ArqTx
  import opened ArqRx

  lemma {:induction false} ByteBits(ring: RxRing, lwe: int, uwe: nat, j: nat, n: nat, b: nat)
    requires b < n
    ensures Bit(BitmapByte(ring, lwe, uwe, j, n), b) <==> 8 * j + b < uwe && Has(ring, SeqAdd(lwe, 1 + 8 * j + b))
    decreases n
  {
    AddWeight(BitmapByte(ring, lwe, uwe, j, n - 1), BitWeight(ring, lwe, uwe, j, n - 1), n - 1, b);
    if b < n - 1 { ByteBits(ring, lwe, uwe, j, n - 1, b); }
  }

  /** The bitmap is at most 16 bytes; bit `k` is set exactly when frame `k + 1` above the edge is held. */
  lemma BitmapExact(ring: RxRing, lwe: int, k: nat)
    ensures |Bitmap(ring, lwe)| <= 16
    ensures 8 * |Bitmap(ring, lwe)| < UpperEdge(ring, lwe, WINDOW) + 8
    ensures UpperEdge(ring, lwe, WINDOW) <= 8 * |Bitmap(ring, lwe)|
    ensures k < 8 * |Bitmap(ring, lwe)| ==>
      (BitAt(Bitmap(ring, lwe), k) <==> k < UpperEdge(ring, lwe, WINDOW) && Has(ring, SeqAdd(lwe, 1 + k)))
    ensures k < WINDOW && Has(ring, SeqAdd(lwe, 1 + k)) ==> k < UpperEdge(ring, lwe, WINDOW)
  {
    if k < 8 * |Bitmap(ring, lwe)| {
      ByteBits(ring, lwe, UpperEdge(ring, lwe, WINDOW), k / 8, 8, k % 8);
    }
    if k < WINDOW && Has(ring, SeqAdd(lwe, 1 + k)) {
      assert Seen(ring, lwe, k + 1);
    }
  }

  /** Bit `j` of an ACK with edge `peer` speaks of the sequence number `s`, inside the window. */
  predicate Names(peer: nat, t: nat, count: nat, j: nat, s: int) {
    peer + 1 + j < t + count && s == (peer + 1 + j) % SEQ_MOD
  }

  /** The parser reads bit `j` for the number `j + 1` above the peer's edge, as long as the window lasts. */
  lemma {:induction false} ParseExact(peer: nat, bitmap: bytes, t: nat, count: nat, k: nat, s: int)
    requires |bitmap| <= 16 && t <= peer <= t + count && count <= WINDOW
    requires k <= 8 * |bitmap|
    requires k > 0 ==> peer + k < t + count
    ensures var m := ParseSelectiveAck(peer % SEQ_MOD, bitmap, t % SEQ_MOD, count, k);
      && (s in m ==> exists j :: k <= j < 8 * |bitmap| && Names(peer, t, count, j, s) && m[s] == BitAt(bitmap, j))
      && (s !in m ==> forall j :: k <= j < 8 * |bitmap| ==> !Names(peer, t, count, j, s))
    decreases 8 * |bitmap| - k
  {
    var m := ParseSelectiveAck(peer % SEQ_MOD, bitmap, t % SEQ_MOD, count, k);
    if k < 8 * |bitmap| {
      AddExact(peer, 1 + k);
      DistExact(t, peer + 1 + k);
      if peer + 1 + k < t + count {
        var rest := ParseSelectiveAck(peer % SEQ_MOD, bitmap, t % SEQ_MOD, count, k + 1);
        var here := (peer + 1 + k) % SEQ_MOD;
        ParseExact(peer, bitmap, t, count, k + 1, s);
        assert m == map[here := BitAt(bitmap, k)] + rest;
        assert Names(peer, t, count, k, here);
        if s in rest {
          assert m[s] == rest[s];
        } else if s == here {
          assert m[s] == BitAt(bitmap, k);
        }
      } else {
        assert m == map[];
      }
    }
  }

  /** The value parsed for absolute number `x` is its own bit. */
  lemma ParsedBit(peer: nat, bitmap: bytes, t: nat, count: nat, x: nat)
    requires |bitmap| <= 16 && t <= peer <= t + count && count <= WINDOW
    requires t <= x < t + count
    ensures var m := ParseSelectiveAck(peer % SEQ_MOD, bitmap, t % SEQ_MOD, count, 0);
      && (x % SEQ_MOD in m <==> peer < x <= peer + 8 * |bitmap|)
      && (x % SEQ_MOD in m ==> m[x % SEQ_MOD] == BitAt(bitmap, x - peer - 1))
  {
    var m := ParseSelectiveAck(peer % SEQ_MOD, bitmap, t % SEQ_MOD, count, 0);
    ParseExact(peer, bitmap, t, count, 0, x % SEQ_MOD);
    if x % SEQ_MOD in m {
      var j :| 0 <= j < 8 * |bitmap| && Names(peer, t, count, j, x % SEQ_MOD) && m[x % SEQ_MOD] == BitAt(bitmap, j);
      LabelInjective(x, peer + 1 + j);
    } else if peer < x <= peer + 8 * |bitmap| {
      assert Names(peer, t, count, x - peer - 1, x % SEQ_MOD);
    }
  }

  /**
   * Selective ACK round trip: for any ring whose edge `peer` lies in the transmit window `[t, t + count)`,
   * a number above the edge and up to the receiver's upper edge is parsed, and is acked exactly when it is held;
   * a number beyond the upper edge is never acked.
   */
  lemma SelectiveAckRoundTrip(ring: RxRing, peer: nat, t: nat, count: nat, x: nat)
    requires t <= peer < x < t + count && count <= WINDOW
    ensures var m := ParseSelectiveAck(peer % SEQ_MOD, Bitmap(ring, peer % SEQ_MOD), t % SEQ_MOD, count, 0);
      && (x - peer <= UpperEdge(ring, peer % SEQ_MOD, WINDOW) ==>
            x % SEQ_MOD in m && m[x % SEQ_MOD] == Has(ring, x % SEQ_MOD))
      && (x - peer > UpperEdge(ring, peer % SEQ_MOD, WINDOW) ==>
            !Has(ring, x % SEQ_MOD) && (x % SEQ_MOD in m ==> !m[x % SEQ_MOD]))
  {
    BitmapExact(ring, peer % SEQ_MOD, x - peer - 1);
    AddExact(peer, x - peer);
    ParsedBit(peer, Bitmap(ring, peer % SEQ_MOD), t, count, x);
  }
}

/** The receive half of the engine, as functions of its state. */
module ArqRx {
  import opened Prelude
  import opened ArqTypes
  import opened Bits

  type RxRing = w: seq<RxSlot> | |w| == WINDOW witness seq(WINDOW, _ => RxSlot(-1, [], Empty, false, false))

  /** Receive fields of the engine; `delivered` is the list handed to the delivery callback. */
  datatype Rx = Rx(lwe: int, deliverLwe: int, ring: RxRing, delivered: seq<bytes>, ackDirty: bool)

  const EMPTY_SLOT := RxSlot(-1, [], Empty, false, false)

  function EmptyRing(): (ring: RxRing)
    ensures forall k :: 0 <= k < WINDOW ==> ring[k] == EMPTY_SLOT
  {
    seq(WINDOW, _ => EMPTY_SLOT)
  }

  function FreshRx(): Rx {
    Rx(0, 0, EmptyRing(), [], false)
  }

  /** The ring holds the frame of sequence number `s`, intact. */
  predicate Has(ring: RxRing, s: int) {
    ring[Slot(s)].seqNo == s && ring[Slot(s)].status == Received
  }

  // ---- Lower window edge --------------------------------------------------

  /** How many consecutive frames the ring holds from `lwe` on, counting from `i`. */
  function RunLength(ring: RxRing, lwe: int, i: nat): (n: nat)
    requires i <= WINDOW
    ensures i <= n <= WINDOW
    ensures forall j :: i <= j < n ==> Has(ring, SeqAdd(lwe, j))
    ensures n < WINDOW ==> !Has(ring, SeqAdd(lwe, n))
    decreases WINDOW - i
  {
    if i < WINDOW && Has(ring, SeqAdd(lwe, i)) then RunLength(ring, lwe, i + 1) else i
  }

  function Advanced(rx: Rx): Rx {
    rx.(lwe := SeqAdd(rx.lwe, RunLength(rx.ring, rx.lwe, 0)))
  }

  // ---- Delivery -----------------------------------------------------------

  /** Searches back from `s` for the first segment of its C_PDU; gives the number of segments passed. */
  function StartBack(ring: RxRing, s: int, fuel: nat): (r: Option<nat>)
    ensures r.Some? ==> r.value < fuel
    decreases fuel
  {
    if fuel == 0 || !Has(ring, s) then None
    else if ring[Slot(s)].pduStart then Some(0)
    else
      match StartBack(ring, SeqAdd(s, SEQ_MOD - 1), fuel - 1)
      case None => None
      case Some(n) => Some(n + 1)
  }

  /** `j` steps back from `s`. */
  function Back(s: int, j: int): int {
    (s - j) % SEQ_MOD
  }

  lemma BackStep(s: int, j: int)
    ensures Back(SeqAdd(s, SEQ_MOD - 1), j) == Back(s, j + 1)
  {
    var a := s + SEQ_MOD - 1;
    assert a == SEQ_MOD * (a / SEQ_MOD) + a % SEQ_MOD;
    var x := s - j - 1;
    assert a % SEQ_MOD - j == x + SEQ_MOD * (1 - a / SEQ_MOD);
  }

  /** Everything the backward search passes over is held, and it stops at a first segment. */
  lemma {:induction false} StartBackFound(ring: RxRing, s: int, fuel: nat)
    requires 0 <= s < SEQ_MOD
    requires StartBack(ring, s, fuel).Some?
    ensures forall j :: 0 <= j <= StartBack(ring, s, fuel).value ==> Has(ring, Back(s, j))
    ensures ring[Slot(Back(s, StartBack(ring, s, fuel).value))].pduStart
    decreases fuel
  {
    var n := StartBack(ring, s, fuel).value;
    assert Back(s, 0) == s;
    if n > 0 {
      var p := SeqAdd(s, SEQ_MOD - 1);
      StartBackFound(ring, p, fuel - 1);
      assert ring[Slot(Back(s, n))].pduStart by { BackStep(s, n - 1); }
      forall j | 0 <= j <= n ensures Has(ring, Back(s, j)) {
        if j > 0 {
          BackStep(s, j - 1);
          assert Has(ring, Back(p, j - 1));
        }
      }
    }
  }

  /** The sequence number at delivery offset `i` ends a complete C_PDU. */
  predicate EndsCpdu(rx: Rx, i: nat) {
    var s := SeqAdd(rx.deliverLwe, i);
    Has(rx.ring, s) && rx.ring[Slot(s)].pduEnd && StartBack(rx.ring, s, WINDOW).Some?
  }

  /** The first delivery offset from `i` that ends a complete C_PDU, or `count`. */
  function FirstEnd(rx: Rx, i: nat, count: nat): (r: nat)
    requires i <= count
    ensures i <= r <= count
    ensures forall j :: i <= j < r ==> !EndsCpdu(rx, j)
    ensures r < count ==> EndsCpdu(rx, r)
    decreases count - i
  {
    if i == count || EndsCpdu(rx, i) then i else FirstEnd(rx, i + 1, count)
  }

  /** The data of `n` consecutive slots from sequence number `s`. */
  function RingData(ring: RxRing, s: int, n: nat): bytes {
    if n == 0 then [] else RingData(ring, s, n - 1) + ring[Slot(SeqAdd(s, n - 1))].data
  }

  /** Ring index `k` is one of the `n` that start at sequence number `s`. */
  predicate InRun(k: int, s: int, n: nat) {
    (k - s) % WINDOW < n
  }

  /** Empties `n` consecutive slots from sequence number `s`. */
  function Cleared(ring: RxRing, s: int, n: nat): RxRing {
    seq(WINDOW, k requires 0 <= k < WINDOW =>
      if InRun(k, s, n) then ring[k].(seqNo := -1, data := [], status := Empty) else ring[k])
  }

  /** Delivers the C_PDU of `n + 1` segments that ends at `end`. */
  function Delivered(rx: Rx, end: int, n: nat): Rx {
    var start := Back(end, n);
    rx.(ring := Cleared(rx.ring, start, n + 1),
        delivered := rx.delivered + [RingData(rx.ring, start, n + 1)],
        deliverLwe := SeqAdd(end, 1))
  }

  /** Delivers complete C_PDUs until none is left below the lower window edge. */
  function TryDeliver(rx: Rx): Rx
    decreases SeqDist(rx.deliverLwe, rx.lwe)
  {
    var count := SeqDist(rx.deliverLwe, rx.lwe);
    var i := FirstEnd(rx, 0, count);
    if i == count then rx
    else
      var end := SeqAdd(rx.deliverLwe, i);
      var rx1 := Delivered(rx, end, StartBack(rx.ring, end, WINDOW).value);
      DeliveryProgress(rx.deliverLwe, rx.lwe, i);
      TryDeliver(rx1)
  }

  lemma DeliveryProgress(deliverLwe: int, lwe: int, i: nat)
    requires i < SeqDist(deliverLwe, lwe)
    ensures SeqDist(SeqAdd(SeqAdd(deliverLwe, i), 1), lwe) == SeqDist(deliverLwe, lwe) - i - 1
  {
    var q := (deliverLwe + i) / SEQ_MOD;
    assert SeqAdd(SeqAdd(deliverLwe, i), 1) == (deliverLwe + i + 1) % SEQ_MOD;
    var a := deliverLwe + i + 1;
    assert (lwe - a % SEQ_MOD) % SEQ_MOD == (lwe - a) % SEQ_MOD;
    assert (lwe - a) % SEQ_MOD == ((lwe - deliverLwe) % SEQ_MOD - i - 1) % SEQ_MOD;
  }

  // ---- Receipt of a DATA frame --------------------------------------------

  /** The slot written by an accepted frame; a dropped C_PDU with a bad CRC is stored empty. */
  function Stored(f: DataFrame, crcBad: bool): RxSlot {
    RxSlot(f.seqNo, if crcBad then [] else f.chunk, Received, f.pduStart, f.pduEnd)
  }

  /** Receipt of a DATA frame whose payload CRC is bad when `crcBad`. */
  function OnData(rx: Rx, f: DataFrame, crcBad: bool): Rx {
    var idx := Slot(f.seqNo);
    if !SeqInWindow(f.seqNo, rx.lwe, WINDOW) then rx.(ackDirty := true)
    else if crcBad && !f.dropPdu then
      rx.(ring := rx.ring[idx := rx.ring[idx].(seqNo := f.seqNo, status := Error)], ackDirty := true)
    else
      TryDeliver(Advanced(rx.(ring := rx.ring[idx := Stored(f, crcBad)]))).(ackDirty := true)
  }

  // ---- Selective acknowledgement ------------------------------------------

  /** The slot `i` above the lower window edge has seen a frame, intact or not. */
  predicate Seen(ring: RxRing, lwe: int, i: nat) {
    var s := SeqAdd(lwe, i);
    ring[Slot(s)].seqNo == s && ring[Slot(s)].status != Empty
  }

  /** The largest offset up to `n` whose slot has seen a frame, or 0. */
  function UpperEdge(ring: RxRing, lwe: int, n: nat): (u: nat)
    ensures u <= n
    ensures u > 0 ==> Seen(ring, lwe, u)
    ensures forall i :: u < i <= n ==> !Seen(ring, lwe, i)
  {
    if n == 0 || Seen(ring, lwe, n) then n else UpperEdge(ring, lwe, n - 1)
  }

  /** Weight of bit `b` of bitmap byte `j`: set when that frame is held and lies at or below the upper edge. */
  function BitWeight(ring: RxRing, lwe: int, uwe: nat, j: nat, b: nat): nat {
    var k := 8 * j + b;
    if k < uwe && Has(ring, SeqAdd(lwe, 1 + k)) then Pow2(b) else 0
  }

  /** The sum of the weights of the first `b` bits of bitmap byte `j`. */
  function BitmapByte(ring: RxRing, lwe: int, uwe: nat, j: nat, b: nat): (r: nat)
    ensures r < Pow2(b)
  {
    if b == 0 then 0 else BitmapByte(ring, lwe, uwe, j, b - 1) + BitWeight(ring, lwe, uwe, j, b - 1)
  }

  /** The selective ACK bitmap, cut after the byte of the upper edge. */
  function Bitmap(ring: RxRing, lwe: int): bytes {
    var uwe := UpperEdge(ring, lwe, WINDOW);
    assert Pow2(8) == 256;
    seq((uwe + 7) / 8, j requires 0 <= j => BitmapByte(ring, lwe, uwe, j, 8))
  }

  /** The ACK for the present receive state. */
  function AckOf(rx: Rx): AckFrame {
    AckFrame(rx.lwe, Bitmap(rx.ring, rx.lwe))
  }
}

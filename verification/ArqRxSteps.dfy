/** What the receiver does with any frame from any peer: which slots a delivery frees, and frames to be dropped. */
module ArqRxSteps {
  import opened Prelude
  import opened ArqTypes
  import opened ArqRx

  /** Index `k` is the slot of one of the `n` sequence numbers from `s` on. */
  ghost predicate SlotOfRun(k: int, s: int, n: nat) {
    exists i :: 0 <= i < n && k == Slot(SeqAdd(s, i))
  }

  lemma RunIff(k: int, s: int, n: nat)
    requires 0 <= k < WINDOW && n <= WINDOW && 0 <= s
    ensures InRun(k, s, n) <==> SlotOfRun(k, s, n)
  {
    if InRun(k, s, n) {
      var i := (k - s) % WINDOW;
      SlotExact(s + i);
      Residue(s + i, k, -((k - s) / WINDOW));
      assert k == Slot(SeqAdd(s, i));
    }
    if SlotOfRun(k, s, n) {
      var i :| 0 <= i < n && k == Slot(SeqAdd(s, i));
      SlotExact(s + i);
      Residue(k - s, i, -((s + i) / WINDOW));
    }
  }

  lemma Residue(a: int, r: int, z: int)
    requires a == r + WINDOW * z && 0 <= r < WINDOW
    ensures a % WINDOW == r
  {
  }

  /**
    * The delivery of a C_PDU of `n + 1` segments frees exactly the slots of these segments: each is emptied, and every
    * other slot keeps what it holds.
    */
  lemma DeliveryFrees(rx: Rx, end: int, n: nat, k: nat)
    requires n < WINDOW && k < WINDOW
    ensures var before, after := rx.ring[k], Delivered(rx, end, n).ring[k];
      if SlotOfRun(k, Back(end, n), n + 1) then after == before.(seqNo := -1, data := [], status := Empty)
      else after == before
  {
    RunIff(k, Back(end, n), n + 1);
  }

  /**
    * A frame marked to be dropped counts as received even with a bad payload check, and then carries no data; with a
    * good check the mark makes no difference. Without the mark a bad check marks the slot of the frame as damaged,
    * keeps what the slot held, and delivers nothing. Every frame asks for an acknowledgement.
    */
  lemma ByMarkAndCheck(rx: Rx, f: DataFrame, crcBad: bool)
    ensures OnData(rx, f, crcBad).ackDirty
    ensures f.dropPdu ==> OnData(rx, f, true) == OnData(rx, f.(chunk := []), false)
    ensures OnData(rx, f, false) == OnData(rx, f.(dropPdu := !f.dropPdu), false)
    ensures !f.dropPdu ==>
      var rx1, k := OnData(rx, f, true), Slot(f.seqNo);
      && rx1 == rx.(ring := rx1.ring, ackDirty := true)
      && (forall j :: 0 <= j < WINDOW && j != k ==> rx1.ring[j] == rx.ring[j])
      && rx1.ring[k] == if SeqDist(rx.lwe, f.seqNo) < 128 then rx.ring[k].(seqNo := f.seqNo, status := Error)
                        else rx.ring[k]
  {
    hide TryDeliver, Advanced;
  }
}

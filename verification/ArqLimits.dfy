/** What the hypotheses of the selective-repeat results are worth: the exact guard, and a run beyond it. */
module ArqLimits {
  import opened Prelude
  import opened Chunking
  import opened ArqTypes
  import opened ArqSegs
  import opened ArqTx
  import opened ArqRx
  import opened ArqRxProof
  import opened ArqAckProof
  import opened ArqTxProof
  import opened ArqLink

  /** Everything that has been reported to the sender, or is about to be, is still there. */
  ghost predicate Truthful(l: Link) {
    forall x: nat :: Reported(l, x) ==> Got(l.rx.ring, l.r, x)
  }

  lemma InvTruthful(l: Link, cfg: Config)
    requires LinkInv(l, cfg)
    ensures Truthful(l)
  {
    hide TxInv, SentInv, RxInv, DataOk, Got, BitAt, IsAcked;
    forall x: nat | Reported(l, x) ensures Got(l.rx.ring, l.r, x) {
      if !IsAcked(l.tx, l.t, x) {
        var i :| 0 <= i < |l.acks| && BitFor(l.acks[i].frame.selAcks, l.acks[i].stamp, x);
        assert AckOk(l, i) && BitsTrue(l, l.acks[i]);
      }
    }
  }

  /** A corrupted frame leaves all reports true exactly when it wipes out no reported segment. */
  lemma CorruptionHarmlessIff(l: Link, cfg: Config)
    requires LinkInv(l, cfg) && l.data != []
    ensures Truthful(ArqLink.Received(l, true)) <==> !TakesBack(l)
  {
    var l1 := ArqLink.Received(l, true);
    if TakesBack(l) {
      Corrupted(l, cfg);
      assert Reported(l1, l.data[0].stamp);
    } else {
      CorruptDataInv(l, cfg);
      InvTruthful(l1, cfg);
    }
  }

  // ---- Runs without the guard ---------------------------------------------

  /** The state after a run of steps that can happen, whatever frames are corrupted and however long the C_PDUs. */
  function AfterAny(steps: seq<Step>, cfg: Config): Option<Link> {
    if steps == [] then Some(Init())
    else
      var n := |steps| - 1;
      match AfterAny(steps[..n], cfg)
      case None => None
      case Some(l) => if Possible(l, steps[n]) then Some(Next(l, steps[n], cfg)) else None
  }

  lemma {:induction false} GuardedIsAny(steps: seq<Step>, cfg: Config)
    requires After(steps, cfg).Some?
    ensures AfterAny(steps, cfg) == After(steps, cfg)
    decreases |steps|
  {
    if steps != [] { GuardedIsAny(steps[..|steps| - 1], cfg); }
  }

  lemma {:induction false} GuardedPrefix(steps: seq<Step>, k: nat, cfg: Config)
    requires After(steps, cfg).Some? && k <= |steps|
    ensures After(steps[..k], cfg).Some?
    decreases |steps|
  {
    if k < |steps| {
      var n := |steps| - 1;
      assert steps[..n][..k] == steps[..k];
      GuardedPrefix(steps[..n], k, cfg);
    } else {
      assert steps[..k] == steps;
    }
  }

  /** All C_PDUs submitted in the run fit the window. */
  predicate AllFit(steps: seq<Step>) {
    forall i :: 0 <= i < |steps| && steps[i].Submit? ==> |CpduSegs(steps[i].p.payload)| <= WINDOW
  }

  /** The first `k` steps end in a state in which the reports are true, or in the declared failure of the link. */
  ghost predicate TruthfulAt(steps: seq<Step>, k: nat, cfg: Config)
    requires k <= |steps|
  {
    match AfterAny(steps[..k], cfg)
    case None => false
    case Some(l) => l.failed || Truthful(l)
  }

  /**
    * The guard of the end-to-end results is exact: over a whole run an acknowledged segment is never lost if and only
    * if no corrupted frame wipes out a segment that has been reported.
    */
  lemma {:induction false} AcknowledgedKeptIff(steps: seq<Step>, cfg: Config)
    requires cfg.maxRetries >= 0 && AfterAny(steps, cfg).Some? && AllFit(steps)
    ensures After(steps, cfg).Some? <==> forall k :: 0 <= k <= |steps| ==> TruthfulAt(steps, k, cfg)
    decreases |steps|
  {
    if After(steps, cfg).Some? {
      forall k | 0 <= k <= |steps| ensures TruthfulAt(steps, k, cfg) {
        GuardedPrefix(steps, k, cfg);
        GuardedTruthful(steps[..k], cfg);
      }
    }
    if steps != [] && forall k :: 0 <= k <= |steps| ==> TruthfulAt(steps, k, cfg) {
      var n := |steps| - 1;
      assert AllFit(steps[..n]) && steps[..n + 1] == steps;
      forall k | 0 <= k <= n ensures TruthfulAt(steps[..n], k, cfg) {
        assert steps[..n][..k] == steps[..k] && TruthfulAt(steps, k, cfg);
      }
      AcknowledgedKeptIff(steps[..n], cfg);
      GuardedIsAny(steps[..n], cfg);
      LastGuarded(steps, cfg);
    }
  }

  lemma GuardedTruthful(steps: seq<Step>, cfg: Config)
    requires cfg.maxRetries >= 0 && After(steps, cfg).Some?
    ensures AfterAny(steps, cfg).Some? && (AfterAny(steps, cfg).value.failed || Truthful(AfterAny(steps, cfg).value))
  {
    GuardedIsAny(steps, cfg);
    RunKeepsInv(steps, cfg);
    if !After(steps, cfg).value.failed { InvTruthful(After(steps, cfg).value, cfg); }
  }

  lemma LastGuarded(steps: seq<Step>, cfg: Config)
    requires cfg.maxRetries >= 0 && steps != [] && AfterAny(steps, cfg).Some? && AllFit(steps)
    requires var n := |steps| - 1; After(steps[..n], cfg).Some? && AfterAny(steps[..n], cfg) == After(steps[..n], cfg)
    requires TruthfulAt(steps, |steps|, cfg)
    ensures After(steps, cfg).Some?
  {
    var n := |steps| - 1;
    var l := After(steps[..n], cfg).value;
    assert steps[..|steps|] == steps;
    RunKeepsInv(steps[..n], cfg);
    if steps[n].CorruptData? { CorruptionHarmlessIff(l, cfg); }
  }
}

/** Conservation and order of the transmit queue, over every run. */
module SisProof {
  import opened Prelude
  import opened SisQueue

  // ---- Conservation -------------------------------------------------------

  /** Every accepted request is still queued, was handed down once, or was rejected once. */
  ghost predicate Conserved(s: Sis) {
    multiset(s.accepted) == multiset(s.queue) + multiset(s.handed) + multiset(s.rejected)
  }

  lemma {:induction false} RemoveFirstCount(q: seq<Entry>, e: Entry)
    requires e in q
    ensures multiset(q) == multiset(RemoveFirst(q, e)) + multiset{e}
    decreases |q|
  {
    assert q == [q[0]] + q[1..];
    if q[0] != e { RemoveFirstCount(q[1..], e); }
  }

  lemma TakeOne(a: multiset<Entry>, b: multiset<Entry>, c: multiset<Entry>, d: multiset<Entry>, e: Entry)
    requires a <= b && a == multiset{e} + c && b == d + multiset{e}
    ensures c <= d
  {
    forall x ensures c[x] <= d[x] {
      assert a[x] <= b[x];
      assert a[x] == multiset{e}[x] + c[x] && b[x] == d[x] + multiset{e}[x];
    }
  }

  lemma {:induction false} RemoveEachCount(q: seq<Entry>, es: seq<Entry>)
    requires multiset(es) <= multiset(q)
    ensures multiset(q) == multiset(RemoveEach(q, es)) + multiset(es)
    decreases |es|
  {
    if es != [] {
      assert es == [es[0]] + es[1..];
      assert es[0] in multiset(es);
      assert es[0] in multiset(q);
      RemoveFirstCount(q, es[0]);
      assert multiset(es) == multiset{es[0]} + multiset(es[1..]);
      TakeOne(multiset(es), multiset(q), multiset(es[1..]), multiset(RemoveFirst(q, es[0])), es[0]);
      RemoveEachCount(RemoveFirst(q, es[0]), es[1..]);
    }
  }

  lemma {:induction false} ServicesSplit(q: seq<Entry>)
    ensures multiset(q) ==
        multiset(OfService(q, Arq)) + multiset(OfService(q, ExpeditedArq)) + multiset(OfService(q, NonArq))
    decreases |q|
  {
    if q != [] {
      assert q == [q[0]] + q[1..];
      ServicesSplit(q[1..]);
    }
  }

  lemma {:induction false} ExpiredInQueue(q: seq<Entry>, now: int)
    ensures multiset(Expired(q, now)) <= multiset(q)
    decreases |q|
  {
    if q != [] {
      assert q == [q[0]] + q[1..];
      ExpiredInQueue(q[1..], now);
    }
  }

  lemma HandConserves(s: Sis, es: seq<Entry>)
    requires Conserved(s) && multiset(es) <= multiset(s.queue)
    ensures Conserved(Hand(s, es)) && multiset(Hand(s, es).queue) == multiset(s.queue) - multiset(es)
  {
    RemoveEachCount(s.queue, es);
    assert multiset(s.handed + es) == multiset(s.handed) + multiset(es);
  }

  lemma RejectConserves(s: Sis, es: seq<Entry>)
    requires Conserved(s) && multiset(es) <= multiset(s.queue)
    ensures Conserved(Reject(s, es))
  {
    RemoveEachCount(s.queue, es);
    assert multiset(s.rejected + es) == multiset(s.rejected) + multiset(es);
  }

  lemma DispatchConserves(s: Sis, active: bool, made: bool, ranks: map<int, int>)
    requires Conserved(s)
    ensures Conserved(Dispatch(s, active, made, ranks))
  {
    hide OfService, Best, RemoveEach, RemoveFirst;
    var arq := OfService(s.queue, Arq);
    var non, exp := OfService(s.queue, NonArq), OfService(s.queue, ExpeditedArq);
    ServicesSplit(s.queue);
    PartOf(multiset(s.queue), multiset(arq), multiset(exp), multiset(non));
    HandConserves(s, non);
    var s1 := Hand(s, non);
    if active {
      HandConserves(s1, exp);
      var s2 := Hand(s1, exp);
      if arq != [] && made {
        var e := arq[Best(arq, |arq|, ranks)];
        OneOf(arq, e, multiset(s2.queue));
        HandConserves(s2, [e]);
      }
    }
  }

  lemma PartOf(q: multiset<Entry>, a: multiset<Entry>, b: multiset<Entry>, c: multiset<Entry>)
    requires q == a + b + c
    ensures c <= q && b <= q - c && a == q - c - b
  {
  }

  lemma OneOf(es: seq<Entry>, e: Entry, q: multiset<Entry>)
    requires e in es && multiset(es) == q
    ensures multiset([e]) <= q
  {
    assert e in multiset(es);
  }

  // ---- Runs ---------------------------------------------------------------

  datatype Step =
    | Request(e: Entry, bound: bool, flowOn: bool)
    | PurgeStep(now: int)
    | DispatchStep(active: bool, made: bool, ranks: map<int, int>)
    | LinkLost

  function Apply(s: Sis, step: Step): Sis {
    match step
    case Request(e, bound, flowOn) => Submit(s, e, bound, flowOn)
    case PurgeStep(now) => Purge(s, now)
    case DispatchStep(active, made, ranks) => Dispatch(s, active, made, ranks)
    case LinkLost => RejectPending(s)
  }

  function After(steps: seq<Step>): Sis {
    if steps == [] then FRESH else Apply(After(steps[..|steps| - 1]), steps[|steps| - 1])
  }

  lemma StepConserves(s: Sis, step: Step)
    requires Conserved(s)
    ensures Conserved(Apply(s, step))
  {
    match step
    case Request(e, _, _) =>
      assert multiset(s.queue + [e]) == multiset(s.queue) + multiset{e};
      assert multiset(s.accepted + [e]) == multiset(s.accepted) + multiset{e};
    case PurgeStep(now) =>
      ExpiredInQueue(s.queue, now);
      RejectConserves(s, Expired(s.queue, now));
    case DispatchStep(active, made, ranks) => DispatchConserves(s, active, made, ranks);
    case LinkLost =>
      ServicesSplit(s.queue);
      RejectConserves(s, OfService(s.queue, Arq));
  }

  /** Over any run, every accepted request is exactly one of still queued, handed down once, or rejected once. */
  lemma {:induction false} Conservation(steps: seq<Step>)
    ensures Conserved(After(steps))
    decreases |steps|
  {
    if steps != [] {
      Conservation(steps[..|steps| - 1]);
      StepConserves(After(steps[..|steps| - 1]), steps[|steps| - 1]);
    }
  }

  // ---- Who gets into the queue --------------------------------------------

  /** The requests of a run that meet the conditions: a bound client, at most 2048 octets, and flow switched on. */
  function Admitted(steps: seq<Step>): seq<Entry> {
    if steps == [] then []
    else
      var n := |steps| - 1;
      Admitted(steps[..n]) +
      if steps[n].Request? && steps[n].bound && |steps[n].e.updu| <= 2048 && steps[n].flowOn then [steps[n].e] else []
  }

  /** Over any run, exactly the requests that meet the conditions are accepted, in the order in which they came. */
  lemma {:induction false} AcceptedExactly(steps: seq<Step>)
    ensures After(steps).accepted == Admitted(steps)
    decreases |steps|
  {
    if steps != [] {
      AcceptedExactly(steps[..|steps| - 1]);
    }
  }

  /** A request is refused for the first condition it fails, and a refused request leaves everything as it is. */
  lemma RefusedFor(s: Sis, e: Entry, bound: bool, flowOn: bool)
    ensures Refusal(e, bound, flowOn) == Some(SapNotBound) <==> !bound
    ensures Refusal(e, bound, flowOn) == Some(MtuExceeded) <==> bound && |e.updu| > 2048
    ensures Refusal(e, bound, flowOn) == Some(FlowControl) <==> bound && |e.updu| <= 2048 && !flowOn
    ensures Submit(s, e, bound, flowOn) == s <==> Refusal(e, bound, flowOn).Some?
    ensures Refusal(e, bound, flowOn) == None ==> Submit(s, e, bound, flowOn).queue == s.queue + [e]
  {
    assert |s.queue + [e]| == |s.queue| + 1;
  }

  // ---- Who leaves the queue -----------------------------------------------

  function Not(p: Entry -> bool): Entry -> bool { e => !p(e) }

  /** The request is still alive at `now`. */
  function AliveAt(now: int): Entry -> bool { (e: Entry) => e.ttd.None? || now < e.ttd.value }

  function IsPlainArq(): Entry -> bool { (e: Entry) => e.arq && !e.expedited }

  function IsExpeditedArq(): Entry -> bool { (e: Entry) => e.arq && e.expedited }

  function IsUnacknowledged(): Entry -> bool { (e: Entry) => !e.arq }

  lemma {:induction false} FilterMember(p: Entry -> bool, q: seq<Entry>, x: Entry)
    ensures x in Filter(p, q) <==> x in q && p(x)
    decreases |q|
  {
    if q != [] {
      assert x in q <==> x == q[0] || x in q[1..];
      FilterMember(p, q[1..], x);
    }
  }

  lemma {:induction false} FilterSame(p: Entry -> bool, p1: Entry -> bool, q: seq<Entry>)
    requires forall e :: p(e) == p1(e)
    ensures Filter(p, q) == Filter(p1, q)
    decreases |q|
  {
    if q != [] { FilterSame(p, p1, q[1..]); }
  }

  lemma RemoveFirstPast(h: Entry, q: seq<Entry>, e: Entry)
    requires h != e
    ensures RemoveFirst([h] + q, e) == [h] + RemoveFirst(q, e)
  {
    assert ([h] + q)[1..] == q;
  }

  /** Taking off entries other than the first one. */
  lemma {:induction false} RemovePast(h: Entry, q: seq<Entry>, es: seq<Entry>)
    requires h !in es
    ensures RemoveEach([h] + q, es) == [h] + RemoveEach(q, es)
    decreases |es|
  {
    if es != [] {
      RemoveFirstPast(h, q, es[0]);
      RemovePast(h, RemoveFirst(q, es[0]), es[1..]);
    }
  }

  /** Taking off all entries of a kind leaves the others, as often and in the same order. */
  lemma {:induction false} RemoveFiltered(p: Entry -> bool, q: seq<Entry>)
    ensures RemoveEach(q, Filter(p, q)) == Filter(Not(p), q)
    decreases |q|
  {
    if q != [] {
      var h, r := q[0], q[1..];
      assert q == [h] + r;
      RemoveFiltered(p, r);
      if p(h) {
        assert Filter(p, q)[1..] == Filter(p, r);
        assert RemoveFirst(q, h) == r;
        assert Filter(Not(p), q) == [] + Filter(Not(p), r);
      } else {
        FilterMember(p, r, h);
        RemovePast(h, r, Filter(p, r));
        assert Filter(p, q) == [] + Filter(p, r) == Filter(p, r);
        assert Not(p)(h) && Filter(Not(p), q) == [h] + Filter(Not(p), r);
        assert RemoveEach(q, Filter(p, q)) == RemoveEach([h] + r, Filter(p, r));
      }
    }
  }

  lemma {:induction false} ExpiredIs(q: seq<Entry>, now: int)
    ensures Expired(q, now) == Filter(Not(AliveAt(now)), q)
    decreases |q|
  {
    if q != [] { ExpiredIs(q[1..], now); }
  }

  lemma {:induction false} OfServiceIs(q: seq<Entry>)
    ensures OfService(q, Arq) == Filter(IsPlainArq(), q)
    ensures OfService(q, ExpeditedArq) == Filter(IsExpeditedArq(), q)
    ensures OfService(q, NonArq) == Filter(IsUnacknowledged(), q)
    decreases |q|
  {
    if q != [] { OfServiceIs(q[1..]); }
  }

  /**
    * A purge keeps exactly the requests that never expire or whose time is still to come, as often and in the same
    * order, and rejects exactly the others, in order.
    */
  lemma PurgeExact(s: Sis, now: int)
    ensures var s1 := Purge(s, now);
      && s1.queue == Filter(AliveAt(now), s.queue)
      && s1.rejected == s.rejected + Filter(Not(AliveAt(now)), s.queue)
      && s1.accepted == s.accepted && s1.handed == s.handed
  {
    ExpiredIs(s.queue, now);
    RemoveFiltered(Not(AliveAt(now)), s.queue);
    FilterSame(Not(Not(AliveAt(now))), AliveAt(now), s.queue);
  }

  /** Losing the link rejects exactly the plain ARQ requests, in order. */
  lemma RejectPendingExact(s: Sis)
    ensures var s1 := RejectPending(s);
      && s1.queue == Filter(Not(IsPlainArq()), s.queue)
      && s1.rejected == s.rejected + Filter(IsPlainArq(), s.queue)
      && s1.accepted == s.accepted && s1.handed == s.handed
  {
    OfServiceIs(s.queue);
    RemoveFiltered(IsPlainArq(), s.queue);
  }
}

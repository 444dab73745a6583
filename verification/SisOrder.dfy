/** The order of the transmit queue, over every run: who is taken next, and when one request overtakes another. */
module SisOrder {
  import opened Prelude
  import opened SisProof
  import opened SisQueue

  // ---- Order --------------------------------------------------------------

  /** Requests stand in the order of their times. */
  predicate Sorted(q: seq<Entry>) {
    forall i, j :: 0 <= i < j < |q| ==> q[i].enqueuedAt <= q[j].enqueuedAt
  }

  lemma {:induction false} RemoveFirstMember(q: seq<Entry>, e: Entry, x: Entry)
    requires x in RemoveFirst(q, e)
    ensures x in q
    decreases |q|
  {
    if q != [] && q[0] != e {
      if x != q[0] { RemoveFirstMember(q[1..], e, x); }
    }
  }

  lemma {:induction false} RemoveFirstSorted(q: seq<Entry>, e: Entry)
    requires Sorted(q)
    ensures Sorted(RemoveFirst(q, e))
    decreases |q|
  {
    if q != [] && q[0] != e {
      RemoveFirstSorted(q[1..], e);
      var r := RemoveFirst(q[1..], e);
      forall j | 0 <= j < |r| ensures q[0].enqueuedAt <= r[j].enqueuedAt {
        RemoveFirstMember(q[1..], e, r[j]);
      }
    }
  }

  lemma {:induction false} RemoveEachSorted(q: seq<Entry>, es: seq<Entry>)
    requires Sorted(q)
    ensures Sorted(RemoveEach(q, es))
    ensures forall x :: x in RemoveEach(q, es) ==> x in q
    decreases |es|
  {
    if es != [] {
      RemoveFirstSorted(q, es[0]);
      RemoveEachSorted(RemoveFirst(q, es[0]), es[1..]);
      forall x | x in RemoveEach(q, es) ensures x in q {
        RemoveFirstMember(q, es[0], x);
      }
    }
  }

  /** The times of accepted requests never run backwards. */
  predicate ClockForward(s: Sis) {
    Sorted(s.accepted)
  }

  /** The queue is in the order of time, and nothing in it is newer than the newest request accepted. */
  ghost predicate Timely(s: Sis) {
    && Sorted(s.queue)
    && forall x :: x in s.queue ==> s.accepted != [] && x.enqueuedAt <= s.accepted[|s.accepted| - 1].enqueuedAt
  }

  lemma StepTimely(s: Sis, step: Step)
    requires Timely(s) && ClockForward(Apply(s, step))
    ensures Timely(Apply(s, step)) && ClockForward(s)
  {
    hide Dispatch, RemoveEach, OfService, Expired;
    var s1 := Apply(s, step);
    match step
    case Request(e, bound, flowOn) =>
      if s1 != s {
        forall i, j | 0 <= i < j < |s.accepted| ensures s.accepted[i].enqueuedAt <= s.accepted[j].enqueuedAt {
          assert s1.accepted[i] == s.accepted[i] && s1.accepted[j] == s.accepted[j];
        }
        NewestLast(s, e);
      }
    case PurgeStep(now) => RemoveEachSorted(s.queue, Expired(s.queue, now));
    case LinkLost => RemoveEachSorted(s.queue, OfService(s.queue, Arq));
    case DispatchStep(active, made, ranks) => DispatchTimely(s, active, made, ranks);
  }

  lemma NewestLast(s: Sis, e: Entry)
    requires Timely(s) && Sorted(s.accepted + [e])
    ensures Timely(s.(queue := s.queue + [e], accepted := s.accepted + [e]))
  {
    if s.accepted != [] {
      var all := s.accepted + [e];
      assert all[|s.accepted| - 1].enqueuedAt <= all[|s.accepted|].enqueuedAt;
    }
    forall i | 0 <= i < |s.queue| ensures s.queue[i].enqueuedAt <= e.enqueuedAt {
      assert s.queue[i] in s.queue;
    }
  }

  lemma DispatchTimely(s: Sis, active: bool, made: bool, ranks: map<int, int>)
    requires Timely(s)
    ensures Timely(Dispatch(s, active, made, ranks)) && Dispatch(s, active, made, ranks).accepted == s.accepted
  {
    var arq := OfService(s.queue, Arq);
    var non, exp := OfService(s.queue, NonArq), OfService(s.queue, ExpeditedArq);
    RemoveEachSorted(s.queue, non);
    var q1 := RemoveEach(s.queue, non);
    RemoveEachSorted(q1, exp);
    var q2 := RemoveEach(q1, exp);
    if arq != [] { RemoveEachSorted(q2, [arq[Best(arq, |arq|, ranks)]]); }
  }

  lemma {:induction false} RunTimely(steps: seq<Step>)
    requires ClockForward(After(steps))
    ensures Timely(After(steps))
    decreases |steps|
  {
    if steps != [] {
      var n := |steps| - 1;
      ClockEarlier(After(steps[..n]), steps[n]);
      RunTimely(steps[..n]);
      StepTimely(After(steps[..n]), steps[n]);
    }
  }

  lemma ClockEarlier(s: Sis, step: Step)
    requires ClockForward(Apply(s, step))
    ensures ClockForward(s)
  {
    var s1 := Apply(s, step);
    assert s.accepted <= s1.accepted;
    forall i, j | 0 <= i < j < |s.accepted| ensures s.accepted[i].enqueuedAt <= s.accepted[j].enqueuedAt {
      assert s1.accepted[i] == s.accepted[i] && s1.accepted[j] == s.accepted[j];
    }
  }

  // ---- First in, first out ------------------------------------------------

  /** The ARQ requests of one client at one priority, in queue order. */
  function Lane(q: seq<Entry>, sap: int, priority: int): seq<Entry> {
    if q == [] then [] else (if InLane(q[0], sap, priority) then [q[0]] else []) + Lane(q[1..], sap, priority)
  }

  predicate InLane(e: Entry, sap: int, priority: int) {
    ServiceOf(e).Arq? && e.srcSap == sap && e.priority == priority
  }

  lemma {:induction false} LaneOfService(q: seq<Entry>, sap: int, priority: int)
    ensures Lane(OfService(q, Arq), sap, priority) == Lane(q, sap, priority)
    decreases |q|
  {
    if q != [] {
      LaneOfService(q[1..], sap, priority);
      var rest := OfService(q[1..], Arq);
      assert [] + rest == rest;
      assert ([q[0]] + rest)[1..] == rest;
      assert [] + Lane(q[1..], sap, priority) == Lane(q[1..], sap, priority);
    }
  }

  lemma {:induction false} OfServiceMember(q: seq<Entry>, c: Service, x: Entry)
    ensures x in OfService(q, c) <==> x in q && ServiceOf(x) == c
    decreases |q|
  {
    if q != [] {
      assert x in q <==> x == q[0] || x in q[1..];
      OfServiceMember(q[1..], c, x);
    }
  }

  /** The first entry of a lane, found by position. */
  lemma {:induction false} LaneHead(pool: seq<Entry>, k: nat, sap: int, priority: int)
    requires k < |pool| && InLane(pool[k], sap, priority)
    requires forall j :: 0 <= j < k ==> !InLane(pool[j], sap, priority)
    ensures Lane(pool, sap, priority) != [] && Lane(pool, sap, priority)[0] == pool[k]
    decreases k
  {
    if k > 0 {
      LaneHead(pool[1..], k - 1, sap, priority);
      assert [] + Lane(pool[1..], sap, priority) == Lane(pool[1..], sap, priority);
    }
  }

  // ---- Lanes under the operations -----------------------------------------

  lemma {:induction false} LaneConcat(a: seq<Entry>, b: seq<Entry>, sap: int, priority: int)
    ensures Lane(a + b, sap, priority) == Lane(a, sap, priority) + Lane(b, sap, priority)
    decreases |a|
  {
    hide *;
    if a == [] {
      assert a + b == b;
      LaneEmpty(sap, priority);
      assert [] + Lane(b, sap, priority) == Lane(b, sap, priority);
    } else {
      LaneConcat(a[1..], b, sap, priority);
      assert (a + b)[0] == a[0] && (a + b)[1..] == a[1..] + b;
      LaneStep(a, sap, priority);
      LaneStep(a + b, sap, priority);
      var x := if InLane(a[0], sap, priority) then [a[0]] else [];
      var y, z := Lane(a[1..], sap, priority), Lane(b, sap, priority);
      assert x + (y + z) == (x + y) + z;
    }
  }

  lemma LaneEmpty(sap: int, priority: int)
    ensures Lane([], sap, priority) == []
  {
  }

  lemma LaneStep(q: seq<Entry>, sap: int, priority: int)
    requires q != []
    ensures Lane(q, sap, priority) ==
      (if InLane(q[0], sap, priority) then [q[0]] else []) + Lane(q[1..], sap, priority)
  {
  }

  lemma {:induction false} LaneMember(q: seq<Entry>, sap: int, priority: int, x: Entry)
    ensures x in Lane(q, sap, priority) <==> x in q && InLane(x, sap, priority)
    decreases |q|
  {
    if q != [] {
      assert x in q <==> x == q[0] || x in q[1..];
      LaneMember(q[1..], sap, priority, x);
    }
  }

  /** Taking an entry off the queue takes it off its own lane and leaves every other lane as it was. */
  lemma {:induction false} LaneRemove(q: seq<Entry>, e: Entry, sap: int, priority: int)
    ensures Lane(RemoveFirst(q, e), sap, priority) ==
      if InLane(e, sap, priority) then RemoveFirst(Lane(q, sap, priority), e) else Lane(q, sap, priority)
    decreases |q|
  {
    if q != [] {
      var rest, r := Lane(q[1..], sap, priority), RemoveFirst(q[1..], e);
      assert [] + rest == rest && ([q[0]] + rest)[1..] == rest;
      if q[0] != e {
        LaneRemove(q[1..], e, sap, priority);
        assert ([q[0]] + r)[1..] == r;
        assert [] + Lane(r, sap, priority) == Lane(r, sap, priority);
      }
    }
  }

  lemma {:induction false} LaneRemoveOthers(q: seq<Entry>, es: seq<Entry>, sap: int, priority: int)
    requires forall e :: e in es ==> !ServiceOf(e).Arq?
    ensures Lane(RemoveEach(q, es), sap, priority) == Lane(q, sap, priority)
    decreases |es|
  {
    if es != [] {
      LaneRemove(q, es[0], sap, priority);
      LaneRemoveOthers(RemoveFirst(q, es[0]), es[1..], sap, priority);
    }
  }

  lemma {:induction false} LaneOfOthers(es: seq<Entry>, sap: int, priority: int)
    requires forall e :: e in es ==> !ServiceOf(e).Arq?
    ensures Lane(es, sap, priority) == []
    decreases |es|
  {
    if es != [] { LaneOfOthers(es[1..], sap, priority); }
  }

  lemma HandOthers(s: Sis, es: seq<Entry>, sap: int, priority: int)
    requires forall e :: e in es ==> !ServiceOf(e).Arq?
    ensures Lane(Hand(s, es).queue, sap, priority) == Lane(s.queue, sap, priority)
    ensures Lane(Hand(s, es).handed, sap, priority) == Lane(s.handed, sap, priority)
  {
    LaneRemoveOthers(s.queue, es, sap, priority);
    LaneOfOthers(es, sap, priority);
    LaneConcat(s.handed, es, sap, priority);
  }

  lemma OthersOnly(q: seq<Entry>, c: Service)
    requires !c.Arq?
    ensures forall e :: e in OfService(q, c) ==> !ServiceOf(e).Arq?
  {
    forall e | e in OfService(q, c) ensures !ServiceOf(e).Arq? { OfServiceMember(q, c, e); }
  }

  /** The ARQ request that a dispatch takes. */
  function Taken(s: Sis, active: bool, made: bool, ranks: map<int, int>): Option<Entry> {
    var pool := OfService(s.queue, Arq);
    if pool == [] || !active || !made then None else Some(pool[Best(pool, |pool|, ranks)])
  }

  /** A dispatch moves the request that it takes from its lane of the queue to the same lane of what was handed down. */
  lemma DispatchLanes(s: Sis, active: bool, made: bool, ranks: map<int, int>, sap: int, priority: int)
    ensures var s1, t := Dispatch(s, active, made, ranks), Taken(s, active, made, ranks);
      if t.Some? && InLane(t.value, sap, priority) then
        && Lane(s1.queue, sap, priority) == RemoveFirst(Lane(s.queue, sap, priority), t.value)
        && Lane(s1.handed, sap, priority) == Lane(s.handed, sap, priority) + [t.value]
      else
        && Lane(s1.queue, sap, priority) == Lane(s.queue, sap, priority)
        && Lane(s1.handed, sap, priority) == Lane(s.handed, sap, priority)
  {
    hide Lane, OfService, Best;
    OthersOnly(s.queue, NonArq);
    OthersOnly(s.queue, ExpeditedArq);
    var s1 := Hand(s, OfService(s.queue, NonArq));
    HandOthers(s, OfService(s.queue, NonArq), sap, priority);
    HandOthers(s1, OfService(s.queue, ExpeditedArq), sap, priority);
    var s2 := if active then Hand(s1, OfService(s.queue, ExpeditedArq)) else s1;
    var t := Taken(s, active, made, ranks);
    if t.Some? { HandTaken(s2, t.value, sap, priority); }
  }

  lemma HandTaken(s: Sis, e: Entry, sap: int, priority: int)
    ensures var s1 := Hand(s, [e]);
      && Lane(s1.queue, sap, priority) ==
           (if InLane(e, sap, priority) then RemoveFirst(Lane(s.queue, sap, priority), e)
            else Lane(s.queue, sap, priority))
      && Lane(s1.handed, sap, priority) == Lane(s.handed, sap, priority) + if InLane(e, sap, priority) then [e] else []
  {
    LaneRemove(s.queue, e, sap, priority);
    LaneConcat(s.handed, [e], sap, priority);
    assert RemoveEach(s.queue, [e]) == RemoveFirst(s.queue, e);
    LaneOne(e, sap, priority);
  }

  lemma LaneOne(e: Entry, sap: int, priority: int)
    ensures Lane([e], sap, priority) == if InLane(e, sap, priority) then [e] else []
  {
    assert [e][1..] == [];
  }

  // ---- Which request of a lane is taken -----------------------------------

  /** The first request of a lane is none younger than another one of it. */
  predicate HeadOldest(lane: seq<Entry>) {
    forall x :: x in lane ==> lane[0].enqueuedAt <= x.enqueuedAt
  }

  /** The first position of a lane, given some position of it. */
  function FirstIn(pool: seq<Entry>, k: nat, sap: int, priority: int): (j: nat)
    requires k < |pool| && InLane(pool[k], sap, priority)
    ensures j <= k && InLane(pool[j], sap, priority)
    ensures forall i :: 0 <= i < j ==> !InLane(pool[i], sap, priority)
    decreases |pool|
  {
    if InLane(pool[0], sap, priority) then 0 else 1 + FirstIn(pool[1..], k - 1, sap, priority)
  }

  lemma PoolHeadIff(pool: seq<Entry>, ranks: map<int, int>)
    requires pool != [] && forall e :: e in pool ==> ServiceOf(e).Arq?
    ensures var e := pool[Best(pool, |pool|, ranks)];
      var lane := Lane(pool, e.srcSap, e.priority);
      && lane != [] && (lane[0] == e <==> HeadOldest(lane))
  {
    var k := Best(pool, |pool|, ranks);
    var e := pool[k];
    assert e in pool;
    var lane, j := Lane(pool, e.srcSap, e.priority), FirstIn(pool, k, e.srcSap, e.priority);
    BestIsFirstMaximal(pool, |pool|, ranks);
    LaneHead(pool, j, e.srcSap, e.priority);
    LaneMember(pool, e.srcSap, e.priority, e);
    assert j < k ==> Before(e, pool[j], ranks);
    if lane[0] == e {
      forall x | x in lane ensures e.enqueuedAt <= x.enqueuedAt {
        LaneMember(pool, e.srcSap, e.priority, x);
        assert !Before(x, e, ranks);
      }
    }
  }

  /**
    * A dispatch takes the request of its lane that was queued first if and only if none queued after it in that lane
    * has an earlier time.
    */
  lemma TakesHeadIff(s: Sis, active: bool, made: bool, ranks: map<int, int>)
    requires Taken(s, active, made, ranks).Some?
    ensures var e := Taken(s, active, made, ranks).value;
      var lane := Lane(s.queue, e.srcSap, e.priority);
      && e in lane && (lane[0] == e <==> HeadOldest(lane))
  {
    var pool := OfService(s.queue, Arq);
    var e := Taken(s, active, made, ranks).value;
    forall x | x in pool ensures ServiceOf(x).Arq? { OfServiceMember(s.queue, Arq, x); }
    PoolHeadIff(pool, ranks);
    LaneOfService(s.queue, e.srcSap, e.priority);
    assert e in pool;
    LaneMember(pool, e.srcSap, e.priority, e);
  }

  lemma {:induction false} FilterRest(p: Entry -> bool, p1: Entry -> bool, q: seq<Entry>)
    requires forall e :: !(p(e) && p1(e))
    ensures Filter(p1, Filter(Not(p), q)) == Filter(p1, q)
    decreases |q|
  {
    if q != [] {
      FilterRest(p, p1, q[1..]);
      var rest := Filter(Not(p), q[1..]);
      assert [] + rest == rest && ([q[0]] + rest)[1..] == rest;
    }
  }

  /**
    * A dispatch hands down all requests without acknowledgement, then the expedited ones when the session is active,
    * and then one plain ARQ request when the link is made as well; all others stay, as often and in the same order.
    */
  lemma DispatchExact(s: Sis, active: bool, made: bool, ranks: map<int, int>)
    ensures var s1, t, rest := Dispatch(s, active, made, ranks), Taken(s, active, made, ranks),
                               Filter(Not(IsUnacknowledged()), s.queue);
      var kept := if active then Filter(Not(IsExpeditedArq()), rest) else rest;
      && (t.Some? <==> active && made && exists e :: e in s.queue && e.arq && !e.expedited)
      && s1.handed == s.handed + Filter(IsUnacknowledged(), s.queue)
                      + (if active then Filter(IsExpeditedArq(), s.queue) else [])
                      + (if t.Some? then [t.value] else [])
      && s1.queue == (if t.Some? then RemoveFirst(kept, t.value) else kept)
      && s1.accepted == s.accepted && s1.rejected == s.rejected
  {
    hide Filter, Best, OfService;
    var q, t := s.queue, Taken(s, active, made, ranks);
    OfServiceIs(q);
    forall e ensures e in Filter(IsPlainArq(), q) <==> e in q && e.arq && !e.expedited {
      FilterMember(IsPlainArq(), q, e);
    }
    var pool := Filter(IsPlainArq(), q);
    if pool != [] { assert pool[0] in pool; }
    RemoveFiltered(IsUnacknowledged(), q);
    var rest := Filter(Not(IsUnacknowledged()), q);
    FilterRest(IsUnacknowledged(), IsExpeditedArq(), q);
    RemoveFiltered(IsExpeditedArq(), rest);
    if t.Some? { OneGone(if active then Filter(Not(IsExpeditedArq()), rest) else rest, t.value); }
  }

  lemma OneGone(q: seq<Entry>, e: Entry)
    ensures RemoveEach(q, [e]) == RemoveFirst(q, e)
  {
    assert [e][1..] == [];
  }

  /** No other ARQ request in the queue comes before the one taken, by priority and by the rank of its client. */
  lemma TakesMaximal(s: Sis, active: bool, made: bool, ranks: map<int, int>, x: Entry)
    requires Taken(s, active, made, ranks).Some? && x in s.queue && ServiceOf(x).Arq?
    ensures var e := Taken(s, active, made, ranks).value;
      var rx := if x.srcSap in ranks then ranks[x.srcSap] else 0;
      var re := if e.srcSap in ranks then ranks[e.srcSap] else 0;
      x.priority < e.priority || (x.priority == e.priority && rx <= re)
  {
    var pool := OfService(s.queue, Arq);
    BestIsFirstMaximal(pool, |pool|, ranks);
    OfServiceMember(s.queue, Arq, x);
    var e := pool[Best(pool, |pool|, ranks)];
    assert e in pool;
    OfServiceMember(s.queue, Arq, e);
  }

  // ---- Subsequences -------------------------------------------------------

  predicate Subseq(s: seq<Entry>, t: seq<Entry>)
    decreases |t|
  {
    s == [] || (t != [] && ((s[0] == t[0] && Subseq(s[1..], t[1..])) || Subseq(s, t[1..])))
  }

  lemma {:induction false} SubAll(s: seq<Entry>)
    ensures Subseq(s, s)
    decreases |s|
  {
    if s != [] { SubAll(s[1..]); }
  }

  lemma {:induction false} SubTrans(a: seq<Entry>, b: seq<Entry>, c: seq<Entry>)
    requires Subseq(a, b) && Subseq(b, c)
    ensures Subseq(a, c)
    decreases |c|
  {
    if a != [] {
      if Subseq(b, c[1..]) {
        SubTrans(a, b, c[1..]);
      } else if Subseq(a, b[1..]) {
        SubTrans(a, b[1..], c[1..]);
      } else {
        SubTrans(a[1..], b[1..], c[1..]);
      }
    }
  }

  lemma {:induction false} SubSnoc(s: seq<Entry>, t: seq<Entry>, x: Entry)
    requires Subseq(s, t)
    ensures Subseq(s + [x], t + [x])
    decreases |t|
  {
    if t == [] {
      SubAll([x]);
      assert s + [x] == [x] && t + [x] == [x];
    } else {
      assert (t + [x])[1..] == t[1..] + [x];
      if Subseq(s, t[1..]) {
        SubSnoc(s, t[1..], x);
      } else {
        SubSnoc(s[1..], t[1..], x);
        assert (s + [x])[1..] == s[1..] + [x];
      }
    }
  }

  lemma {:induction false} SubPrefix(p: seq<Entry>, s: seq<Entry>, t: seq<Entry>)
    requires Subseq(s, t)
    ensures Subseq(p + s, p + t)
    decreases |p|
  {
    if p == [] {
      assert p + s == s && p + t == t;
    } else {
      SubPrefix(p[1..], s, t);
      assert (p + s)[1..] == p[1..] + s && (p + t)[1..] == p[1..] + t;
    }
  }

  lemma {:induction false} SubRemove(q: seq<Entry>, e: Entry)
    ensures Subseq(RemoveFirst(q, e), q)
    decreases |q|
  {
    if q != [] {
      SubRemove(q[1..], e);
      SubAll(q[1..]);
      assert ([q[0]] + RemoveFirst(q[1..], e))[1..] == RemoveFirst(q[1..], e);
    }
  }

  lemma {:induction false} SubMember(s: seq<Entry>, t: seq<Entry>, x: Entry)
    requires Subseq(s, t) && x in s
    ensures x in t
    decreases |t|
  {
    if Subseq(s, t[1..]) {
      SubMember(s, t[1..], x);
    } else if x != s[0] {
      assert x in s[1..];
      SubMember(s[1..], t[1..], x);
    }
  }

  /** Two entries of a subsequence stand in the same order in the whole. */
  lemma {:induction false} SubOrder(s: seq<Entry>, t: seq<Entry>, i: nat, j: nat) returns (a: nat, b: nat)
    requires Subseq(s, t) && i < j < |s|
    ensures a < b < |t| && t[a] == s[i] && t[b] == s[j]
    decreases |t|
  {
    if Subseq(s, t[1..]) {
      var c, d := SubOrder(s, t[1..], i, j);
      a, b := c + 1, d + 1;
    } else if i > 0 {
      var c, d := SubOrder(s[1..], t[1..], i - 1, j - 1);
      a, b := c + 1, d + 1;
    } else {
      assert s[j] == s[1..][j - 1];
      SubMember(s[1..], t[1..], s[j]);
      var d :| 0 <= d < |t[1..]| && t[1..][d] == s[j];
      a, b := 0, d + 1;
    }
  }

  // ---- Order over a run ---------------------------------------------------

  /** The requests of a lane that were handed down, and then those still queued, in the order of acceptance. */
  predicate Kept(s: Sis, sap: int, priority: int) {
    Subseq(Lane(s.handed, sap, priority) + Lane(s.queue, sap, priority), Lane(s.accepted, sap, priority))
  }

  /** The step takes a request of a lane in which another one was queued before it and has a later time. */
  predicate Overtakes(s: Sis, step: Step) {
    && step.DispatchStep? && Taken(s, step.active, step.made, step.ranks).Some?
    && var e := Taken(s, step.active, step.made, step.ranks).value;
       !HeadOldest(Lane(s.queue, e.srcSap, e.priority))
  }

  lemma {:induction false} LaneRemoveEach(q: seq<Entry>, es: seq<Entry>, sap: int, priority: int)
    ensures Subseq(Lane(RemoveEach(q, es), sap, priority), Lane(q, sap, priority))
    decreases |es|
  {
    var lane := Lane(q, sap, priority);
    SubAll(lane);
    if es != [] {
      var q1 := RemoveFirst(q, es[0]);
      LaneRemove(q, es[0], sap, priority);
      SubRemove(lane, es[0]);
      LaneRemoveEach(q1, es[1..], sap, priority);
      SubTrans(Lane(RemoveEach(q1, es[1..]), sap, priority), Lane(q1, sap, priority), lane);
    }
  }

  lemma RejectKeeps(s: Sis, es: seq<Entry>, sap: int, priority: int)
    requires Kept(s, sap, priority)
    ensures Kept(Reject(s, es), sap, priority)
  {
    var h, q := Lane(s.handed, sap, priority), Lane(s.queue, sap, priority);
    var q1 := Lane(RemoveEach(s.queue, es), sap, priority);
    LaneRemoveEach(s.queue, es, sap, priority);
    SubPrefix(h, q1, q);
    SubTrans(h + q1, h + q, Lane(s.accepted, sap, priority));
  }

  lemma SubmitKeeps(s: Sis, e: Entry, sap: int, priority: int)
    requires Kept(s, sap, priority)
    ensures Kept(s.(queue := s.queue + [e], accepted := s.accepted + [e]), sap, priority)
  {
    var h, q, a := Lane(s.handed, sap, priority), Lane(s.queue, sap, priority), Lane(s.accepted, sap, priority);
    LaneConcat(s.queue, [e], sap, priority);
    LaneConcat(s.accepted, [e], sap, priority);
    LaneOne(e, sap, priority);
    SubSnoc(h + q, a, e);
    assert h + (q + [e]) == h + q + [e] && q + [] == q && a + [] == a;
  }

  lemma DispatchKeeps(s: Sis, active: bool, made: bool, ranks: map<int, int>, sap: int, priority: int)
    requires Kept(s, sap, priority) && !Overtakes(s, DispatchStep(active, made, ranks))
    ensures Kept(Dispatch(s, active, made, ranks), sap, priority)
  {
    hide Lane, Dispatch, Taken, Subseq, HeadOldest;
    DispatchLanes(s, active, made, ranks, sap, priority);
    DispatchAccepted(s, active, made, ranks);
    var t := Taken(s, active, made, ranks);
    if t.Some? && InLane(t.value, sap, priority) {
      TakesHeadIff(s, active, made, ranks);
      var h, q := Lane(s.handed, sap, priority), Lane(s.queue, sap, priority);
      assert RemoveFirst(q, t.value) == q[1..];
      assert h + [t.value] + q[1..] == h + q;
    }
  }

  lemma DispatchAccepted(s: Sis, active: bool, made: bool, ranks: map<int, int>)
    ensures Dispatch(s, active, made, ranks).accepted == s.accepted
  {
  }

  lemma StepKeeps(s: Sis, step: Step, sap: int, priority: int)
    requires Kept(s, sap, priority) && !Overtakes(s, step)
    ensures Kept(Apply(s, step), sap, priority)
  {
    hide Kept, Overtakes, Dispatch, Reject;
    match step
    case Request(e, bound, flowOn) => SubmitKeeps(s, e, sap, priority);
    case PurgeStep(now) => RejectKeeps(s, Expired(s.queue, now), sap, priority);
    case LinkLost => RejectKeeps(s, OfService(s.queue, Arq), sap, priority);
    case DispatchStep(active, made, ranks) => DispatchKeeps(s, active, made, ranks, sap, priority);
  }

  /** No request occurs twice. */
  predicate AllDifferent(q: seq<Entry>) {
    forall i, j :: 0 <= i < j < |q| ==> q[i] != q[j]
  }

  lemma {:induction false} LaneDifferent(q: seq<Entry>, sap: int, priority: int)
    requires AllDifferent(q)
    ensures AllDifferent(Lane(q, sap, priority))
    decreases |q|
  {
    if q != [] {
      var rest := Lane(q[1..], sap, priority);
      LaneDifferent(q[1..], sap, priority);
      LaneMember(q[1..], sap, priority, q[0]);
      assert q[0] !in rest;
      assert [] + rest == rest;
    }
  }

  /** Two orders of the same two requests cannot both be that of a list without repetition. */
  lemma OneOrder(s: seq<Entry>, i: nat, j: nat, s1: seq<Entry>, i1: nat, j1: nat, t: seq<Entry>)
    requires AllDifferent(t) && i < j < |s| && i1 < j1 < |s1| && s[i] == s1[j1] && s[j] == s1[i1] && Subseq(s, t)
    ensures !Subseq(s1, t)
  {
    if Subseq(s1, t) {
      var a, b := SubOrder(s, t, i, j);
      var c, d := SubOrder(s1, t, i1, j1);
      assert false;
    }
  }

  /** An overtaking dispatch does put two different requests of its lane out of order. */
  lemma OvertakingBreaks(s: Sis, step: Step)
    requires Overtakes(s, step) && AllDifferent(s.accepted)
    ensures var e := Taken(s, step.active, step.made, step.ranks).value;
      Kept(s, e.srcSap, e.priority) ==> !Kept(Apply(s, step), e.srcSap, e.priority)
  {
    hide Lane, Dispatch, Taken, Subseq, HeadOldest, AllDifferent;
    var e := Taken(s, step.active, step.made, step.ranks).value;
    var sap, priority := e.srcSap, e.priority;
    var h, q, t := Lane(s.handed, sap, priority), Lane(s.queue, sap, priority), Lane(s.accepted, sap, priority);
    TakesHeadIff(s, step.active, step.made, step.ranks);
    LaneMember(s.queue, sap, priority, e);
    DispatchLanes(s, step.active, step.made, step.ranks, sap, priority);
    DispatchAccepted(s, step.active, step.made, step.ranks);
    LaneDifferent(s.accepted, sap, priority);
    var i :| 0 <= i < |q| && q[i] == e;
    var r := RemoveFirst(q, e);
    assert r == [q[0]] + RemoveFirst(q[1..], e);
    var h1 := h + [e] + r;
    assert (h + q)[|h|] == q[0] && (h + q)[|h| + i] == e && h1[|h|] == e && h1[|h| + 1] == q[0];
    if Kept(s, sap, priority) { OneOrder(h + q, |h|, |h| + i, h1, |h|, |h| + 1, t); }
  }

  ghost predicate KeptAt(steps: seq<Step>, n: nat)
    requires n <= |steps|
  {
    forall sap, priority :: Kept(After(steps[..n]), sap, priority)
  }

  predicate OvertakesAt(steps: seq<Step>, n: nat)
    requires n < |steps|
  {
    Overtakes(After(steps[..n]), steps[n])
  }

  ghost predicate AlwaysKept(steps: seq<Step>) {
    forall n :: 0 <= n <= |steps| ==> KeptAt(steps, n)
  }

  ghost predicate NeverOvertakes(steps: seq<Step>) {
    forall n :: 0 <= n < |steps| ==> !OvertakesAt(steps, n)
  }

  lemma KeptSnoc(steps: seq<Step>, n: nat)
    requires |steps| == n + 1
    ensures AlwaysKept(steps) <==> AlwaysKept(steps[..n]) && KeptAt(steps, n + 1)
    ensures NeverOvertakes(steps) <==> NeverOvertakes(steps[..n]) && !OvertakesAt(steps, n)
  {
    hide KeptAt, OvertakesAt;
    forall i | 0 <= i <= n
      ensures KeptAt(steps[..n], i) <==> KeptAt(steps, i)
      ensures i < n ==> (OvertakesAt(steps[..n], i) <==> OvertakesAt(steps, i))
    {
      KeptPrefix(steps, n, i);
    }
  }

  lemma KeptPrefix(steps: seq<Step>, n: nat, i: nat)
    requires i <= n <= |steps|
    ensures KeptAt(steps[..n], i) <==> KeptAt(steps, i)
    ensures i < n ==> (OvertakesAt(steps[..n], i) <==> OvertakesAt(steps, i))
  {
    hide Kept, Overtakes;
    assert steps[..n][..i] == steps[..i];
  }

  lemma LastKept(steps: seq<Step>, n: nat)
    requires |steps| == n + 1 && KeptAt(steps[..n], n) && !OvertakesAt(steps, n)
    ensures KeptAt(steps, n + 1)
  {
    hide Kept, Overtakes, Apply;
    assert steps[..n][..n] == steps[..n] && steps[..n + 1] == steps;
    var s, s1 := After(steps[..n]), After(steps[..n + 1]);
    forall sap, priority ensures Kept(s1, sap, priority) {
      assert Kept(s, sap, priority);
      StepKeeps(s, steps[n], sap, priority);
    }
  }

  lemma LastBroken(steps: seq<Step>, n: nat)
    requires |steps| == n + 1 && KeptAt(steps[..n], n) && OvertakesAt(steps, n) && AllDifferent(After(steps).accepted)
    ensures !KeptAt(steps, n + 1)
  {
    hide Kept, Apply, Taken, AllDifferent;
    assert steps[..n][..n] == steps[..n] && steps[..n + 1] == steps;
    var s := After(steps[..n]);
    AcceptedGrows(s, steps[n]);
    DifferentPrefix(s.accepted, Apply(s, steps[n]).accepted);
    OvertakingBreaks(s, steps[n]);
    var e := Taken(s, steps[n].active, steps[n].made, steps[n].ranks).value;
    assert Kept(s, e.srcSap, e.priority);
    assert !Kept(After(steps[..n + 1]), e.srcSap, e.priority);
  }

  lemma AcceptedGrows(s: Sis, step: Step)
    ensures s.accepted <= Apply(s, step).accepted
  {
  }

  lemma DifferentPrefix(p: seq<Entry>, q: seq<Entry>)
    requires p <= q && AllDifferent(q)
    ensures AllDifferent(p)
  {
    forall i, j | 0 <= i < j < |p| ensures p[i] != p[j] { assert q[i] == p[i] && q[j] == p[j]; }
  }

  /**
    * Of different requests, those of one client and priority never overtake each other, in any lane and at any moment
    * of a run, if and only if no dispatch of the run takes from a lane in which a later time stands before an earlier.
    */
  lemma {:induction false} OrderIff(steps: seq<Step>)
    requires AllDifferent(After(steps).accepted)
    ensures AlwaysKept(steps) <==> NeverOvertakes(steps)
    decreases |steps|
  {
    hide Overtakes, Apply, Kept, AllDifferent;
    if steps == [] {
      FreshKept();
      assert steps[..0] == [];
    } else {
      var n := |steps| - 1;
      AcceptedGrows(After(steps[..n]), steps[n]);
      DifferentPrefix(After(steps[..n]).accepted, After(steps).accepted);
      OrderIff(steps[..n]);
      KeptSnoc(steps, n);
      if AlwaysKept(steps[..n]) {
        if OvertakesAt(steps, n) { LastBroken(steps, n); } else { LastKept(steps, n); }
      }
    }
  }

  lemma FreshKept()
    ensures forall sap, priority :: Kept(FRESH, sap, priority)
  {
  }

  lemma {:induction false} NeverKeeps(steps: seq<Step>)
    requires NeverOvertakes(steps)
    ensures AlwaysKept(steps)
    decreases |steps|
  {
    hide Overtakes, Apply, Kept;
    if steps == [] {
      FreshKept();
      assert steps[..0] == [];
    } else {
      var n := |steps| - 1;
      KeptSnoc(steps, n);
      NeverKeeps(steps[..n]);
      LastKept(steps, n);
    }
  }

  lemma {:induction false} LaneSorted(q: seq<Entry>, sap: int, priority: int)
    requires Sorted(q)
    ensures HeadOldest(Lane(q, sap, priority))
    decreases |q|
  {
    if q != [] {
      LaneSorted(q[1..], sap, priority);
      var lane := Lane(q, sap, priority);
      assert [] + Lane(q[1..], sap, priority) == Lane(q[1..], sap, priority);
      if InLane(q[0], sap, priority) {
        forall x | x in lane ensures q[0].enqueuedAt <= x.enqueuedAt { LaneMember(q, sap, priority, x); }
      }
    }
  }

  lemma {:induction false} ForwardNever(steps: seq<Step>)
    requires ClockForward(After(steps))
    ensures NeverOvertakes(steps)
    decreases |steps|
  {
    hide Taken, Apply, HeadOldest, Lane;
    if steps != [] {
      var n := |steps| - 1;
      var s := After(steps[..n]);
      ClockEarlier(s, steps[n]);
      ForwardNever(steps[..n]);
      RunTimely(steps[..n]);
      KeptSnoc(steps, n);
      var step := steps[n];
      if step.DispatchStep? && Taken(s, step.active, step.made, step.ranks).Some? {
        var e := Taken(s, step.active, step.made, step.ranks).value;
        LaneSorted(s.queue, e.srcSap, e.priority);
      }
    }
  }

  /**
    * As long as the clock does not run backwards, in every run and for every client and priority, the requests handed
    * down and then those still queued are in the order in which they were accepted, whatever the ranks at a dispatch.
    */
  lemma NoOvertaking(steps: seq<Step>, sap: int, priority: int)
    requires ClockForward(After(steps))
    ensures var s := After(steps);
      Subseq(Lane(s.handed, sap, priority) + Lane(s.queue, sap, priority), Lane(s.accepted, sap, priority))
  {
    ForwardNever(steps);
    NeverKeeps(steps);
    assert KeptAt(steps, |steps|) && steps[..|steps|] == steps;
    assert Kept(After(steps[..|steps|]), sap, priority);
  }

  /** When the clock does run backwards between two requests of one client and priority, the younger one goes first. */
  lemma ClockBackOvertakes(a: Entry, b: Entry, ranks: map<int, int>)
    requires ServiceOf(a).Arq? && InLane(b, a.srcSap, a.priority) && |a.updu| <= MTU && |b.updu| <= MTU
    requires b.enqueuedAt < a.enqueuedAt
    ensures var s := After([Request(a, true, true), Request(b, true, true), DispatchStep(true, true, ranks)]);
      s.accepted == [a, b] && s.handed == [b] && s.queue == [a]
  {
    var r1, r2, d := Request(a, true, true), Request(b, true, true), DispatchStep(true, true, ranks);
    assert [r1, r2, d][..2] == [r1, r2] && [r1, r2][..1] == [r1] && [r1][..0] == [];
    var s := After([r1, r2]);
    assert s == Sis([a, b], [a, b], [], []) by {
      assert After([r1]) == Sis([a], [a], [], []);
      assert [a] + [b] == [a, b];
    }
    TwoServices(a, b);
    assert Best([a, b], 2, ranks) == 1 by {
      assert Best([a, b], 1, ranks) == 0;
      assert Before(b, a, ranks);
    }
    assert RemoveEach([a, b], [b]) == RemoveFirst([a, b], b) == [a] + RemoveFirst([b], b) == [a];
  }

  lemma TwoServices(a: Entry, b: Entry)
    requires ServiceOf(a).Arq? && ServiceOf(b).Arq?
    ensures OfService([a, b], Arq) == [a, b]
    ensures OfService([a, b], NonArq) == [] && OfService([a, b], ExpeditedArq) == []
  {
    assert [a, b][1..] == [b] && [b][1..] == [];
    assert OfService([b], Arq) == [b] + OfService([], Arq) == [b];
    assert OfService([b], NonArq) == OfService([], NonArq) == [];
    assert OfService([b], ExpeditedArq) == OfService([], ExpeditedArq) == [];
  }
}

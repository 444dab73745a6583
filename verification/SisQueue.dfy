/** The transmit queue of the subnetwork interface: what becomes of every accepted request, and in which order. */
module SisQueue {
  import opened Prelude

  const MTU := 2048

  /** A queued request; `ttd` is its time to die, absent for a request that never expires. */
  datatype Entry = Entry(srcSap: int, destAddr: int, destSap: int, priority: int, ttd: Option<int>, enqueuedAt: int,
                         arq: bool, expedited: bool, nodeConfirm: bool, clientConfirm: bool, inOrder: bool,
                         updu: bytes)

  datatype Service = Arq | ExpeditedArq | NonArq

  function ServiceOf(e: Entry): Service {
    if !e.arq then NonArq else if e.expedited then ExpeditedArq else Arq
  }

  datatype Reason = SapNotBound | MtuExceeded | FlowControl | TtlExpired | LinkFailed

  /**
    * The queue and its history: every request accepted, handed down to a lower layer, or rejected after it was
    * accepted.
    */
  datatype Sis = Sis(queue: seq<Entry>, accepted: seq<Entry>, handed: seq<Entry>, rejected: seq<Entry>)

  const FRESH := Sis([], [], [], [])

  // ---- Lists --------------------------------------------------------------

  /** The list without the first element equal to `e`. */
  function RemoveFirst(q: seq<Entry>, e: Entry): seq<Entry> {
    if q == [] then [] else if q[0] == e then q[1..] else [q[0]] + RemoveFirst(q[1..], e)
  }

  function RemoveEach(q: seq<Entry>, es: seq<Entry>): seq<Entry>
    decreases |es|
  {
    if es == [] then q else RemoveEach(RemoveFirst(q, es[0]), es[1..])
  }

  function OfService(q: seq<Entry>, c: Service): seq<Entry> {
    if q == [] then [] else (if ServiceOf(q[0]) == c then [q[0]] else []) + OfService(q[1..], c)
  }

  predicate IsExpired(e: Entry, now: int) { e.ttd.Some? && now >= e.ttd.value }

  function Expired(q: seq<Entry>, now: int): seq<Entry> {
    if q == [] then [] else (if IsExpired(q[0], now) then [q[0]] else []) + Expired(q[1..], now)
  }

  // ---- Choice -------------------------------------------------------------

  /** The order by which the next request is chosen: priority, then rank of the client, then age. */
  predicate Before(a: Entry, b: Entry, ranks: map<int, int>) {
    var ra, rb := Rank(a, ranks), Rank(b, ranks);
    if a.expedited != b.expedited then a.expedited
    else if a.priority != b.priority then a.priority > b.priority
    else if ra != rb then ra > rb
    else a.enqueuedAt < b.enqueuedAt
  }

  function Rank(e: Entry, ranks: map<int, int>): int {
    if e.srcSap in ranks then ranks[e.srcSap] else 0
  }

  /** The position of the first best entry among the first `n`. */
  function Best(pool: seq<Entry>, n: nat, ranks: map<int, int>): (k: nat)
    requires 0 < n <= |pool|
    ensures k < n
  {
    if n == 1 then 0
    else
      var k := Best(pool, n - 1, ranks);
      if Before(pool[n - 1], pool[k], ranks) then n - 1 else k
  }

  /** No entry comes before the chosen one, and no earlier one is as good. */
  lemma {:induction false} BestIsFirstMaximal(pool: seq<Entry>, n: nat, ranks: map<int, int>)
    requires 0 < n <= |pool|
    ensures var k := Best(pool, n, ranks);
      && (forall j :: 0 <= j < n ==> !Before(pool[j], pool[k], ranks))
      && (forall j :: 0 <= j < k ==> Before(pool[k], pool[j], ranks))
    decreases n
  {
    if n > 1 { BestIsFirstMaximal(pool, n - 1, ranks); }
  }

  // ---- Operations ---------------------------------------------------------

  /** The reason for which a request is refused at once, if there is one. */
  function Refusal(e: Entry, bound: bool, flowOn: bool): Option<Reason> {
    if !bound then Some(SapNotBound)
    else if |e.updu| > MTU then Some(MtuExceeded)
    else if !flowOn then Some(FlowControl)
    else None
  }

  function Submit(s: Sis, e: Entry, bound: bool, flowOn: bool): Sis {
    if Refusal(e, bound, flowOn).Some? then s
    else s.(queue := s.queue + [e], accepted := s.accepted + [e])
  }

  function Reject(s: Sis, es: seq<Entry>): Sis {
    s.(queue := RemoveEach(s.queue, es), rejected := s.rejected + es)
  }

  function Hand(s: Sis, es: seq<Entry>): Sis {
    s.(queue := RemoveEach(s.queue, es), handed := s.handed + es)
  }

  function Purge(s: Sis, now: int): Sis { Reject(s, Expired(s.queue, now)) }

  function RejectPending(s: Sis): Sis { Reject(s, OfService(s.queue, Arq)) }

  /** One round of dispatch; the link session is active or not, and the physical link made or not. */
  function Dispatch(s: Sis, active: bool, made: bool, ranks: map<int, int>): Sis {
    var arq := OfService(s.queue, Arq);
    var s1 := Hand(s, OfService(s.queue, NonArq));
    var s2 := if active then Hand(s1, OfService(s.queue, ExpeditedArq)) else s1;
    if arq == [] || !active || !made then s2 else Hand(s2, [arq[Best(arq, |arq|, ranks)]])
  }

  // ---- The queue as an object ---------------------------------------------

  class SisTransmitQueue {
    var queue: seq<Entry>
    ghost var accepted: seq<Entry>
    ghost var handed: seq<Entry>
    ghost var rejected: seq<Entry>

    ghost function State(): Sis
      reads this
    {
      Sis(queue, accepted, handed, rejected)
    }

    constructor ()
      ensures State() == FRESH
    {
      queue := [];
      accepted, handed, rejected := [], [], [];
    }

    method UnidataRequest(e: Entry, bound: bool, flowOn: bool) returns (refused: Option<Reason>)
      modifies this
      ensures refused == Refusal(e, bound, flowOn)
      ensures State() == Submit(old(State()), e, bound, flowOn)
    {
      if !bound { return Some(SapNotBound); }
      if |e.updu| > MTU { return Some(MtuExceeded); }
      if !flowOn { return Some(FlowControl); }
      queue := queue + [e];
      accepted := accepted + [e];
      return None;
    }

    /** Takes each of these entries off the queue, in order, and returns them for rejection. */
    method RejectEach(es: seq<Entry>)
      modifies this`queue, this`rejected
      ensures State() == Reject(old(State()), es)
    {
      ghost var goal := RemoveEach(queue, es);
      for i := 0 to |es|
        invariant goal == RemoveEach(queue, es[i..])
        invariant rejected == old(rejected) + es[..i] && accepted == old(accepted) && handed == old(handed)
      {
        assert es[i..][0] == es[i] && es[i..][1..] == es[i + 1..];
        assert es[..i + 1] == es[..i] + [es[i]];
        queue := RemoveFirst(queue, es[i]);
        rejected := rejected + [es[i]];
      }
      assert es[..|es|] == es;
    }

    method HandEach(es: seq<Entry>)
      modifies this`queue, this`handed
      ensures State() == Hand(old(State()), es)
    {
      ghost var goal := RemoveEach(queue, es);
      for i := 0 to |es|
        invariant goal == RemoveEach(queue, es[i..])
        invariant handed == old(handed) + es[..i] && accepted == old(accepted) && rejected == old(rejected)
      {
        assert es[i..][0] == es[i] && es[i..][1..] == es[i + 1..];
        assert es[..i + 1] == es[..i] + [es[i]];
        queue := RemoveFirst(queue, es[i]);
        handed := handed + [es[i]];
      }
      assert es[..|es|] == es;
    }

    method PurgeExpired(now: int)
      modifies this
      ensures State() == Purge(old(State()), now)
    {
      var expired := Expired(queue, now);
      RejectEach(expired);
    }

    method RejectAllPending()
      modifies this
      ensures State() == RejectPending(old(State()))
    {
      var pending := OfService(queue, Arq);
      RejectEach(pending);
    }

    method PickNext(pool: seq<Entry>, ranks: map<int, int>) returns (e: Entry)
      requires pool != []
      ensures e == pool[Best(pool, |pool|, ranks)]
    {
      var k := 0;
      for n := 1 to |pool|
        invariant k == Best(pool, n, ranks)
      {
        if Before(pool[n], pool[k], ranks) { k := n; }
      }
      return pool[k];
    }

    method DispatchTx(active: bool, made: bool, ranks: map<int, int>)
      modifies this
      ensures State() == Dispatch(old(State()), active, made, ranks)
    {
      var arqEntries := OfService(queue, Arq);
      var expEntries := OfService(queue, ExpeditedArq);
      var nonArqEntries := OfService(queue, NonArq);
      HandEach(nonArqEntries);
      if active { HandEach(expEntries); }
      if arqEntries == [] { return; }
      if !active { return; }
      if !made { return; }
      var e := PickNext(arqEntries, ranks);
      HandEach([e]);
    }
  }
}

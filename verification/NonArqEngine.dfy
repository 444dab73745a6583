/** The non-ARQ receivers as objects, and the delivery of whole bursts. */
module NonArqEngine {
  import opened Dpdu
  import opened DpduCodec
  import opened DpduCodecProof
  import opened NonArqBurst
  import opened NonArqRuns
  import opened NonArqTrackers
  import opened Prelude

  // ---- The interval reassembler -------------------------------------------

  /** An entry and the time of its first segment. */
  datatype Held = Held(entry: Entry, createdAt: int)

  class NonArqReassembler {
    const windowSeconds: int
    var entries: map<int, Held>

    ghost predicate Valid()
      reads this
    {
      forall id :: id in entries ==>
        && |entries[id].entry.buffer| == entries[id].entry.size
        && Normal(entries[id].entry.ranges)
        && forall k :: 0 <= k < |entries[id].entry.ranges| ==> 0 <= entries[id].entry.ranges[k].lo
    }

    constructor (window: int)
      ensures Valid() && entries == map[] && windowSeconds == window
    {
      windowSeconds := window;
      entries := map[];
    }

    /** The segment goes to the entry of its id, opened on demand; a completed entry is removed. */
    method AcceptSegment(cpduId: int, cpduSize: nat, start: int, payload: bytes, now: int) returns (r: Option<bytes>)
      requires Valid()
      modifies this
      ensures Valid()
      ensures var held := if cpduId in old(entries) then old(entries)[cpduId] else Held(NewEntry(cpduSize), now);
        var accepted := Accept(held.entry, start, payload);
        && r == accepted.cpdu
        && entries == if r.Some? then old(entries) - {cpduId}
                      else old(entries)[cpduId := Held(accepted.entry, held.createdAt)]
    {
      hide Merge;
      if cpduId !in entries {
        entries := entries[cpduId := Held(NewEntry(cpduSize), now)];
      }
      var held := entries[cpduId];
      var e := held.entry;
      var end := start + |payload|;
      if start < 0 || end > e.size { return None; }
      MergeCorrect(e.ranges, Range(start, end), -1);
      var ranges := MergeRanges(e.ranges, Range(start, end));
      var updated := Entry(e.size, Splice(e.buffer, start, payload), ranges);
      entries := entries[cpduId := Held(updated, held.createdAt)];
      if |ranges| == 1 && ranges[0].lo == 0 && ranges[0].hi >= e.size {
        entries := entries - {cpduId};
        return Some(updated.buffer);
      }
      return None;
    }

    /** Drops exactly the entries that are older than the window. */
    method PurgeExpired(now: int)
      requires Valid()
      modifies this
      ensures Valid()
      ensures entries == map id | id in old(entries)
          && now - old(entries)[id].createdAt <= windowSeconds :: old(entries)[id]
    {
      var toDelete := set id | id in entries && now - entries[id].createdAt > windowSeconds;
      entries := entries - toDelete;
    }
  }

  // ---- The bitmap receiver ------------------------------------------------

  /** Source address and C_PDU id. */
  type Key = (nat, nat)

  datatype Partial = Partial(kind: DpduType, destination: nat, work: Assembly, expiresAt: int)

  datatype Delivery = Delivery(kind: DpduType, source: nat, destination: nat, cpduId: nat, payload: bytes,
                               complete: bool, cpduSize: nat)

  /** What one D_PDU does: the assemblies afterwards, and the delivery it completes. */
  datatype Outcome = Outcome(partials: map<Key, Partial>, delivery: Option<Delivery>)

  ghost predicate AllSound(ps: map<Key, Partial>) {
    forall k :: k in ps ==> Sound(ps[k].work)
  }

  function KeyOf(d: Dpdu): Key
    requires d.nonArq.Some?
  {
    (d.address.source, d.nonArq.value.cpduId)
  }

  /** The assembly that a D_PDU belongs to, with its deadline moved, or a new one. */
  function Current(ps: map<Key, Partial>, d: Dpdu, deadline: int): (p: Partial)
    requires AllSound(ps) && d.nonArq.Some?
    ensures Sound(p.work)
  {
    var key := KeyOf(d);
    FreshAgree(d.nonArq.value.cpduSize);
    if key in ps then ps[key].(expiresAt := Max(ps[key].expiresAt, deadline))
    else Partial(d.kind, d.address.destination, NewAssembly(d.nonArq.value.cpduSize), deadline)
  }

  function OnSegment(ps: map<Key, Partial>, d: Dpdu, now: int): (o: Outcome)
    requires AllSound(ps) && d.nonArq.Some?
    ensures AllSound(o.partials)
  {
    var h, key := d.nonArq.value, KeyOf(d);
    var deadline := now + h.cpduReceptionWindow * 500;
    var p := Current(ps, d, deadline);
    var work := Absorb(p.work, h.firstBytePosition, d.userData);
    if Complete(work) then
      Outcome(ps - {key}, Some(Delivery(p.kind, key.0, p.destination, key.1, work.buffer, true, work.size)))
    else Outcome(ps[key := p.(work := work)], None)
  }

  /** The bytes that a partial assembly did receive, in order. */
  function Fragments(a: Assembly, from: nat): (s: bytes)
    requires |a.buffer| == a.size && |a.received| == a.size && from <= a.size
    decreases a.size - from
  {
    if from == a.size then []
    else (if a.received[from] then [a.buffer[from]] else []) + Fragments(a, from + 1)
  }

  /** The delivery of an assembly that has run out of time. */
  function PartialDelivery(k: Key, p: Partial): Delivery
    requires Sound(p.work)
  {
    Delivery(p.kind, k.0, p.destination, k.1, Fragments(p.work, 0), false, p.work.size)
  }

  /** Runs the byte loop on the arrays of an assembly. */
  method AbsorbInto(a: Assembly, start: nat, data: bytes) returns (r: Assembly)
    requires Sound(a)
    ensures r == Absorb(a, start, data)
  {
    var buffer := new byte[a.size](i requires 0 <= i < a.size => a.buffer[i]);
    var received := new bool[a.size](i requires 0 <= i < a.size => a.received[i]);
    assert buffer[..] == a.buffer && received[..] == a.received;
    var count := AbsorbLoop(buffer, received, a.count, start, data);
    r := Assembly(a.size, buffer[..], received[..], count);
  }

  class NonArqReceiver {
    const localAddress: nat
    const deliverWithErrors: bool
    var partials: map<Key, Partial>
    var deliveries: seq<Delivery>
    var remoteTxUntil: int

    constructor (local: nat, withErrors: bool)
      ensures partials == map[] && deliveries == [] && localAddress == local && deliverWithErrors == withErrors
    {
      localAddress, deliverWithErrors := local, withErrors;
      partials, deliveries, remoteTxUntil := map[], [], 0;
    }

    /** A D_PDU from the modem: it updates the channel reservation, and is taken in when it is for this node. */
    method ProcessDpdu(d: Dpdu, now: int)
      requires AllSound(partials)
      modifies this
      ensures AllSound(partials)
      ensures remoteTxUntil == if d.eot != 0 then Max(old(remoteTxUntil), now + d.eot * 500) else old(remoteTxUntil)
      ensures if IsNonArq(d.kind) && d.nonArq.Some? && d.address.destination == localAddress then
          var o := OnSegment(old(partials), d, now);
          partials == o.partials
          && deliveries == old(deliveries) + if o.delivery.Some? then [o.delivery.value] else []
        else partials == old(partials) && deliveries == old(deliveries)
    {
      if d.eot != 0 {
        remoteTxUntil := Max(remoteTxUntil, now + d.eot * 500);
      }
      if IsNonArq(d.kind) && d.nonArq.Some? && d.address.destination == localAddress {
        var out := ProcessNonArqDpdu(d, now);
      }
    }

    /** A D_PDU for this node: it opens, extends or completes the assembly of its source and C_PDU id. */
    method ProcessNonArqDpdu(d: Dpdu, now: int) returns (out: seq<Delivery>)
      requires AllSound(partials) && d.nonArq.Some?
      modifies this
      ensures AllSound(partials) && remoteTxUntil == old(remoteTxUntil)
      ensures var o := OnSegment(old(partials), d, now);
        && out == (if o.delivery.Some? then [o.delivery.value] else [])
        && partials == o.partials && deliveries == old(deliveries) + out
    {
      hide Absorb, Count;
      out := [];
      var h, key := d.nonArq.value, KeyOf(d);
      var p;
      if key !in partials {
        p := Partial(d.kind, d.address.destination, NewAssembly(h.cpduSize), now + h.cpduReceptionWindow * 500);
      } else {
        p := partials[key];
        p := p.(expiresAt := Max(p.expiresAt, now + h.cpduReceptionWindow * 500));
      }
      assert p == Current(old(partials), d, now + h.cpduReceptionWindow * 500);
      var work := AbsorbInto(p.work, h.firstBytePosition, d.userData);
      partials := partials[key := p.(work := work)];
      if work.count >= work.size {
        partials := partials - {key};
        assert partials == old(partials) - {key};
        out := [Delivery(p.kind, key.0, p.destination, key.1, work.buffer, true, work.size)];
        deliveries := deliveries + out;
      }
    }

    /**
      * Drops exactly the assemblies whose deadline has passed. Each gives one partial delivery, or none in error-free
      * mode; the order among them is not determined here.
      */
    method ExpirePartialReassemblies(now: int)
      requires AllSound(partials)
      modifies this
      ensures AllSound(partials)
      ensures partials == map k | k in old(partials) && now < old(partials)[k].expiresAt :: old(partials)[k]
      ensures !deliverWithErrors ==> deliveries == old(deliveries)
      ensures deliverWithErrors ==> exists order: seq<Key> ::
        ExpiryOrder(old(partials), now, order) && deliveries == old(deliveries) + Reports(old(partials), order)
    {
      hide Sound;
      ghost var all, before := partials, deliveries;
      var todo := set k | k in partials && now >= partials[k].expiresAt;
      ghost var due := todo;
      ghost var order: seq<Key> := [];
      while todo != {}
        invariant todo <= due && partials == all - (due - todo)
        invariant forall k :: k in order <==> k in due - todo
        invariant forall i, j :: 0 <= i < j < |order| ==> order[i] != order[j]
        invariant deliveries == before + if deliverWithErrors then Reports(all, order) else []
        decreases |todo|
      {
        var key :| key in todo;
        var p := partials[key];
        todo := todo - {key};
        partials := partials - {key};
        ReportsSnoc(all, order, key);
        order := order + [key];
        if deliverWithErrors {
          deliveries := deliveries + [PartialDelivery(key, p)];
        }
      }
      assert ExpiryOrder(all, now, order);
    }
  }

  /** A list of exactly the keys that are due, each once. */
  ghost predicate ExpiryOrder(ps: map<Key, Partial>, now: int, order: seq<Key>) {
    && (forall k :: k in order <==> k in ps && now >= ps[k].expiresAt)
    && (forall i, j :: 0 <= i < j < |order| ==> order[i] != order[j])
  }

  ghost function Reports(ps: map<Key, Partial>, order: seq<Key>): (rs: seq<Delivery>)
    requires AllSound(ps) && forall k :: k in order ==> k in ps
  {
    seq(|order|, i requires 0 <= i < |order| => assert order[i] in order; PartialDelivery(order[i], ps[order[i]]))
  }

  lemma ReportsSnoc(ps: map<Key, Partial>, order: seq<Key>, key: Key)
    requires AllSound(ps) && (forall k :: k in order ==> k in ps) && key in ps
    ensures Reports(ps, order + [key]) == Reports(ps, order) + [PartialDelivery(key, ps[key])]
  {
    assert forall k :: k in order + [key] ==> k in ps;
  }

  // ---- Whole bursts -------------------------------------------------------

  /** D_PDUs of one C_PDU. */
  ghost predicate SameCpdu(ds: seq<Dpdu>, key: Key, size: nat) {
    forall i :: 0 <= i < |ds| ==> ds[i].nonArq.Some? && KeyOf(ds[i]) == key && ds[i].nonArq.value.cpduSize == size
  }

  ghost function SegsOf(ds: seq<Dpdu>): seq<Seg>
    requires forall i :: 0 <= i < |ds| ==> ds[i].nonArq.Some?
  {
    seq(|ds|, i requires 0 <= i < |ds| => SegOf(ds[i]))
  }

  /** The payloads delivered while these D_PDUs come in, with the times they come in at. */
  ghost function Payloads(ps: map<Key, Partial>, ds: seq<Dpdu>, times: seq<int>): (out: seq<Option<bytes>>)
    requires AllSound(ps) && |times| == |ds| && forall i :: 0 <= i < |ds| ==> ds[i].nonArq.Some?
    ensures |out| == |ds|
    decreases |ds|
  {
    if ds == [] then []
    else
      var o := OnSegment(ps, ds[0], times[0]);
      [if o.delivery.Some? then Some(o.delivery.value.payload) else None] + Payloads(o.partials, ds[1..], times[1..])
  }

  /** For the D_PDUs of one C_PDU the receiver is the bitmap tracker, whatever other assemblies it holds. */
  lemma {:induction false} ReceiverIsTracker(ps: map<Key, Partial>, ds: seq<Dpdu>, times: seq<int>, key: Key, size: nat)
    requires AllSound(ps) && |times| == |ds| && SameCpdu(ds, key, size)
    requires key in ps ==> ps[key].work.size == size
    ensures Payloads(ps, ds, times) == BitmapRun(size, if key in ps then Some(ps[key].work) else None, SegsOf(ds))
    decreases |ds|
  {
    if ds != [] {
      var o := OnSegment(ps, ds[0], times[0]);
      assert SegsOf(ds)[0] == SegOf(ds[0]) && SegsOf(ds)[1..] == SegsOf(ds[1..]);
      ReceiverIsTracker(o.partials, ds[1..], times[1..], key, size);
    }
  }

  /** Every number below `n` has been picked. */
  predicate AllPicked(n: nat, picks: seq<nat>) {
    forall i :: 0 <= i < n ==> i in picks
  }

  predicate Picks(n: nat, picks: seq<nat>) {
    forall i :: 0 <= i < |picks| ==> picks[i] < n
  }

  /** The D_PDUs carry the segments with these numbers of a C_PDU. */
  ghost predicate Carry(ds: seq<Dpdu>, key: Key, p: bytes, n: nat, picks: seq<nat>)
    requires n > 0
  {
    && SameCpdu(ds, key, |p|) && |ds| == |picks| && Picks(|BuildSegments(p, n)|, picks)
    && forall i :: 0 <= i < |picks| ==> SegsOf(ds)[i] == BuildSegments(p, n)[picks[i]]
  }

  lemma PicksDelivered(ps: map<Key, Partial>, ds: seq<Dpdu>, times: seq<int>, key: Key, p: bytes, n: nat,
                       picks: seq<nat>, last: nat)
    requires n > 0 && AllSound(ps) && key !in ps && |times| == |ds| && Carry(ds, key, p, n, picks) && last < |picks|
    requires forall m :: 0 < m <= last ==> !AllPicked(|BuildSegments(p, n)|, picks[..m])
    ensures var out := Payloads(ps, ds, times);
      && |out| == |picks| && (forall m :: 0 <= m < last ==> out[m] == None)
      && out[last] == if AllPicked(|BuildSegments(p, n)|, picks[..last + 1]) then Some(p) else None
  {
    hide BitmapRun, Payloads, WholeBy, PartOf, AllSound;
    var built, segs := BuildSegments(p, n), SegsOf(ds);
    ReceiverIsTracker(ps, ds, times, key, |p|);
    assert forall k :: 0 <= k < |segs| ==> segs[k] == built[picks[k]];
    DrawnInRange(p, n, segs);
    forall m | 0 < m <= last ensures !WholeBy(|p|, segs, m) {
      PickedAll(built, n, segs, picks, m);
      ArrivedSoFar(p, n, segs, m);
    }
    PickedAll(built, n, segs, picks, last + 1);
    AnyOrder(p, n, segs, last);
  }

  /**
    * The D_PDUs of a burst, in any order and repeated at will, are delivered by the receiver as the original C_PDU,
    * with the arrival that completes the set, and as nothing before.
    */
  lemma BurstDelivered(r: Request, s: Setup, ps: map<Key, Partial>, picks: seq<nat>, times: seq<int>, last: nat)
    requires BurstProblem(r, s).None? && AllSound(ps) && (s.source, r.cpduId) !in ps
    requires |times| == |picks| && last < |picks| && Picks(|Burst(r, s)|, picks)
    requires forall m :: 0 < m <= last ==> !AllPicked(|Burst(r, s)|, picks[..m])
    ensures var out := Payloads(ps, Arrivals(r, s, picks), times);
      && |out| == |picks| && (forall m :: 0 <= m < last ==> out[m] == None)
      && out[last] == if AllPicked(|Burst(r, s)|, picks[..last + 1]) then Some(r.payload) else None
  {
    ArrivalsAre(r, s, picks);
    PicksDelivered(ps, Arrivals(r, s, picks), times, (s.source, r.cpduId), r.payload, s.maxData, picks, last);
  }

  /** The D_PDUs that arrive when the frames of a burst with these numbers are received. */
  ghost function Arrivals(r: Request, s: Setup, picks: seq<nat>): (ds: seq<Dpdu>)
    requires BurstProblem(r, s).None? && Picks(|Burst(r, s)|, picks)
    ensures |ds| == |picks| && forall i :: 0 <= i < |ds| ==> ds[i].nonArq.Some?
  {
    seq(|picks|, i requires 0 <= i < |picks| => Arrival(r, s, picks[i]))
  }

  ghost function Arrival(r: Request, s: Setup, k: nat): (d: Dpdu)
    requires BurstProblem(r, s).None? && k < |Burst(r, s)|
    ensures d.nonArq.Some?
  {
    BurstIsSegments(r, s, k);
    Decode(Wire(Burst(r, s)[k])).value
  }

  lemma ArrivalFacts(r: Request, s: Setup, k: nat)
    requires BurstProblem(r, s).None? && k < |Burst(r, s)|
    ensures var d := Arrival(r, s, k);
      && KeyOf(d) == (s.source, r.cpduId) && d.nonArq.value.cpduSize == |r.payload|
      && SegOf(d) == BuildSegments(r.payload, s.maxData)[k]
  {
    BurstIsSegments(r, s, k);
    RoundTrip(Burst(r, s)[k]);
    HeaderFacts(r, s, k);
  }

  lemma HeaderFacts(r: Request, s: Setup, k: nat)
    requires BurstProblem(r, s).None? && k < |Burst(r, s)|
    ensures var d := Burst(r, s)[k];
      Encodable(d) && Carried(d).nonArq == d.nonArq && Carried(d).address == d.address
      && d.address.source == s.source && d.nonArq.Some? && d.nonArq.value.cpduId == r.cpduId
  {
  }

  lemma ArrivalsAre(r: Request, s: Setup, picks: seq<nat>)
    requires BurstProblem(r, s).None? && Picks(|Burst(r, s)|, picks)
    ensures Carry(Arrivals(r, s, picks), (s.source, r.cpduId), r.payload, s.maxData, picks)
  {
    forall i | 0 <= i < |picks|
      ensures SegsOf(Arrivals(r, s, picks))[i] == BuildSegments(r.payload, s.maxData)[picks[i]]
      ensures KeyOf(Arrivals(r, s, picks)[i]) == (s.source, r.cpduId)
      ensures Arrivals(r, s, picks)[i].nonArq.value.cpduSize == |r.payload|
    {
      ArrivalFacts(r, s, picks[i]);
    }
  }

  lemma StartsDistinct(i: nat, j: nat, n: nat)
    requires n > 0 && i * n == j * n
    ensures i == j
  {
  }

  /** Picking frames picks segments. */
  lemma PickedAll(built: seq<Seg>, n: nat, segs: seq<Seg>, picks: seq<nat>, m: nat)
    requires n > 0 && |segs| == |picks| && m <= |picks|
    requires forall i :: 0 <= i < |built| ==> built[i].start == i * n
    requires forall i :: 0 <= i < |picks| ==> picks[i] < |built| && segs[i] == built[picks[i]]
    ensures AllPicked(|built|, picks[..m]) <==> forall i :: 0 <= i < |built| ==> built[i] in segs[..m]
  {
    forall i | 0 <= i < |built| ensures built[i] in segs[..m] <==> i in picks[..m] {
      if built[i] in segs[..m] {
        var j :| 0 <= j < m && segs[..m][j] == built[i];
        StartsDistinct(i, picks[j], n);
        assert picks[..m][j] == i;
      }
      if i in picks[..m] {
        var j :| 0 <= j < m && picks[..m][j] == i;
        assert segs[..m][j] == built[i];
      }
    }
  }
}

/** When a non-ARQ assembly runs out of time, and what it delivers then. */
module NonArqExpiry {
  import opened Dpdu
  import opened NonArqEngine
  import opened NonArqTrackers
  import opened Prelude

  /** The assemblies after these D_PDUs have come in at these times. */
  ghost function PartialsAfter(ps: map<Key, Partial>, ds: seq<Dpdu>, times: seq<int>): (ps1: map<Key, Partial>)
    requires AllSound(ps) && |times| == |ds| && forall i :: 0 <= i < |ds| ==> ds[i].nonArq.Some?
    ensures AllSound(ps1)
    decreases |ds|
  {
    if ds == [] then ps
    else
      var n := |ds| - 1;
      OnSegment(PartialsAfter(ps, ds[..n], times[..n]), ds[n], times[n]).partials
  }

  /** The end of the reception window that a D_PDU announces, in half seconds from its arrival. */
  function Due(d: Dpdu, time: int): int
    requires d.nonArq.Some?
  {
    time + 500 * d.nonArq.value.cpduReceptionWindow
  }

  /** The latest of the announced ends. */
  ghost predicate IsLatest(e: int, ds: seq<Dpdu>, times: seq<int>)
    requires |times| == |ds| && forall i :: 0 <= i < |ds| ==> ds[i].nonArq.Some?
  {
    && (forall i :: 0 <= i < |ds| ==> Due(ds[i], times[i]) <= e)
    && (exists i :: 0 <= i < |ds| && Due(ds[i], times[i]) == e)
  }

  /** None of the D_PDUs completes the assembly. */
  ghost predicate NeverComplete(ps: map<Key, Partial>, ds: seq<Dpdu>, times: seq<int>, key: Key)
    requires AllSound(ps) && |times| == |ds| && forall i :: 0 <= i < |ds| ==> ds[i].nonArq.Some?
  {
    forall n :: 0 < n <= |ds| ==> key in PartialsAfter(ps, ds[..n], times[..n])
  }

  /**
    * As long as the D_PDUs of a C_PDU do not complete it, its assembly expires at the latest end that any of them has
    * announced, it keeps the type and destination of the first one, and no other assembly is touched.
    */
  lemma {:induction false} ExpiresAtLatest(ps: map<Key, Partial>, ds: seq<Dpdu>, times: seq<int>, key: Key, size: nat)
    requires AllSound(ps) && key !in ps && |times| == |ds| && ds != [] && SameCpdu(ds, key, size)
    requires NeverComplete(ps, ds, times, key)
    ensures var ps1 := PartialsAfter(ps, ds, times);
      && key in ps1 && IsLatest(ps1[key].expiresAt, ds, times)
      && ps1[key].kind == ds[0].kind && ps1[key].destination == ds[0].address.destination
      && ps1[key].work.size == size && ps1 - {key} == ps
    decreases |ds|
  {
    hide AllSound, OnSegment, Due, PartialsAfter;
    var n := |ds| - 1;
    var before := PartialsAfter(ps, ds[..n], times[..n]);
    LastArrival(ps, ds, times, key);
    OneArrival(before, ds[n], times[n]);
    if n > 0 {
      ShorterRun(ps, ds, times, key);
      ExpiresAtLatest(ps, ds[..n], times[..n], key, size);
      LatestOn(before[key].expiresAt, ds, times);
    }
  }

  lemma LastArrival(ps: map<Key, Partial>, ds: seq<Dpdu>, times: seq<int>, key: Key)
    requires AllSound(ps) && |times| == |ds| && ds != [] && forall i :: 0 <= i < |ds| ==> ds[i].nonArq.Some?
    requires NeverComplete(ps, ds, times, key)
    ensures var n := |ds| - 1;
      && PartialsAfter(ps, ds, times) == OnSegment(PartialsAfter(ps, ds[..n], times[..n]), ds[n], times[n]).partials
      && key in PartialsAfter(ps, ds, times)
      && (n == 0 ==> PartialsAfter(ps, ds[..n], times[..n]) == ps)
  {
    hide AllSound, OnSegment;
    assert ds[..|ds|] == ds && times[..|ds|] == times;
  }

  /** One D_PDU that does not complete its assembly. */
  lemma OneArrival(ps: map<Key, Partial>, d: Dpdu, now: int)
    requires AllSound(ps) && d.nonArq.Some? && KeyOf(d) in OnSegment(ps, d, now).partials
    ensures var ps1, key := OnSegment(ps, d, now).partials, KeyOf(d);
      && ps1 - {key} == ps - {key}
      && if key in ps then
           && ps1[key].expiresAt == (if ps[key].expiresAt >= Due(d, now) then ps[key].expiresAt else Due(d, now))
           && ps1[key].kind == ps[key].kind && ps1[key].destination == ps[key].destination
           && ps1[key].work.size == ps[key].work.size
         else
           && ps1[key].expiresAt == Due(d, now) && ps1[key].kind == d.kind
           && ps1[key].destination == d.address.destination && ps1[key].work.size == d.nonArq.value.cpduSize
  {
    hide Absorb;
  }

  lemma ShorterRun(ps: map<Key, Partial>, ds: seq<Dpdu>, times: seq<int>, key: Key)
    requires AllSound(ps) && |times| == |ds| && ds != [] && forall i :: 0 <= i < |ds| ==> ds[i].nonArq.Some?
    requires NeverComplete(ps, ds, times, key)
    ensures NeverComplete(ps, ds[..|ds| - 1], times[..|ds| - 1], key)
  {
    hide AllSound, PartialsAfter;
    var n := |ds| - 1;
    forall m | 0 < m <= n ensures key in PartialsAfter(ps, ds[..n][..m], times[..n][..m]) {
      assert ds[..n][..m] == ds[..m] && times[..n][..m] == times[..m];
    }
  }

  lemma LatestOn(e: int, ds: seq<Dpdu>, times: seq<int>)
    requires |times| == |ds| && ds != [] && forall i :: 0 <= i < |ds| ==> ds[i].nonArq.Some?
    requires IsLatest(e, ds[..|ds| - 1], times[..|ds| - 1])
    ensures var due := Due(ds[|ds| - 1], times[|ds| - 1]); IsLatest(if e >= due then e else due, ds, times)
  {
    hide Due;
    var n := |ds| - 1;
    var i :| 0 <= i < n && Due(ds[..n][i], times[..n][i]) == e;
    assert Due(ds[i], times[i]) == e;
    forall j | 0 <= j < n ensures Due(ds[j], times[j]) <= e {
      assert Due(ds[..n][j], times[..n][j]) <= e;
    }
  }

  /** A completed delivery names its source and id, the type and destination of the first D_PDU, and its own size. */
  lemma CompletedSays(ps: map<Key, Partial>, d: Dpdu, now: int)
    requires AllSound(ps) && d.nonArq.Some? && OnSegment(ps, d, now).delivery.Some?
    ensures var r, key := OnSegment(ps, d, now).delivery.value, (d.address.source, d.nonArq.value.cpduId);
      && (r.source, r.cpduId) == key && r.complete && r.cpduSize == |r.payload|
      && (if key in ps then (r.kind, r.destination) == (ps[key].kind, ps[key].destination)
          else (r.kind, r.destination) == (d.kind, d.address.destination))
      && OnSegment(ps, d, now).partials == ps - {key}
  {
  }

  // ---- Partial deliveries -------------------------------------------------

  /** How many of the bytes before position `n` have been received. */
  function Before(received: seq<bool>, n: nat): (c: nat)
    requires n <= |received|
    ensures c <= n
  {
    if n == 0 then 0 else Before(received, n - 1) + if received[n - 1] then 1 else 0
  }

  lemma {:induction false} BeforeGrows(received: seq<bool>, m: nat, n: nat)
    requires m <= n <= |received|
    ensures Before(received, m) <= Before(received, n)
    decreases n
  {
    if m < n { BeforeGrows(received, m, n - 1); }
  }

  lemma {:induction false} FragmentsFrom(a: Assembly, from: nat, i: nat)
    requires |a.buffer| == a.size && |a.received| == a.size && from <= i <= a.size
    ensures |Fragments(a, from)| == Before(a.received, a.size) - Before(a.received, from)
    ensures var k := Before(a.received, i) - Before(a.received, from);
      0 <= k && (i < a.size && a.received[i] ==> k < |Fragments(a, from)| && Fragments(a, from)[k] == a.buffer[i])
    decreases a.size - from
  {
    BeforeGrows(a.received, from, i);
    if from < a.size {
      FragmentsFrom(a, from + 1, if i == from then from + 1 else i);
      if i > from { BeforeGrows(a.received, from + 1, i); }
    }
  }

  /**
    * An assembly that runs out of time delivers exactly the bytes received, in order: as many as were received, and the
    * byte at a received position stands behind those received before it. The delivery is marked as incomplete.
    */
  lemma PartialSays(k: Key, p: Partial, i: nat)
    requires Sound(p.work) && i < p.work.size && p.work.received[i]
    ensures var r, at := PartialDelivery(k, p), Before(p.work.received, i);
      && |r.payload| == Before(p.work.received, p.work.size) && at < |r.payload| && r.payload[at] == p.work.buffer[i]
      && (r.source, r.cpduId) == k && !r.complete && r.cpduSize == p.work.size
      && (r.kind, r.destination) == (p.kind, p.destination)
  {
    FragmentsFrom(p.work, 0, i);
  }
}

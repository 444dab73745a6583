/** Why every chunk of a character stream leaves, and that nothing waits longer than it may, over every run. */
module CossFlush {
  import opened Coss
  import opened Prelude

  /** When the last octet before the end of the run came in. */
  function LastFed(start: int, events: seq<Event>): int {
    if events == [] then start
    else
      var e := events[|events| - 1];
      if e.Fed? && e.data != [] then e.now else LastFed(start, events[..|events| - 1])
  }

  lemma {:induction false} LastRxIs(start: int, events: seq<Event>, r: Rules)
    ensures After(start, events, r).lastRx == LastFed(start, events)
    decreases |events|
  {
    if events != [] {
      var n := |events| - 1;
      LastRxIs(start, events[..n], r);
      if events[n].Fed? { BytesTime(After(start, events[..n], r), events[n].data, events[n].now, r); }
    }
  }

  lemma {:induction false} BytesTime(b: Buffer, data: bytes, now: int, r: Rules)
    ensures OnBytes(b, data, now, r).lastRx == if data == [] then b.lastRx else now
    decreases |data|
  {
    if data != [] { BytesTime(b, data[..|data| - 1], now, r); }
  }

  /** The chunk fills the threshold, or it ends in CR LF where that counts. */
  predicate Complete(s: bytes, r: Rules) {
    || |s| >= r.threshold
    || (r.flushOnCrlf && |s| >= 2 && s[|s| - 2] == 13 && s[|s| - 1] == 10)
  }

  /** Chunk `i` left in step `e` of the run, for the reason that this step can give. */
  ghost predicate LeftAt(start: int, events: seq<Event>, r: Rules, i: nat, e: nat)
    requires i < |After(start, events, r).sent|
  {
    && e < |events| && |After(start, events[..e], r).sent| <= i < |After(start, events[..e + 1], r).sent|
    && match events[e]
       case Fed(_, _) => Complete(After(start, events, r).sent[i], r)
       case Ticked(now) => now - LastFed(start, events[..e]) >= r.timeout
       case Forced => true
  }

  /** What one step appends, and why. */
  lemma {:induction false} FedChunks(b: Buffer, data: bytes, now: int, r: Rules)
    ensures var b1 := OnBytes(b, data, now, r);
      b.sent <= b1.sent && forall i :: |b.sent| <= i < |b1.sent| ==> Complete(b1.sent[i], r)
    decreases |data|
  {
    if data != [] { FedChunks(b, data[..|data| - 1], now, r); }
  }

  lemma SentGrows(start: int, events: seq<Event>, r: Rules)
    requires events != []
    ensures After(start, events[..|events| - 1], r).sent <= After(start, events, r).sent
  {
    var n := |events| - 1;
    if events[n].Fed? { FedChunks(After(start, events[..n], r), events[n].data, events[n].now, r); }
  }

  /**
    * In every run each chunk left for a reason: while octets came in because it was complete, at a tick because no
    * octet had come for the timeout, or because it was forced.
    */
  lemma {:induction false} ChunkHasReason(start: int, events: seq<Event>, r: Rules, i: nat) returns (e: nat)
    requires i < |After(start, events, r).sent|
    ensures LeftAt(start, events, r, i, e)
    decreases |events|
  {
    var n := |events| - 1;
    var b, b1 := After(start, events[..n], r), After(start, events, r);
    SentGrows(start, events, r);
    if i < |b.sent| {
      e := ChunkHasReason(start, events[..n], r, i);
      assert events[..n][..e] == events[..e] && events[..n][..e + 1] == events[..e + 1];
      assert b.sent[i] == b1.sent[i];
    } else {
      e := n;
      assert events[..n + 1] == events;
      LastRxIs(start, events[..n], r);
      if events[n].Fed? { FedChunks(b, events[n].data, events[n].now, r); }
    }
  }

  /**
    * In every run what waits is not complete, nor is any shorter beginning of it or of a chunk; nothing waits after a
    * forced flush, nor after a tick at which no octet had come for the timeout.
    */
  lemma NothingWaitsTooLong(start: int, events: seq<Event>, r: Rules)
    ensures var b := After(start, events, r);
      && (b.waiting != [] ==> !Complete(b.waiting, r))
      && (forall n :: 0 < n < |b.waiting| ==> !Complete(b.waiting[..n], r))
      && (forall i, n :: 0 <= i < |b.sent| && 0 < n < |b.sent[i]| ==> !Complete(b.sent[i][..n], r))
      && (events != [] ==>
            && (events[|events| - 1].Forced? ==> b.waiting == [])
            && (events[|events| - 1].Ticked? && events[|events| - 1].now - LastFed(start, events) >= r.timeout ==>
                  b.waiting == []))
  {
    var b := After(start, events, r);
    NothingLost(start, events, r);
    LastRxIs(start, events, r);
    if events != [] { LastRxIs(start, events[..|events| - 1], r); }
    forall i, n | 0 <= i < |b.sent| && 0 < n < |b.sent[i]| ensures !Complete(b.sent[i][..n], r) {
      assert NotDueBefore(b.sent[i], r) && !Due(b.sent[i][..n], r);
    }
    forall n | 0 < n < |b.waiting| ensures !Complete(b.waiting[..n], r) {
      assert !Due(b.waiting[..n], r);
    }
  }
}

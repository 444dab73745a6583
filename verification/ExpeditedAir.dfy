/** When expedited D_PDUs go on the air, how often, and that they can still get through, over every run. */
module ExpeditedAir {
  import opened Expedited
  import opened ExpeditedLink
  import opened Prelude

  /** The number of the segment that a step puts on the air, if it puts one there. */
  function Sends(l: Link, step: Step, cfg: Config): Option<nat>
    requires Possible(l, step)
  {
    var l1 := Next(l, step, cfg);
    if |l1.data| > |l.data| then Some(l1.data[|l.data|].stamp) else None
  }

  /** How often a run has put segment `x` on the air. */
  function Times(steps: seq<Step>, cfg: Config, x: nat): nat
    requires After(steps, cfg).Some?
    decreases |steps|
  {
    if steps == [] then 0
    else
      var n := |steps| - 1;
      Times(steps[..n], cfg, x) + if Sends(After(steps[..n], cfg).value, steps[n], cfg) == Some(x) then 1 else 0
  }

  /** The index of the step of the run that put segment `x` on the air last. */
  function LastSent(steps: seq<Step>, cfg: Config, x: nat): (r: Option<nat>)
    requires After(steps, cfg).Some?
    ensures r.Some? ==> r.value < |steps| && steps[r.value].Round?
    decreases |steps|
  {
    if steps == [] then None
    else
      var n := |steps| - 1;
      if Sends(After(steps[..n], cfg).value, steps[n], cfg) == Some(x) then Some(n) else LastSent(steps[..n], cfg, x)
  }

  // ---- One round ----------------------------------------------------------

  /** The round puts one D_PDU of segment `x` on the air, behind everything else. */
  predicate Puts(l: Link, l1: Link, f: Frame, x: nat) {
    l1 == l.(tx := l1.tx, segs := l1.segs, data := l.data + [DataIn(f, x)])
  }

  /** While the timer of the segment in flight runs, a round changes nothing. */
  lemma WaitsForTimer(l: Link, now: int, cfg: Config)
    requires LinkInv(l) && l.tx.waiting.Some? && now - l.tx.waiting.value.sentAt < cfg.timeout
    ensures Rounded(l, now, cfg) == l
  {
    InStep(l);
    hide LinkInv;
    assert l.segs + Cut(l) == l.segs;
  }

  /** When it has run out and retries are left, the segment goes out again, and the timer starts again. */
  lemma Repeats(l: Link, now: int, cfg: Config)
    requires LinkInv(l) && l.tx.waiting.Some? && now - l.tx.waiting.value.sentAt >= cfg.timeout
    requires l.tx.waiting.value.retx < cfg.maxRetries
    ensures var l1, w := Rounded(l, now, cfg), l.tx.waiting.value;
      && 0 <= Current(l) && Puts(l, l1, w.frame, Current(l)) && l1.segs == l.segs
      && l1.tx == l.tx.(waiting := Some(w.(sentAt := now, retx := w.retx + 1)))
  {
    InStep(l);
    hide LinkInv;
    assert l.segs + Cut(l) == l.segs;
  }

  lemma InStep(l: Link)
    requires LinkInv(l)
    ensures 0 <= Current(l) && 0 <= |l.cpdus| - |l.tx.queue|
    ensures l.tx.waiting.Some? ==> l.tx.waiting.value.frame.seqNo == l.tx.frameSeq
  {
    if l.tx.waiting.Some? { NumberInFlight(l.tx, l.cpdus, l.segs, l.got, l.acked); }
  }

  /** When no retries are left the segment is given up with the rest of its C_PDU, and nothing goes out. */
  lemma GivesUp(l: Link, now: int, cfg: Config)
    requires LinkInv(l) && l.tx.waiting.Some? && now - l.tx.waiting.value.sentAt >= cfg.timeout
    requires l.tx.waiting.value.retx >= cfg.maxRetries
    ensures var l1 := Rounded(l, now, cfg);
      && l1 == l.(tx := l1.tx) && l1.tx.waiting == None && l1.tx.segments == [] && l1.tx.queue == l.tx.queue
  {
    InStep(l);
    hide LinkInv;
    assert l.segs + Cut(l) == l.segs;
  }

  /** With nothing in flight and something to send, the next segment goes out for the first time. */
  lemma StartsNext(l: Link, now: int, cfg: Config)
    requires LinkInv(l) && l.tx.waiting == None && (l.tx.segments != [] || l.tx.queue != [])
    ensures var l1 := Rounded(l, now, cfg);
      && 0 <= Current(l) == Current(l1) && l1.tx.waiting.Some? && SentOf(l1.tx, l1.segs) == SentOf(l.tx, l.segs) + 1
      && l1.tx.waiting == Some(Waiting(l1.tx.waiting.value.frame, now, 0))
      && Puts(l, l1, l1.tx.waiting.value.frame, Current(l))
  {
    hide LinkInv;
    CutInv(l);
    InStep(l);
    InStep(CutLink(l));
    if l.tx.segments == [] { NextIsLong(l); }
    FreshIs(l, now, cfg);
  }

  lemma NextIsLong(l: Link)
    requires LinkInv(l) && l.tx.queue != []
    ensures l.tx.queue[0] != []
  {
    NextQueued(l);
    assert l.tx.queue[0] in l.cpdus;
  }

  lemma NothingToDo(l: Link, now: int, cfg: Config)
    requires LinkInv(l) && l.tx.waiting == None && l.tx.segments == [] && l.tx.queue == []
    ensures Rounded(l, now, cfg) == l
  {
    InStep(l);
    hide LinkInv;
    assert l.segs + Cut(l) == l.segs;
  }

  // ---- Runs ---------------------------------------------------------------

  /** The state before the last step of a run. */
  function Before(steps: seq<Step>, cfg: Config): (l: Link)
    requires steps != [] && After(steps, cfg).Some?
    ensures After(steps[..|steps| - 1], cfg) == Some(l) && Enabled(l, steps[|steps| - 1], cfg)
    ensures After(steps, cfg) == Some(Next(l, steps[|steps| - 1], cfg))
  {
    After(steps[..|steps| - 1], cfg).value
  }

  /** The segment in flight has been sent once and once more for every retry; nothing behind it has been sent. */
  ghost predicate Counted(steps: seq<Step>, cfg: Config)
    requires After(steps, cfg).Some?
  {
    var l := After(steps, cfg).value;
    && (forall x: nat :: x >= SentOf(l.tx, l.segs) ==> Times(steps, cfg, x) == 0)
    && (l.tx.waiting.Some? && Current(l) >= 0 ==>
          var w, last := l.tx.waiting.value, LastSent(steps, cfg, Current(l));
          && 0 <= w.retx && (w.retx > 0 ==> w.retx <= cfg.maxRetries)
          && Times(steps, cfg, Current(l)) == 1 + w.retx && last.Some? && steps[last.value].now == w.sentAt)
  }

  /** How the history of one segment goes on. */
  lemma OneMore(steps: seq<Step>, cfg: Config, x: nat)
    requires steps != [] && After(steps, cfg).Some?
    ensures var n, now := |steps| - 1, Sends(Before(steps, cfg), steps[|steps| - 1], cfg) == Some(x);
      && Times(steps, cfg, x) == Times(steps[..n], cfg, x) + (if now then 1 else 0)
      && LastSent(steps, cfg, x) == if now then Some(n) else LastSent(steps[..n], cfg, x)
  {
    hide After, Sends, Next;
  }

  /** A step that leaves the segment in flight alone, or ends the wait for it. */
  lemma NothingSent(steps: seq<Step>, cfg: Config)
    requires steps != [] && After(steps, cfg).Some? && Counted(steps[..|steps| - 1], cfg)
    requires var l, l1 := Before(steps, cfg), After(steps, cfg).value;
      && |l1.data| <= |l.data| && SentOf(l1.tx, l1.segs) >= SentOf(l.tx, l.segs)
      && (l1.tx.waiting.Some? ==> l1.tx.waiting == l.tx.waiting && Current(l1) == Current(l))
    ensures Counted(steps, cfg)
  {
    hide After, Next, Times, LastSent;
    forall x: nat ensures Times(steps, cfg, x) == Times(steps[..|steps| - 1], cfg, x) {
      OneMore(steps, cfg, x);
    }
    var l1 := After(steps, cfg).value;
    if l1.tx.waiting.Some? && Current(l1) >= 0 { OneMore(steps, cfg, Current(l1)); }
  }

  /** A round that puts segment `x` on the air. */
  lemma OneSent(steps: seq<Step>, cfg: Config, x: nat)
    requires steps != [] && After(steps, cfg).Some? && steps[|steps| - 1].Round? && Counted(steps[..|steps| - 1], cfg)
    requires var l, l1 := Before(steps, cfg), After(steps, cfg).value;
      && l1.tx.waiting.Some? && Puts(l, l1, l1.tx.waiting.value.frame, x) && Current(l1) == x
      && SentOf(l1.tx, l1.segs) >= SentOf(l.tx, l.segs) && x < SentOf(l1.tx, l1.segs)
      && l1.tx.waiting.value.sentAt == steps[|steps| - 1].now
      && l1.tx.waiting.value.retx == Times(steps[..|steps| - 1], cfg, x)
      && (l1.tx.waiting.value.retx > 0 ==> l1.tx.waiting.value.retx <= cfg.maxRetries)
    ensures Counted(steps, cfg)
  {
    hide After, Next, Times, LastSent, Enabled;
    OneMore(steps, cfg, x);
    var l1 := After(steps, cfg).value;
    forall y: nat | y >= SentOf(l1.tx, l1.segs) ensures Times(steps, cfg, y) == 0 {
      OneMore(steps, cfg, y);
    }
  }

  lemma RoundCounted(steps: seq<Step>, cfg: Config)
    requires steps != [] && After(steps, cfg).Some? && steps[|steps| - 1].Round?
    requires LinkInv(Before(steps, cfg)) && Counted(steps[..|steps| - 1], cfg)
    ensures Counted(steps, cfg)
  {
    hide After, LinkInv, Rounded, Enabled, Times, LastSent;
    var l, now := Before(steps, cfg), steps[|steps| - 1].now;
    InStep(l);
    if l.tx.waiting.Some? {
      if now - l.tx.waiting.value.sentAt < cfg.timeout {
        WaitsForTimer(l, now, cfg);
        NothingSent(steps, cfg);
      } else if l.tx.waiting.value.retx < cfg.maxRetries {
        Repeats(l, now, cfg);
        OneSent(steps, cfg, Current(l));
      } else {
        GivesUp(l, now, cfg);
        NothingSent(steps, cfg);
      }
    } else if l.tx.segments == [] && l.tx.queue == [] {
      NothingToDo(l, now, cfg);
      NothingSent(steps, cfg);
    } else {
      StartsNext(l, now, cfg);
      OneSent(steps, cfg, Current(l));
    }
  }

  lemma {:induction false} RunCounted(steps: seq<Step>, cfg: Config)
    requires After(steps, cfg).Some?
    ensures Counted(steps, cfg)
    decreases |steps|
  {
    hide LinkInv, Counted, Rounded, Enabled;
    if steps == [] {
      FreshCounted(cfg);
    } else {
      var n := |steps| - 1;
      RunCounted(steps[..n], cfg);
      RunKeepsInv(steps[..n], cfg);
      if steps[n].Round? {
        RoundCounted(steps, cfg);
      } else {
        NothingSent(steps, cfg);
      }
    }
  }

  lemma FreshCounted(cfg: Config)
    ensures Counted([], cfg)
  {
  }

  /** The segment in flight was sent last at least `timeout` ago, and has been sent this often. */
  ghost predicate DueAfter(steps: seq<Step>, now: int, cfg: Config, x: nat, times: int)
    requires After(steps, cfg).Some?
  {
    var last := LastSent(steps, cfg, x);
    last.Some? && now - steps[last.value].now >= cfg.timeout && Times(steps, cfg, x) == times
  }

  /**
    * In every reachable state: a round before the timeout of the segment in flight changes nothing; a later one puts it
    * on the air once more, until it has been sent `1 + maxRetries` times, and only then gives it up. A segment is never
    * put on the air again otherwise.
    */
  lemma SentInTime(steps: seq<Step>, now: int, cfg: Config)
    requires After(steps, cfg).Some?
    ensures var l := After(steps, cfg).value;
      && Possible(l, Round(now))
      && var l1, sent := Next(l, Round(now), cfg), Sends(l, Round(now), cfg);
      && (sent.Some? && Times(steps, cfg, sent.value) > 0 ==>
            && l.tx.waiting.Some? && sent.value == Current(l) && Times(steps, cfg, sent.value) <= cfg.maxRetries
            && DueAfter(steps, now, cfg, sent.value, Times(steps, cfg, sent.value)))
      && (l.tx.waiting.Some? && l1.tx.waiting == None ==>
            && Current(l) >= 0
            && DueAfter(steps, now, cfg, Current(l), 1 + if cfg.maxRetries > 0 then cfg.maxRetries else 0))
      && (l.tx.waiting.Some? && Current(l) >= 0 && LastSent(steps, cfg, Current(l)).Some? ==>
            var at := steps[LastSent(steps, cfg, Current(l)).value].now;
            && (now - at < cfg.timeout ==> l1 == l)
            && (now - at >= cfg.timeout && Times(steps, cfg, Current(l)) <= cfg.maxRetries ==> sent == Some(Current(l)))
            && (now - at >= cfg.timeout && Times(steps, cfg, Current(l)) > cfg.maxRetries ==> l1.tx.waiting == None))
  {
    hide After, LinkInv, Rounded, Times, LastSent;
    RunCounted(steps, cfg);
    RunKeepsInv(steps, cfg);
    var l := After(steps, cfg).value;
    InStep(l);
    if l.tx.waiting.Some? {
      if now - l.tx.waiting.value.sentAt < cfg.timeout {
        WaitsForTimer(l, now, cfg);
      } else if l.tx.waiting.value.retx < cfg.maxRetries {
        Repeats(l, now, cfg);
      } else {
        GivesUp(l, now, cfg);
      }
    } else if l.tx.segments == [] && l.tx.queue == [] {
      NothingToDo(l, now, cfg);
    } else {
      StartsNext(l, now, cfg);
    }
  }

  // ---- A segment that gets through ----------------------------------------

  lemma Onward(steps: seq<Step>, l: Link, step: Step, cfg: Config) returns (more: seq<Step>)
    requires After(steps, cfg) == Some(l) && Enabled(l, step, cfg)
    ensures After(more, cfg) == Some(Next(l, step, cfg))
  {
    hide Next, Within;
    more := steps + [step];
    assert more[..|steps|] == steps;
  }

  /** Everything on the air ahead of the last `n` D_PDUs is lost. */
  lemma {:induction false} LoseAhead(steps: seq<Step>, l: Link, n: nat, cfg: Config) returns (more: seq<Step>)
    requires After(steps, cfg) == Some(l) && n <= |l.data|
    ensures After(more, cfg) == Some(l.(data := l.data[|l.data| - n..]))
    decreases |l.data|
  {
    hide After;
    if |l.data| == n {
      more := steps;
      assert l.data[0..] == l.data;
    } else {
      more := Onward(steps, l, LoseData(0), cfg);
      assert l.data[..0] + l.data[1..] == l.data[1..];
      more := LoseAhead(more, l.(data := l.data[1..]), n, cfg);
      assert l.data[1..][|l.data[1..]| - n..] == l.data[|l.data| - n..];
    }
  }

  lemma {:induction false} LoseAcks(steps: seq<Step>, l: Link, cfg: Config) returns (more: seq<Step>)
    requires After(steps, cfg) == Some(l)
    ensures After(more, cfg) == Some(l.(acks := []))
    decreases |l.acks|
  {
    hide After;
    if l.acks == [] {
      more := steps;
    } else {
      more := Onward(steps, l, LoseAck(0), cfg);
      assert l.acks[..0] + l.acks[1..] == l.acks[1..];
      more := LoseAcks(more, l.(acks := l.acks[1..]), cfg);
    }
  }

  /** A round can happen unless it gives up a C_PDU. */
  lemma RoundEnabled(l: Link, now: int, cfg: Config)
    requires LinkInv(l) && Possible(l, Round(now))
    requires Current(Rounded(l, now, cfg)) == Current(l) && Rounded(l, now, cfg).acked == l.acked
    ensures Enabled(l, Round(now), cfg)
  {
    hide Rounded;
  }

  /** The frame of the segment in flight, just sent, arrives and is answered, and the answer arrives. */
  lemma GetsThrough(steps: seq<Step>, l: Link, x: nat, cfg: Config) returns (more: seq<Step>)
    requires After(steps, cfg) == Some(l) && l.tx.waiting.Some? && Current(l) == x
    requires l.data != [] && l.data[|l.data| - 1] == DataIn(l.tx.waiting.value.frame, x)
    requires LastGot(l) < x || AtOneEnd(l.tx.waiting.value.frame)
    ensures After(more, cfg).Some?
    ensures var l1 := After(more, cfg).value; l1.tx.waiting == None && l1.acked == x && x in l1.got
  {
    hide After, OnData, LinkInv, AtOneEnd;
    RunKeepsInv(steps, cfg);
    InStep(l);
    var d := DataIn(l.tx.waiting.value.frame, x);
    more := LoseAhead(steps, l, 1, cfg);
    var l1 := l.(data := [d]);
    assert l.data[|l.data| - 1..] == [d];
    RunKeepsInv(more, cfg);
    Arrives(l1, cfg);
    more := Onward(more, l1, ReceiveData, cfg);
    var l2 := Next(l1, ReceiveData, cfg);
    more := LoseAcks(more, l2, cfg);
    var l3 := l2.(acks := []);
    more := Onward(more, l3, Acknowledge, cfg);
    var l4 := Next(l3, Acknowledge, cfg);
    more := Onward(more, l4, ReceiveAck, cfg);
  }

  /** Receiving the segment records it. */
  lemma Arrives(l: Link, cfg: Config)
    requires LinkInv(l) && l.data != []
    ensures l.data[0].stamp in Next(l, ReceiveData, cfg).got
  {
    hide OnData;
    if LastGot(l) >= l.data[0].stamp { assert l.got[|l.got| - 1] == l.data[0].stamp; }
  }

  /**
    * From every reachable state the segment in flight can still get through if it has retries left, and the next one
    * if nothing is in flight: one round when it is due, the arrival of its frame, and the arrival of the answer
    * acknowledge it. (A middle segment that has arrived before would be put in twice; see `RepeatHarmlessIff`.)
    */
  lemma CanStillSucceed(steps: seq<Step>, cfg: Config) returns (more: seq<Step>)
    requires After(steps, cfg).Some?
    requires var l := After(steps, cfg).value;
      if l.tx.waiting.Some? then
        l.tx.waiting.value.retx < cfg.maxRetries && (LastGot(l) < Current(l) || AtOneEnd(l.tx.waiting.value.frame))
      else l.tx.segments != [] || l.tx.queue != []
    ensures After(more, cfg).Some?
    ensures var l, l1 := After(steps, cfg).value, After(more, cfg).value;
      l1.tx.waiting == None && l1.acked == Current(l) && Current(l) in l1.got
  {
    hide After, Rounded, LinkInv, AtOneEnd;
    var l := After(steps, cfg).value;
    RunKeepsInv(steps, cfg);
    InStep(l);
    var now := if l.tx.waiting.Some? then l.tx.waiting.value.sentAt + cfg.timeout else 0;
    if l.tx.waiting.Some? {
      Repeats(l, now, cfg);
    } else {
      StartsNext(l, now, cfg);
      NothingNewer(l);
    }
    RoundEnabled(l, now, cfg);
    more := Onward(steps, l, Round(now), cfg);
    more := GetsThrough(more, Rounded(l, now, cfg), Current(l), cfg);
  }

  /** Nothing has arrived that was not sent. */
  lemma NothingNewer(l: Link)
    requires LinkInv(l) && l.tx.waiting == None
    ensures LastGot(l) < Current(l)
  {
  }
}

/** When and how often management D_PDUs go on the air, over every run. */
module ManagementAir {
  import opened Prelude
  import opened Management
  import opened ManagementLink

  /**
    * History that no engine reads: how many D_PDUs of every message were put on the air, when that last happened, and
    * which messages lost their pending slot without an acknowledgement.
    */
  datatype Air = Air(count: map<nat, nat>, last: map<nat, int>, given: set<nat>)

  const SILENT := Air(map[], map[], {})

  function CountOf(a: Air, x: nat): nat { if x in a.count then a.count[x] else 0 }

  /** What a step adds, read off the channel and the pending slot. */
  function Watched(a: Air, l: Link, step: Step, l1: Link): Air {
    if !step.Tick? || |l1.data| < |l.data| then a
    else
      var more := l1.data[|l.data|..];
      var a1 := if more == [] then a
                else a.(count := a.count[more[0].stamp := CountOf(a, more[0].stamp) + |more|],
                        last := a.last[more[0].stamp := step.now]);
      if l.tx.pending.Some? && l1.tx.pending == None && Popped(l) > 0 then a1.(given := a1.given + {Popped(l) - 1})
      else a1
  }

  function AirAfter(steps: seq<Step>, cfg: Config, bound: nat): Air
    requires After(steps, cfg, bound).Some?
  {
    if steps == [] then SILENT
    else
      var n := |steps| - 1;
      Watched(AirAfter(steps[..n], cfg, bound), After(steps[..n], cfg, bound).value, steps[n],
              After(steps, cfg, bound).value)
  }

  // ---- One tick -----------------------------------------------------------

  /** The tick puts `n` copies of one D_PDU of message `x` on the air, behind everything else. */
  ghost predicate Puts(l: Link, l1: Link, f: MgmtFrame, x: nat, n: nat) {
    && |l1.data| == |l.data| + n && l1.data[..|l.data|] == l.data
    && forall i :: |l.data| <= i < |l1.data| ==> l1.data[i] == InFlight(f, x)
  }

  lemma CopiesPut(l: Link, l1: Link, f: MgmtFrame, x: nat, n: nat)
    requires l1.data == l.data + Stamped(Copies(f, n), x)
    ensures Puts(l, l1, f, x, n)
  {
  }

  /** While the timer of the pending message runs a tick changes nothing. */
  lemma WaitsForTimer(l: Link, now: int, cfg: Config)
    requires Popped(l) >= 0 && l.tx.pending.Some? && now - l.tx.pending.value.sentAt < cfg.timeout
    ensures Ticked(l, now, cfg) == l
  {
  }

  /** When it has run out and retries are left, all copies go out again, and the timer starts again. */
  lemma RepeatsAll(l: Link, now: int, cfg: Config)
    requires Popped(l) > 0 && l.tx.pending.Some? && now - l.tx.pending.value.sentAt >= cfg.timeout
    requires l.tx.pending.value.retx < cfg.maxRetries
    ensures var l1, w := Ticked(l, now, cfg), l.tx.pending.value;
      && Puts(l, l1, w.frame, Popped(l) - 1, cfg.reps)
      && l1.tx == l.tx.(pending := Some(w.(sentAt := now, retx := w.retx + 1)))
      && l1 == l.(tx := l1.tx, data := l1.data)
  {
    var l1 := Ticked(l, now, cfg);
    if cfg.reps == 0 {
      assert Copies(l.tx.pending.value.frame, 0) == [];
    } else {
      CopiesPut(l, l1, l.tx.pending.value.frame, Popped(l) - 1, cfg.reps);
    }
  }

  /** When no retries are left the message is given up, and nothing goes out. */
  lemma GivesUp(l: Link, now: int, cfg: Config)
    requires Popped(l) >= 0 && l.tx.pending.Some? && now - l.tx.pending.value.sentAt >= cfg.timeout
    requires l.tx.pending.value.retx >= cfg.maxRetries
    ensures Ticked(l, now, cfg) == l.(tx := l.tx.(pending := None))
  {
  }

  /** With nothing pending the next message is taken; one that fits goes out in all its copies. */
  lemma StartsNext(l: Link, now: int, cfg: Config)
    requires Popped(l) >= 0 && l.tx.pending == None && l.tx.queue != []
    ensures var l1, q := Ticked(l, now, cfg), l.tx.queue[0];
      && l1.tx.queue == l.tx.queue[1..] && l1 == l.(tx := l1.tx, data := l1.data)
      && (|q.msg.data| > 23 ==> l1.tx.pending == None && l1.data == l.data)
      && (|q.msg.data| <= 23 ==>
            && l1.tx.pending == Some(Waiting(WireOf(q.msg, q.id), now, 0))
            && Puts(l, l1, WireOf(q.msg, q.id), Popped(l), cfg.reps))
  {
    var l1, q := Ticked(l, now, cfg), l.tx.queue[0];
    if |q.msg.data| <= 23 {
      if cfg.reps == 0 {
        assert Copies(WireOf(q.msg, q.id), 0) == [];
      } else {
        CopiesPut(l, l1, WireOf(q.msg, q.id), Popped(l), cfg.reps);
      }
    }
  }

  lemma NothingToDo(l: Link, now: int, cfg: Config)
    requires Popped(l) >= 0 && l.tx.pending == None && l.tx.queue == []
    ensures Ticked(l, now, cfg) == l
  {
  }

  // ---- Runs ---------------------------------------------------------------

  /** The pending message has had its copies `1 + retx` times; one given up has had them `1 + maxRetries` times. */
  ghost predicate AirInv(l: Link, a: Air, cfg: Config) {
    && 0 <= Popped(l)
    && (forall x: nat :: x >= Popped(l) ==> x !in a.count && x !in a.last && x !in a.given)
    && (forall x :: x in a.given ==> CountOf(a, x) == cfg.reps * (1 + cfg.maxRetries))
    && (l.tx.pending.Some? ==>
          && Popped(l) > 0 && Popped(l) - 1 !in a.given && 0 <= l.tx.pending.value.retx <= cfg.maxRetries
          && CountOf(a, Popped(l) - 1) == cfg.reps * (1 + l.tx.pending.value.retx)
          && (cfg.reps > 0 ==> Popped(l) - 1 in a.last && a.last[Popped(l) - 1] == l.tx.pending.value.sentAt))
  }

  lemma PutWatched(a: Air, l: Link, l1: Link, now: int, f: MgmtFrame, x: nat, n: nat)
    requires Puts(l, l1, f, x, n)
    ensures var a1 := Watched(a, l, Tick(now), l1);
      && CountOf(a1, x) == CountOf(a, x) + n && (forall y: nat :: y != x ==> CountOf(a1, y) == CountOf(a, y))
      && (n > 0 ==> a1.last == a.last[x := now]) && (n == 0 ==> a1.last == a.last)
      && (forall y: nat :: y != x && y !in a.count ==> y !in a1.count)
      && (l1.tx.pending.Some? ==> a1.given == a.given)
  {
    var more := l1.data[|l.data|..];
    if n > 0 { assert more[0] == l1.data[|l.data|]; }
  }

  lemma TickAir(l: Link, a: Air, now: int, cfg: Config)
    requires AirInv(l, a, cfg)
    ensures AirInv(Ticked(l, now, cfg), Watched(a, l, Tick(now), Ticked(l, now, cfg)), cfg)
  {
    hide Ticked, Watched, CountOf;
    var l1 := Ticked(l, now, cfg);
    if l.tx.pending.Some? {
      var w := l.tx.pending.value;
      if now - w.sentAt < cfg.timeout {
        WaitsForTimer(l, now, cfg);
        SameWatched(a, l, now);
      } else if w.retx < cfg.maxRetries {
        RepeatsAll(l, now, cfg);
        PutWatched(a, l, l1, now, w.frame, Popped(l) - 1, cfg.reps);
        OneMoreTime(cfg.reps, w.retx);
      } else {
        GivesUp(l, now, cfg);
        GivenWatched(a, l, now);
      }
    } else if l.tx.queue == [] {
      NothingToDo(l, now, cfg);
      SameWatched(a, l, now);
    } else {
      StartsNext(l, now, cfg);
      var q := l.tx.queue[0];
      if |q.msg.data| <= 23 {
        Unseen(a, Popped(l));
        PutWatched(a, l, l1, now, WireOf(q.msg, q.id), Popped(l), cfg.reps);
      } else {
        SkippedWatched(a, l, l1, now);
      }
    }
  }

  lemma OneMoreTime(reps: nat, retx: nat)
    ensures reps * (1 + retx) + reps == reps * (1 + (retx + 1))
  {
  }

  lemma Unseen(a: Air, x: nat)
    requires x !in a.count
    ensures CountOf(a, x) == 0
  {
  }

  lemma SameWatched(a: Air, l: Link, now: int)
    ensures Watched(a, l, Tick(now), l) == a
  {
  }

  lemma GivenWatched(a: Air, l: Link, now: int)
    requires l.tx.pending.Some? && Popped(l) > 0
    ensures Watched(a, l, Tick(now), l.(tx := l.tx.(pending := None))) == a.(given := a.given + {Popped(l) - 1})
    ensures CountOf(a.(given := a.given + {Popped(l) - 1}), Popped(l) - 1) == CountOf(a, Popped(l) - 1)
    ensures forall x :: CountOf(a.(given := a.given + {Popped(l) - 1}), x) == CountOf(a, x)
  {
  }

  lemma SkippedWatched(a: Air, l: Link, l1: Link, now: int)
    requires l.tx.pending == None && l1.data == l.data
    ensures Watched(a, l, Tick(now), l1) == a
  {
  }

  lemma StepAir(l: Link, a: Air, step: Step, cfg: Config, bound: nat)
    requires AirInv(l, a, cfg) && Enabled(l, step, cfg, bound)
    ensures AirInv(Next(l, step, cfg), Watched(a, l, step, Next(l, step, cfg)), cfg)
  {
    hide Ticked, CountOf;
    if step.Tick? { TickAir(l, a, step.now, cfg); }
  }

  lemma {:induction false} RunAir(steps: seq<Step>, cfg: Config, bound: nat)
    requires After(steps, cfg, bound).Some?
    ensures AirInv(After(steps, cfg, bound).value, AirAfter(steps, cfg, bound), cfg)
    decreases |steps|
  {
    hide AirInv, Watched, Next, Enabled;
    if steps == [] {
      FreshAir(cfg);
    } else {
      var n := |steps| - 1;
      RunAir(steps[..n], cfg, bound);
      StepAir(After(steps[..n], cfg, bound).value, AirAfter(steps[..n], cfg, bound), steps[n], cfg, bound);
    }
  }

  lemma FreshAir(cfg: Config)
    ensures AirInv(Init(), SILENT, cfg)
  {
  }

  /**
    * In every reachable state the pending message has been put on the air in all its copies once and once more for
    * every retry, and a message that was given up as often as the limit allows.
    */
  lemma SentInFull(steps: seq<Step>, cfg: Config, bound: nat, x: nat)
    requires After(steps, cfg, bound).Some?
    ensures var l, a := After(steps, cfg, bound).value, AirAfter(steps, cfg, bound);
      && (l.tx.pending.Some? && x == Popped(l) - 1 ==>
            CountOf(a, x) == cfg.reps * (1 + l.tx.pending.value.retx) && l.tx.pending.value.retx <= cfg.maxRetries)
      && (x in a.given ==> CountOf(a, x) == cfg.reps * (1 + cfg.maxRetries))
  {
    hide *;
    RunAir(steps, cfg, bound);
    CountedInFull(After(steps, cfg, bound).value, AirAfter(steps, cfg, bound), cfg, x);
  }

  lemma CountedInFull(l: Link, a: Air, cfg: Config, x: nat)
    requires AirInv(l, a, cfg)
    ensures l.tx.pending.Some? && x == Popped(l) - 1 ==>
      CountOf(a, x) == cfg.reps * (1 + l.tx.pending.value.retx) && l.tx.pending.value.retx <= cfg.maxRetries
    ensures x in a.given ==> CountOf(a, x) == cfg.reps * (1 + cfg.maxRetries)
  {
    hide CountOf, Popped;
  }

  /** A message goes on the air again, or is given up, only when its timeout has passed since the last time it went. */
  lemma RepeatedLate(steps: seq<Step>, now: int, cfg: Config, bound: nat, x: nat)
    requires After(steps + [Tick(now)], cfg, bound).Some? && After(steps, cfg, bound).Some?
    requires var l, l1 := After(steps, cfg, bound).value, After(steps + [Tick(now)], cfg, bound).value;
      || (|l1.data| > |l.data| && l1.data[|l.data|].stamp == x)
      || (cfg.reps > 0 && l.tx.pending.Some? && l1.tx.pending == None && x == Popped(l) - 1)
    requires x in AirAfter(steps, cfg, bound).last
    ensures now - AirAfter(steps, cfg, bound).last[x] >= cfg.timeout
  {
    hide Ticked, CountOf, AirAfter, Enabled;
    var l, a := After(steps, cfg, bound).value, AirAfter(steps, cfg, bound);
    RunAir(steps, cfg, bound);
    assert (steps + [Tick(now)])[..|steps|] == steps;
    if l.tx.pending.Some? {
      if now - l.tx.pending.value.sentAt < cfg.timeout {
        WaitsForTimer(l, now, cfg);
      } else if l.tx.pending.value.retx < cfg.maxRetries {
        RepeatsAll(l, now, cfg);
      } else {
        GivesUp(l, now, cfg);
      }
    } else if l.tx.queue == [] {
      NothingToDo(l, now, cfg);
    } else {
      StartsNext(l, now, cfg);
    }
  }

  // ---- A message that gets through ----------------------------------------

  lemma Onward(steps: seq<Step>, l: Link, step: Step, cfg: Config, bound: nat) returns (more: seq<Step>)
    requires After(steps, cfg, bound) == Some(l) && Enabled(l, step, cfg, bound)
    ensures After(more, cfg, bound) == Some(Next(l, step, cfg))
  {
    hide Next, Enabled;
    more := steps + [step];
    assert more[..|steps|] == steps;
  }

  /** Everything on the air ahead of the last `n` D_PDUs is lost. */
  lemma {:induction false} LoseAhead(steps: seq<Step>, l: Link, n: nat, cfg: Config, bound: nat)
      returns (more: seq<Step>)
    requires After(steps, cfg, bound) == Some(l) && n <= |l.data|
    ensures After(more, cfg, bound) == Some(l.(data := l.data[|l.data| - n..]))
    decreases |l.data|
  {
    hide After;
    if |l.data| == n {
      more := steps;
      assert l.data[0..] == l.data;
    } else {
      more := Onward(steps, l, LoseData(0), cfg, bound);
      assert l.data[..0] + l.data[1..] == l.data[1..];
      more := LoseAhead(more, l.(data := l.data[1..]), n, cfg, bound);
      assert l.data[1..][|l.data[1..]| - n..] == l.data[|l.data| - n..];
    }
  }

  lemma {:induction false} LoseAcksAhead(steps: seq<Step>, l: Link, n: nat, cfg: Config, bound: nat)
      returns (more: seq<Step>)
    requires After(steps, cfg, bound) == Some(l) && n <= |l.acks|
    ensures After(more, cfg, bound) == Some(l.(acks := l.acks[|l.acks| - n..]))
    decreases |l.acks|
  {
    hide After;
    if |l.acks| == n {
      more := steps;
      assert l.acks[0..] == l.acks;
    } else {
      more := Onward(steps, l, LoseAck(0), cfg, bound);
      assert l.acks[..0] + l.acks[1..] == l.acks[1..];
      more := LoseAcksAhead(more, l.(acks := l.acks[1..]), n, cfg, bound);
      assert l.acks[1..][|l.acks[1..]| - n..] == l.acks[|l.acks| - n..];
    }
  }

  /**
    * From every reachable state with a message pending and retries left, its next transmission can succeed: when its
    * timer has run out, one tick, the arrival of one of its copies, and the arrival of the answer clear the pending
    * slot.
    */
  lemma CanStillSucceed(steps: seq<Step>, cfg: Config, bound: nat) returns (more: seq<Step>)
    requires After(steps, cfg, bound).Some? && bound < 255 && cfg.reps > 0
    requires var l := After(steps, cfg, bound).value;
      l.tx.pending.Some? && l.tx.pending.value.retx < cfg.maxRetries
    ensures After(more, cfg, bound).Some?
    ensures var l, l1 := After(steps, cfg, bound).value, After(more, cfg, bound).value;
      l1.tx == l.tx.(pending := None) && l1.acked == l.acked + [Popped(l) - 1] && Popped(l) - 1 in l1.got
  {
    hide After, Ticked, LinkInv;
    var l := After(steps, cfg, bound).value;
    RunKeepsInv(steps, cfg, bound);
    PendingIs(l, bound);
    var w, x := l.tx.pending.value, Popped(l) - 1;
    var now := w.sentAt + cfg.timeout;
    RepeatsAll(l, now, cfg);
    StillWithin(l, now, cfg, bound);
    more := Onward(steps, l, Tick(now), cfg, bound);
    var l1 := Ticked(l, now, cfg);
    more := LoseAhead(more, l1, 1, cfg, bound);
    var d := InFlight(w.frame, x);
    assert l1.data[|l1.data| - 1..] == [d];
    var l2 := l1.(data := [d]);
    more := Arrival(more, l2, d, cfg, bound);
    RunKeepsInv(more, cfg, bound);
    var l3 := After(more, cfg, bound).value;
    more := LoseAcksAhead(more, l3, 1, cfg, bound);
    var l4 := l3.(acks := [InFlight(Ack(w.frame.id), x)]);
    assert l3.acks[|l3.acks| - 1..] == l4.acks;
    more := Onward(more, l4, ReceiveAck, cfg, bound);
  }

  lemma StillWithin(l: Link, now: int, cfg: Config, bound: nat)
    requires LinkInv(l, bound) && l.tx.pending.Some? && Popped(l) > 0
    requires Ticked(l, now, cfg).tx.pending.Some? && Ticked(l, now, cfg).tx.queue == l.tx.queue
    requires Ticked(l, now, cfg).msgs == l.msgs && Ticked(l, now, cfg).acked == l.acked
    ensures Enabled(l, Tick(now), cfg, bound)
  {
    hide Ticked;
  }

  /** The last copy arrives and is answered. */
  lemma Arrival(steps: seq<Step>, l: Link, d: InFlight, cfg: Config, bound: nat) returns (more: seq<Step>)
    requires After(steps, cfg, bound) == Some(l) && bound < 255 && l.data == [d] && d.frame.Message?
    ensures After(more, cfg, bound).Some?
    ensures var l1 := After(more, cfg, bound).value;
      && l1.tx == l.tx && l1.acked == l.acked && l1.msgs == l.msgs && d.stamp in l1.got
      && l1.acks == l.acks + [InFlight(Ack(d.frame.id), d.stamp)]
  {
    RunKeepsInv(steps, cfg, bound);
    more := Onward(steps, l, ReceiveData, cfg, bound);
    var l1 := Next(l, ReceiveData, cfg);
    FreshId(l, bound);
    HandedIff(l.rx, d.frame);
    if LastGot(l) == d.stamp {
      assert d.stamp in l.got;
    } else {
      assert l1.got == l.got + [d.stamp];
    }
  }
}

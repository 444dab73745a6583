/** How often a call or a break is repeated before the link leaves that state. */
module CasBounds {
  import opened Cas
  import opened CasProof
  import opened Prelude

  /** The control C_PDU that belongs to a state, sent to one remote node. */
  predicate Matches(x: Sent, a: int, st: LinkState) {
    x.destination == a && if st.Calling? then x.cpdu.LinkRequest? else x.cpdu.LinkBreak?
  }

  /** How many such C_PDUs have been sent. */
  function Controls(sent: seq<Sent>, a: int, st: LinkState): nat {
    if sent == [] then 0
    else Controls(sent[..|sent| - 1], a, st) + if Matches(sent[|sent| - 1], a, st) then 1 else 0
  }

  lemma OneMore(s: Cas, c: Cpdu, to: int, a: int, st: LinkState)
    ensures Controls(Send(s, c, to).sent, a, st) ==
      Controls(s.sent, a, st) + if Matches(Sent(c, to), a, st) then 1 else 0
  {
    assert (s.sent + [Sent(c, to)])[..|s.sent|] == s.sent;
  }

  predicate Busy(c: Option<Ctx>) {
    c.Some? && (c.value.state.Calling? || c.value.state.Breaking?)
  }

  /** One remote node's entry and the control C_PDUs sent to it. */
  datatype View = View(entry: Option<Ctx>, requests: nat, breaks: nat)

  function ViewOf(s: Cas, a: int): View {
    View(Lookup(s.links, a), Controls(s.sent, a, Calling), Controls(s.sent, a, Breaking))
  }

  function CountOf(v: View, st: LinkState): nat {
    if st.Calling? then v.requests else v.breaks
  }

  /** Control C_PDUs and expiries since the link with one remote node entered its present state. */
  datatype Hist = Hist(tries: int, expired: nat)

  /** The link enters a state when it was not in it before, or when a call to it succeeds. */
  predicate Enters(before: View, after: View, step: Step, a: int)
    requires after.entry.Some?
  {
    before.entry.None? || before.entry.value.state != after.entry.value.state
    || (step.Call? && step.a == a && after != before)
  }

  function NextHist(h: Hist, before: View, after: View, step: Step, a: int): Hist {
    if !Busy(after.entry) then Hist(0, 0)
    else
      var st := after.entry.value.state;
      var more := CountOf(after, st) - CountOf(before, st);
      if Enters(before, after, step, a) then Hist(more, 0)
      else Hist(h.tries + more, h.expired + if step.TickStep? && step.now >= before.entry.value.deadline then 1 else 0)
  }

  function HistAfter(steps: seq<Step>, cfg: Config, a: int): Hist {
    if steps == [] then Hist(0, 0)
    else
      var n := |steps| - 1;
      NextHist(HistAfter(steps[..n], cfg, a),
               ViewOf(After(steps[..n], cfg), a), ViewOf(After(steps, cfg), a), steps[n], a)
  }

  predicate HistOk(h: Hist, v: View) {
    Busy(v.entry) ==> h.tries == 1 + v.entry.value.retries && h.expired == v.entry.value.retries
  }

  // ---- What each operation does to one link -------------------------------

  /** The link is left alone, dropped, or put into a state without timers. */
  predicate Calm(v: View, w: View) {
    && w.requests == v.requests && w.breaks == v.breaks
    && (Busy(w.entry) ==>
          && v.entry.Some? && w.entry.value.state == v.entry.value.state
          && w.entry.value.retries == v.entry.value.retries)
  }

  /** A call or a break has just begun. */
  predicate Begun(v: View, w: View) {
    && Busy(w.entry) && w.entry.value.retries == 0
    && CountOf(w, w.entry.value.state) == CountOf(v, w.entry.value.state) + 1
  }

  lemma PutView(s: Cas, c: Ctx, a: int)
    ensures ViewOf(s.(links := Put(s.links, c)), a)
         == if a == c.remote then ViewOf(s, a).(entry := Some(c)) else ViewOf(s, a)
  {
    PutLookup(s.links, c, a);
  }

  lemma RemoveView(s: Cas, b: int, a: int)
    requires Distinct(s.links)
    ensures ViewOf(Remove(s, b), a) == if a == b then ViewOf(s, a).(entry := None) else ViewOf(s, a)
  {
    DropLookup(s.links, b, a);
  }

  lemma SendView(s: Cas, c: Cpdu, to: int, a: int)
    ensures var v := ViewOf(s, a);
      ViewOf(Send(s, c, to), a) == v.(requests := v.requests + if to == a && c.LinkRequest? then 1 else 0,
                                      breaks := v.breaks + if to == a && c.LinkBreak? then 1 else 0)
  {
    OneMore(s, c, to, a, Calling);
    OneMore(s, c, to, a, Breaking);
  }

  lemma CallView(s: Cas, b: int, now: int, kind: LinkKind, cfg: Config, a: int)
    requires Distinct(s.links) && MakeLink(s, b, now, kind, cfg).Ok?
    ensures var v, w := ViewOf(s, a), ViewOf(MakeLink(s, b, now, kind, cfg).value, a);
      if a == b then Begun(v, w) else Calm(v, w)
  {
    hide Put, Drop, Lookup;
    var p := PrimaryCtx(s);
    var s1 := if p.Some? && (p.value.state.Idle? || p.value.state.Failed?) then Remove(s, s.primary.value) else s;
    if s1 != s { RemoveView(s, s.primary.value, a); }
    var c := Ensure(s1, b).(state := Calling, kind := kind, called := false, retries := 0,
        deadline := now + cfg.callTimeout);
    PutView(s1, c, a);
    SendView(s1.(links := Put(s1.links, c), primary := Some(b)), LinkRequest(kind), b, a);
  }

  lemma BreakView(s: Cas, now: int, reason: int, target: Option<int>, cfg: Config, a: int)
    requires Distinct(s.links) && BreakLink(s, now, reason, target, cfg).Ok?
    ensures var v, w := ViewOf(s, a), ViewOf(BreakLink(s, now, reason, target, cfg).value, a);
      Calm(v, w) || (Begun(v, w) && v.entry.Some? && v.entry.value.state.Made?)
  {
    hide Controls, Put;
    var b := if target.Some? then target.value else s.primary.value;
    var c := Lookup(s.links, b).value.(state := Breaking, retries := 0, deadline := now + cfg.breakTimeout);
    PutView(s, c, a);
    SendView(s.(links := Put(s.links, c)), LinkBreak(reason), b, a);
  }

  /** One Nonexclusive link starts breaking. */
  lemma BreakOneView(s: Cas, i: nat, now: int, cfg: Config, a: int)
    requires Distinct(s.links) && i < |s.links| && s.links[i].state.Made?
    ensures var c := s.links[i];
      var c1 := c.(state := Breaking, retries := 0, deadline := now + cfg.breakTimeout);
      var s1 := Send(s.(links := s.links[i := c1]), LinkBreak(BREAK_HIGHER_PRIORITY), c.remote);
      && Distinct(s1.links)
      && (if a == c.remote then Begun(ViewOf(s, a), ViewOf(s1, a)) && ViewOf(s, a).entry == Some(c)
          else ViewOf(s1, a) == ViewOf(s, a))
  {
    var c := s.links[i];
    var c1 := c.(state := Breaking, retries := 0, deadline := now + cfg.breakTimeout);
    LookupIs(s.links, c);
    PutAt(s.links, i, c1);
    PutDistinct(s.links, c1);
    PutView(s, c1, a);
    SendView(s.(links := s.links[i := c1]), LinkBreak(BREAK_HIGHER_PRIORITY), c.remote, a);
  }

  lemma BrokenBefore(s: Cas, i: nat, c1: Ctx, a: int)
    requires i < |s.links| && c1.remote == s.links[i].remote
    ensures HasBefore(s.links[i := c1], i + 1, a) <==> HasBefore(s.links, i, a) || a == c1.remote
  {
    var links := s.links[i := c1];
    if HasBefore(s.links, i, a) {
      var j :| 0 <= j < i && j < |s.links| && s.links[j].remote == a;
      assert links[j].remote == a;
    }
    if HasBefore(links, i + 1, a) {
      var j :| 0 <= j < i + 1 && j < |links| && links[j].remote == a;
      assert j < i ==> s.links[j].remote == a;
    }
    assert links[i].remote == c1.remote;
  }

  /** The entry of a remote node is among the first `i`. */
  predicate HasBefore(links: seq<Ctx>, i: nat, a: int) {
    exists j :: 0 <= j < i && j < |links| && links[j].remote == a
  }

  lemma PassedOver(links: seq<Ctx>, i: nat, a: int)
    requires i < |links|
    ensures HasBefore(links, i + 1, a) <==> HasBefore(links, i, a) || a == links[i].remote
  {
    if HasBefore(links, i, a) {
      var j :| 0 <= j < i && j < |links| && links[j].remote == a;
    }
    assert links[i].remote == links[i].remote;
  }

  /** Each link starts breaking at most once. */
  lemma {:induction false} BreakAllView(s: Cas, i: nat, now: int, cfg: Config, a: int)
    requires Distinct(s.links)
    ensures var v, w := ViewOf(s, a), ViewOf(BreakNonexclusive(s, i, now, cfg), a);
      w == v || (Begun(v, w) && v.entry.Some? && v.entry.value.state.Made?)
    ensures Distinct(BreakNonexclusive(s, i, now, cfg).links)
    ensures HasBefore(s.links, i, a) ==>
      ViewOf(BreakNonexclusive(s, i, now, cfg), a) == ViewOf(s, a)
    decreases |s.links| - i
  {
    hide Busy, Matches;
    if i < |s.links| {
      var c := s.links[i];
      if c.kind.Nonexclusive? && c.state.Made? {
        var c1 := c.(state := Breaking, retries := 0, deadline := now + cfg.breakTimeout);
        var s1 := Send(s.(links := s.links[i := c1]), LinkBreak(BREAK_HIGHER_PRIORITY), c.remote);
        BreakOneView(s, i, now, cfg, a);
        BreakAllView(s1, i + 1, now, cfg, a);
        BrokenBefore(s, i, c1, a);
      } else {
        PassedOver(s.links, i, a);
        BreakAllView(s, i + 1, now, cfg, a);
      }
    }
  }

  /** The remote node accepts the call, and an Exclusive link replaces the Nonexclusive ones. */
  lemma AcceptedView(s: Cas, c: Ctx, now: int, cfg: Config, a: int)
    requires Distinct(s.links) && Lookup(s.links, c.remote) == Some(c) && c.state.Calling?
    ensures var v, w := ViewOf(s, a), ViewOf(OnCpdu(s, LinkAccepted, c.remote, now, cfg), a);
      Calm(v, w) || (Begun(v, w) && v.entry.Some? && v.entry.value.state.Made?)
  {
    hide Put, Lookup, Controls;
    var s1 := if c.kind.Exclusive? then BreakNonexclusive(s, 0, now, cfg) else s;
    BreakAllView(s, 0, now, cfg, a);
    PutView(s1, c.(state := Made, madeAt := now, deadline := 0), a);
  }

  lemma ReceiveView(s: Cas, m: Cpdu, from: int, now: int, cfg: Config, a: int)
    requires Distinct(s.links)
    ensures var v, w := ViewOf(s, a), ViewOf(OnCpdu(s, m, from, now, cfg), a);
      Calm(v, w) || (Begun(v, w) && v.entry.Some? && v.entry.value.state.Made?)
  {
    hide Put, Drop;
    var known := Lookup(s.links, from);
    match m
    case Data(_) => if known.Some? { PutView(s, known.value.(lastRx := now), a); }
    case LinkRequest(k) => RequestView(s, from, k, now, cfg, a);
    case LinkAccepted =>
      if known.Some? && known.value.state.Calling? { AcceptedView(s, known.value, now, cfg, a); }
    case LinkRejected(_) => if known.Some? { PutView(s, known.value.(state := Failed, deadline := 0), a); }
    case LinkBreak(_) =>
      SendView(s, LinkBreakConfirm, from, a);
      RemoveView(Send(s, LinkBreakConfirm, from), from, a);
    case LinkBreakConfirm => RemoveView(s, from, a);
  }

  lemma RequestView(s: Cas, from: int, kind: LinkKind, now: int, cfg: Config, a: int)
    requires Distinct(s.links)
    ensures Calm(ViewOf(s, a), ViewOf(OnRequest(s, from, kind, now, cfg), a))
  {
    hide Accept;
    var s1 := OnRequest(s, from, kind, now, cfg);
    if s1.links == s.links && s1.primary == s.primary && s1 != Accept(s, from, kind, now) {
      SendView(s, s1.sent[|s.sent|].cpdu, from, a);
    } else {
      AcceptView(s, from, kind, now, a);
    }
  }

  lemma AcceptView(s: Cas, from: int, kind: LinkKind, now: int, a: int)
    ensures Calm(ViewOf(s, a), ViewOf(Accept(s, from, kind, now), a))
  {
    var s1 := Accept(s, from, kind, now);
    var c := Ensure(s, from).(called := true, kind := kind, state := Made, madeAt := now, lastRx := 0, retries := 0,
        deadline := 0);
    PutView(s, c, a);
    SendView(s1.(sent := s.sent), LinkAccepted, from, a);
  }

  /** The timers of a link in the table: an expiry repeats the control C_PDU once or ends the state. */
  predicate Ticked(v: View, w: View, now: int, cfg: Config)
    requires v.entry.Some?
  {
    var c := v.entry.value;
    if Busy(v.entry) && now >= c.deadline then
      if c.retries < cfg.maxRetries then
        && w.entry.Some? && w.entry.value.state == c.state && w.entry.value.retries == c.retries + 1
        && CountOf(w, c.state) == CountOf(v, c.state) + 1
      else !Busy(w.entry)
    else if Busy(v.entry) then w == v
    else !Busy(w.entry)
  }

  lemma TickCallingView(s: Cas, c: Ctx, now: int, cfg: Config)
    requires Lookup(s.links, c.remote) == Some(c) && c.state.Calling?
    ensures Ticked(ViewOf(s, c.remote), ViewOf(TickLink(s, c, now, cfg), c.remote), now, cfg)
  {
    if now >= c.deadline {
      if c.retries < cfg.maxRetries {
        var c1 := c.(retries := c.retries + 1, deadline := now + cfg.callTimeout);
        PutView(s, c1, c.remote);
        SendView(s.(links := Put(s.links, c1)), LinkRequest(c.kind), c.remote, c.remote);
      } else {
        PutView(s, c.(state := Failed), c.remote);
      }
    }
  }

  lemma TickBreakingView(s: Cas, c: Ctx, now: int, cfg: Config)
    requires Distinct(s.links) && Lookup(s.links, c.remote) == Some(c) && c.state.Breaking?
    ensures Ticked(ViewOf(s, c.remote), ViewOf(TickLink(s, c, now, cfg), c.remote), now, cfg)
  {
    hide Lookup;
    if now >= c.deadline {
      if c.retries < cfg.maxRetries {
        var c1 := c.(retries := c.retries + 1, deadline := now + cfg.breakTimeout);
        PutView(s, c1, c.remote);
        SendView(s.(links := Put(s.links, c1)), LinkBreak(0), c.remote, c.remote);
      } else {
        RemoveView(s, c.remote, c.remote);
      }
    }
  }

  lemma TickOwnView(s: Cas, c: Ctx, now: int, cfg: Config)
    requires Distinct(s.links) && Lookup(s.links, c.remote) == Some(c)
    ensures Ticked(ViewOf(s, c.remote), ViewOf(TickLink(s, c, now, cfg), c.remote), now, cfg)
  {
    if c.state.Calling? {
      TickCallingView(s, c, now, cfg);
    } else if c.state.Breaking? {
      TickBreakingView(s, c, now, cfg);
    } else {
      RemoveView(Send(s, LinkBreak(NO_MORE_DATA), c.remote), c.remote, c.remote);
    }
  }

  lemma TickOtherView(s: Cas, c: Ctx, now: int, cfg: Config, a: int)
    requires Distinct(s.links) && a != c.remote
    ensures ViewOf(TickLink(s, c, now, cfg), a) == ViewOf(s, a) && Distinct(TickLink(s, c, now, cfg).links)
  {
    TickLinkLocal(s, c, now, cfg, a);
    forall x: Ctx, m: Cpdu | x.remote == c.remote
      ensures ViewOf(Send(s.(links := Put(s.links, x)), m, c.remote), a) == ViewOf(s, a)
    {
      PutView(s, x, a);
      SendView(s.(links := Put(s.links, x)), m, c.remote, a);
    }
    SendView(s, LinkBreak(NO_MORE_DATA), c.remote, a);
  }

  lemma TickKeepsDistinct(s: Cas, c: Ctx, now: int, cfg: Config)
    requires Distinct(s.links)
    ensures Distinct(TickLink(s, c, now, cfg).links)
  {
    TickLinkLocal(s, c, now, cfg, c.remote + 1);
  }

  /** A tick handles each link once. */
  lemma {:induction false} TickAllView(s: Cas, todo: seq<Ctx>, now: int, cfg: Config, a: int)
    requires Distinct(s.links) && Pending(s, todo)
    ensures var v, w := ViewOf(s, a), ViewOf(TickAll(s, todo, now, cfg), a);
      if exists c :: c in todo && c.remote == a then Ticked(v, w, now, cfg) else w == v
    decreases |todo|
  {
    if todo != [] {
      var c := todo[0];
      assert c in todo;
      PendingNext(s, todo, now, cfg);
      TickKeepsDistinct(s, c, now, cfg);
      TickAllView(TickLink(s, c, now, cfg), todo[1..], now, cfg, a);
      if c.remote == a {
        TickOwnView(s, c, now, cfg);
        assert forall x :: x in todo[1..] ==> x.remote != a;
      } else {
        TickOtherView(s, c, now, cfg, a);
        assert forall x :: x in todo[1..] ==> x in todo;
        assert forall x :: x in todo && x.remote == a ==> x in todo[1..];
      }
    }
  }

  lemma TickView(s: Cas, now: int, cfg: Config, a: int)
    requires Distinct(s.links)
    ensures var v, w := ViewOf(s, a), ViewOf(Tick(s, now, cfg), a);
      if v.entry.Some? then Ticked(v, w, now, cfg) else w == v
  {
    SnapshotPending(s);
    TickAllView(s, s.links, now, cfg, a);
    if Lookup(s.links, a).Some? {
      assert Lookup(s.links, a).value in s.links;
    } else {
      forall c | c in s.links ensures c.remote != a { LookupIs(s.links, c); }
    }
  }

  // ---- Runs ---------------------------------------------------------------

  lemma CalmHist(h: Hist, v: View, w: View, step: Step, a: int)
    requires HistOk(h, v) && Calm(v, w) && !step.TickStep? && (step.Call? && step.a == a ==> w == v)
    ensures HistOk(NextHist(h, v, w, step, a), w)
  {
  }

  lemma BegunHist(h: Hist, v: View, w: View, step: Step, a: int)
    requires Begun(v, w) && ((v.entry.Some? && v.entry.value.state.Made?) || (step.Call? && step.a == a))
    ensures HistOk(NextHist(h, v, w, step, a), w)
  {
  }

  lemma TickedHist(h: Hist, v: View, w: View, now: int, cfg: Config, a: int)
    requires HistOk(h, v) && if v.entry.Some? then Ticked(v, w, now, cfg) else w == v
    ensures HistOk(NextHist(h, v, w, TickStep(now), a), w)
  {
  }

  lemma StepHist(s: Cas, step: Step, cfg: Config, a: int, h: Hist)
    requires Distinct(s.links) && HistOk(h, ViewOf(s, a))
    ensures HistOk(NextHist(h, ViewOf(s, a), ViewOf(Apply(s, step, cfg), a), step, a), ViewOf(Apply(s, step, cfg), a))
  {
    hide Controls, Put, Drop;
    var v, w := ViewOf(s, a), ViewOf(Apply(s, step, cfg), a);
    match step
    case Call(b, kind, now) =>
      if MakeLink(s, b, now, kind, cfg).Ok? { CallView(s, b, now, kind, cfg, a); }
    case Break(target, reason, now) =>
      if BreakLink(s, now, reason, target, cfg).Ok? { BreakView(s, now, reason, target, cfg, a); }
    case Receive(m, from, now) => ReceiveView(s, m, from, now, cfg, a);
    case TickStep(now) =>
      TickView(s, now, cfg, a);
      TickedHist(h, v, w, now, cfg, a);
    case ResetStep(target) =>
      if target.Some? { RemoveView(s, target.value, a); }
      if s.primary.Some? { RemoveView(s, s.primary.value, a); }
    if !step.TickStep? {
      if Begun(v, w) && !Calm(v, w) { BegunHist(h, v, w, step, a); } else { CalmHist(h, v, w, step, a); }
    }
  }

  lemma {:induction false} RunHist(steps: seq<Step>, cfg: Config, a: int)
    ensures HistOk(HistAfter(steps, cfg, a), ViewOf(After(steps, cfg), a))
    decreases |steps|
  {
    if steps != [] {
      var n := |steps| - 1;
      RunHist(steps[..n], cfg, a);
      RunInv(steps[..n], cfg);
      StepHist(After(steps[..n], cfg), steps[n], cfg, a, HistAfter(steps[..n], cfg, a));
    }
  }

  /**
    * In every run and for every remote node: a call or break has put out at most 1 + `maxRetries` control C_PDUs, and
    * as long as the link is still in that state its timer has expired at most `maxRetries` times, so the next expiry
    * after that many ends the state.
    */
  lemma BoundedRetries(steps: seq<Step>, cfg: Config, a: int)
    requires cfg.maxRetries >= 0
    ensures var h, c := HistAfter(steps, cfg, a), Lookup(After(steps, cfg).links, a);
      Busy(c) ==> 1 <= h.tries <= 1 + cfg.maxRetries && h.expired <= cfg.maxRetries && h.tries == 1 + h.expired
  {
    RunHist(steps, cfg, a);
    RunInv(steps, cfg);
  }

  /** The expiry after `maxRetries` others ends the call or break. */
  lemma LastExpiryEnds(steps: seq<Step>, cfg: Config, a: int, now: int)
    requires cfg.maxRetries >= 0 && Busy(Lookup(After(steps, cfg).links, a))
    requires HistAfter(steps, cfg, a).expired == cfg.maxRetries
    requires now >= Lookup(After(steps, cfg).links, a).value.deadline
    ensures !Busy(Lookup(Tick(After(steps, cfg), now, cfg).links, a))
  {
    RunHist(steps, cfg, a);
    RunInv(steps, cfg);
    TickView(After(steps, cfg), now, cfg, a);
  }
}

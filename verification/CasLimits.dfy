/** The limits on simultaneous links: which steps go beyond them, and how far calls of one's own can go. */
module CasLimits {
  import opened Cas
  import opened CasProof
  import opened Prelude

  // ---- Counting -----------------------------------------------------------

  function One(c: Ctx, k: LinkKind): nat {
    if c.state.Made? && c.kind == k then 1 else 0
  }

  function Old(links: seq<Ctx>, a: int, k: LinkKind): nat {
    if Lookup(links, a).Some? then One(Lookup(links, a).value, k) else 0
  }

  lemma {:induction false} MadePut(links: seq<Ctx>, c: Ctx, k: LinkKind)
    ensures MadeCount(Put(links, c), k) == MadeCount(links, k) + One(c, k) - Old(links, c.remote, k)
    decreases |links|
  {
    if links != [] {
      MadePut(links[1..], c, k);
      assert ([links[0]] + Put(links[1..], c))[1..] == Put(links[1..], c);
      assert ([c] + links[1..])[1..] == links[1..];
    }
  }

  lemma {:induction false} MadeDrop(links: seq<Ctx>, a: int, k: LinkKind)
    ensures MadeCount(Drop(links, a), k) <= MadeCount(links, k)
    decreases |links|
  {
    if links != [] {
      MadeDrop(links[1..], a, k);
      assert ([links[0]] + Drop(links[1..], a))[1..] == Drop(links[1..], a);
    }
  }

  lemma {:induction false} MadeBreak(s: Cas, i: nat, now: int, cfg: Config, k: LinkKind)
    requires Distinct(s.links)
    ensures MadeCount(BreakNonexclusive(s, i, now, cfg).links, k) <= MadeCount(s.links, k)
    ensures k.Exclusive? ==> MadeCount(BreakNonexclusive(s, i, now, cfg).links, k) == MadeCount(s.links, k)
    decreases |s.links| - i
  {
    hide MadeCount;
    if i < |s.links| {
      var c := s.links[i];
      if c.kind.Nonexclusive? && c.state.Made? {
        var c1 := c.(state := Breaking, retries := 0, deadline := now + cfg.breakTimeout);
        PutAt(s.links, i, c1);
        PutDistinct(s.links, c1);
        LookupIs(s.links, c);
        MadePut(s.links, c1, k);
        MadeBreak(Send(s.(links := s.links[i := c1]), LinkBreak(BREAK_HIGHER_PRIORITY), c.remote), i + 1, now, cfg, k);
      } else {
        MadeBreak(s, i + 1, now, cfg, k);
      }
    }
  }

  lemma MadeTickLink(s: Cas, c: Ctx, now: int, cfg: Config, k: LinkKind)
    requires Lookup(s.links, c.remote) == Some(c)
    ensures MadeCount(TickLink(s, c, now, cfg).links, k) <= MadeCount(s.links, k)
  {
    hide Put, Drop, MadeCount, Lookup;
    MadeDrop(s.links, c.remote, k);
    MadePut(s.links, c.(retries := c.retries + 1, deadline := now + cfg.callTimeout), k);
    MadePut(s.links, c.(retries := c.retries + 1, deadline := now + cfg.breakTimeout), k);
    MadePut(s.links, c.(state := Failed), k);
  }

  lemma {:induction false} MadeTickAll(s: Cas, todo: seq<Ctx>, now: int, cfg: Config, k: LinkKind)
    requires Inv(s, cfg) && Pending(s, todo)
    ensures MadeCount(TickAll(s, todo, now, cfg).links, k) <= MadeCount(s.links, k)
    decreases |todo|
  {
    if todo != [] {
      assert todo[0] in todo;
      MadeTickLink(s, todo[0], now, cfg, k);
      TickLinkInv(s, todo[0], now, cfg);
      PendingNext(s, todo, now, cfg);
      MadeTickAll(TickLink(s, todo[0], now, cfg), todo[1..], now, cfg, k);
    }
  }

  // ---- The step beyond a limit --------------------------------------------

  function LimitOf(k: LinkKind, cfg: Config): nat {
    if k.Exclusive? then 2 else Limit(cfg.maxNonexclusive)
  }

  /** The remote node accepts a call of this kind while as many links of the kind are made as may be. */
  predicate Oversteps(s: Cas, step: Step, k: LinkKind, cfg: Config) {
    && step.Receive? && step.m.LinkAccepted?
    && var called := Lookup(s.links, step.from);
       called.Some? && called.value.state.Calling? && called.value.kind == k && MadeCount(s.links, k) >= LimitOf(k, cfg)
  }

  lemma MadeCall(s: Cas, a: int, kind: LinkKind, now: int, cfg: Config, k: LinkKind)
    requires MakeLink(s, a, now, kind, cfg).Ok?
    ensures MadeCount(MakeLink(s, a, now, kind, cfg).value.links, k) <= MadeCount(s.links, k)
  {
    var p := PrimaryCtx(s);
    var s1 := if p.Some? && (p.value.state.Idle? || p.value.state.Failed?) then Remove(s, s.primary.value) else s;
    if s.primary.Some? { MadeDrop(s.links, s.primary.value, k); }
    MadePut(s1.links, Ensure(s1, a).(state := Calling, kind := kind, called := false, retries := 0,
                                     deadline := now + cfg.callTimeout), k);
  }

  /** A request from a remote node is never accepted beyond the limit. */
  lemma MadeRequest(s: Cas, from: int, kind: LinkKind, now: int, cfg: Config, k: LinkKind)
    requires MadeCount(s.links, k) <= LimitOf(k, cfg)
    ensures MadeCount(OnRequest(s, from, kind, now, cfg).links, k) <= LimitOf(k, cfg)
  {
    MadePut(s.links, Ensure(s, from).(called := true, kind := kind, state := Made, madeAt := now, lastRx := 0,
                                      retries := 0, deadline := 0), k);
  }

  /** The C_PDUs other than a request. */
  lemma MadeReceive(s: Cas, m: Cpdu, from: int, now: int, cfg: Config, k: LinkKind)
    requires Inv(s, cfg) && !m.LinkRequest?
    ensures MadeCount(OnCpdu(s, m, from, now, cfg).links, k) <= MadeCount(s.links, k)
         || (MadeCount(OnCpdu(s, m, from, now, cfg).links, k) == MadeCount(s.links, k) + 1
             && m.LinkAccepted? && Lookup(s.links, from).Some? && Lookup(s.links, from).value.state.Calling?
             && Lookup(s.links, from).value.kind == k)
    ensures m.LinkAccepted? && Lookup(s.links, from).Some? && Lookup(s.links, from).value.state.Calling?
            && Lookup(s.links, from).value.kind == k
            ==> MadeCount(OnCpdu(s, m, from, now, cfg).links, k) == MadeCount(s.links, k) + 1
  {
    MadeDrop(s.links, from, k);
    var known := Lookup(s.links, from);
    if known.Some? {
      MadePut(s.links, known.value.(lastRx := now), k);
      MadePut(s.links, known.value.(state := Failed, deadline := 0), k);
      if m.LinkAccepted? && known.value.state.Calling? { MadeAccepted(s, from, now, cfg, k); }
    }
  }

  lemma MadeAccepted(s: Cas, from: int, now: int, cfg: Config, k: LinkKind)
    requires Distinct(s.links) && Lookup(s.links, from).Some? && Lookup(s.links, from).value.state.Calling?
    ensures var m := MadeCount(OnCpdu(s, LinkAccepted, from, now, cfg).links, k);
      && m <= MadeCount(s.links, k) + One(Lookup(s.links, from).value.(state := Made), k)
      && (Lookup(s.links, from).value.kind == k ==> m == MadeCount(s.links, k) + 1)
  {
    var c := Lookup(s.links, from).value;
    var s1 := if c.kind.Exclusive? then BreakNonexclusive(s, 0, now, cfg) else s;
    if c.kind.Exclusive? {
      MadeBreak(s, 0, now, cfg, k);
      BreakKeeps(s, 0, now, cfg, from);
    }
    MadePut(s1.links, c.(state := Made, madeAt := now, deadline := 0), k);
  }

  /**
    * From a state within the limit of a kind of links, a step goes beyond it if and only if it is the acceptance of a
    * call of that kind that this node made although the limit was reached.
    */
  lemma BeyondIff(s: Cas, step: Step, k: LinkKind, cfg: Config)
    requires Inv(s, cfg) && MadeCount(s.links, k) <= LimitOf(k, cfg)
    ensures MadeCount(Apply(s, step, cfg).links, k) > LimitOf(k, cfg) <==> Oversteps(s, step, k, cfg)
  {
    match step
    case Call(a, kind, now) => if MakeLink(s, a, now, kind, cfg).Ok? { MadeCall(s, a, kind, now, cfg, k); }
    case Break(target, reason, now) =>
      if BreakLink(s, now, reason, target, cfg).Ok? {
        var c := Lookup(s.links, if target.Some? then target.value else s.primary.value).value;
        MadePut(s.links, c.(state := Breaking, retries := 0, deadline := now + cfg.breakTimeout), k);
      }
    case Receive(m, from, now) =>
      if m.LinkRequest? { MadeRequest(s, from, m.kind, now, cfg, k); } else { MadeReceive(s, m, from, now, cfg, k); }
    case TickStep(now) =>
      SnapshotPending(s);
      MadeTickAll(s, s.links, now, cfg, k);
    case ResetStep(target) =>
      if target.Some? { MadeDrop(s.links, target.value, k); }
      if s.primary.Some? { MadeDrop(s.links, s.primary.value, k); }
  }

  // ---- Runs ---------------------------------------------------------------

  /** The state after the first `n` steps is within the limit. */
  predicate WithinAt(steps: seq<Step>, n: nat, k: LinkKind, cfg: Config)
    requires n <= |steps|
  {
    MadeCount(After(steps[..n], cfg).links, k) <= LimitOf(k, cfg)
  }

  predicate OverstepsAt(steps: seq<Step>, n: nat, k: LinkKind, cfg: Config)
    requires n < |steps|
  {
    Oversteps(After(steps[..n], cfg), steps[n], k, cfg)
  }

  ghost predicate AlwaysWithin(steps: seq<Step>, k: LinkKind, cfg: Config) {
    forall n :: 0 <= n <= |steps| ==> WithinAt(steps, n, k, cfg)
  }

  ghost predicate NeverOversteps(steps: seq<Step>, k: LinkKind, cfg: Config) {
    forall n :: 0 <= n < |steps| ==> !OverstepsAt(steps, n, k, cfg)
  }

  lemma PrefixAt(steps: seq<Step>, n: nat, i: nat, k: LinkKind, cfg: Config)
    requires i <= n <= |steps|
    ensures WithinAt(steps[..n], i, k, cfg) <==> WithinAt(steps, i, k, cfg)
    ensures i < n ==> (OverstepsAt(steps[..n], i, k, cfg) <==> OverstepsAt(steps, i, k, cfg))
  {
    assert steps[..n][..i] == steps[..i];
  }

  lemma WithinSnoc(steps: seq<Step>, n: nat, k: LinkKind, cfg: Config)
    requires |steps| == n + 1
    ensures AlwaysWithin(steps, k, cfg) <==> AlwaysWithin(steps[..n], k, cfg) && WithinAt(steps, n + 1, k, cfg)
    ensures NeverOversteps(steps, k, cfg) <==> NeverOversteps(steps[..n], k, cfg) && !OverstepsAt(steps, n, k, cfg)
  {
    hide WithinAt, OverstepsAt;
    forall i | 0 <= i <= n
      ensures WithinAt(steps[..n], i, k, cfg) <==> WithinAt(steps, i, k, cfg)
      ensures i < n ==> (OverstepsAt(steps[..n], i, k, cfg) <==> OverstepsAt(steps, i, k, cfg))
    {
      PrefixAt(steps, n, i, k, cfg);
    }
  }

  /** A run stays within the limit of a kind throughout if and only if none of its steps is such an acceptance. */
  lemma {:induction false} WithinIff(steps: seq<Step>, k: LinkKind, cfg: Config)
    ensures AlwaysWithin(steps, k, cfg) <==> NeverOversteps(steps, k, cfg)
    decreases |steps|
  {
    hide Apply, Oversteps, LimitOf, Inv;
    if steps == [] {
      assert WithinAt(steps, 0, k, cfg);
    } else {
      var n := |steps| - 1;
      WithinIff(steps[..n], k, cfg);
      WithinSnoc(steps, n, k, cfg);
      RunInv(steps[..n], cfg);
      assert steps[..n + 1] == steps;
      if AlwaysWithin(steps[..n], k, cfg) {
        assert WithinAt(steps[..n], n, k, cfg) && steps[..n][..n] == steps[..n];
        BeyondIff(After(steps[..n], cfg), steps[n], k, cfg);
      }
    }
  }

  /** Calls to the nodes 1 to `n`, one after another, each accepted at once. */
  function OwnCalls(n: nat, kind: LinkKind): seq<Step> {
    if n == 0 then [] else OwnCalls(n - 1, kind) + [Call(n, kind, 0)] + [Receive(LinkAccepted, n, 0)]
  }

  function OwnLinks(n: nat, kind: LinkKind): seq<Ctx> {
    if n == 0 then [] else OwnLinks(n - 1, kind) + [Ctx(n, Made, kind, false, 0, 0, 0, 0)]
  }

  /** Nothing bounds the links of one kind that a node opens itself: `n` accepted calls leave `n` links made. */
  lemma {:induction false} CallingExceeds(n: nat, kind: LinkKind, cfg: Config)
    ensures MadeCount(After(OwnCalls(n, kind), cfg).links, kind) == n
    ensures After(OwnCalls(n, kind), cfg).links == OwnLinks(n, kind)
    ensures After(OwnCalls(n, kind), cfg).primary == if n == 0 then None else Some(n)
    decreases n
  {
    if n > 0 {
      CallingExceeds(n - 1, kind, cfg);
      var run := OwnCalls(n - 1, kind);
      AfterSnoc(run, Call(n, kind, 0), cfg);
      AfterSnoc(run + [Call(n, kind, 0)], Receive(LinkAccepted, n, 0), cfg);
      OneMore(After(run, cfg), n, kind, cfg);
    }
  }

  lemma {:induction false} OwnFacts(n: nat, kind: LinkKind)
    ensures |OwnLinks(n, kind)| == n
    ensures forall i :: 0 <= i < n ==> OwnLinks(n, kind)[i] == Ctx(i + 1, Made, kind, false, 0, 0, 0, 0)
    decreases n
  {
    if n > 0 { OwnFacts(n - 1, kind); }
  }

  lemma OneMore(s: Cas, n: nat, kind: LinkKind, cfg: Config)
    requires n > 0 && s.links == OwnLinks(n - 1, kind)
    requires s.primary == if n == 1 then None else Some(n - 1)
    ensures var s2 := Apply(Apply(s, Call(n, kind, 0), cfg), Receive(LinkAccepted, n, 0), cfg);
      && s2.links == OwnLinks(n, kind) && s2.primary == Some(n)
      && MadeCount(s2.links, kind) == MadeCount(s.links, kind) + 1
  {
    hide *;
    OwnFacts(n - 1, kind);
    OwnNext(n, kind);
    var c := Ctx(n, Calling, kind, false, 0, 0, cfg.callTimeout, 0);
    var d := c.(state := Made, deadline := 0);
    OwnCall(s, n, kind, cfg);
    OwnAccepted(Apply(s, Call(n, kind, 0), cfg), s.links, c, cfg);
    LookupNone(s.links, n);
    PutEnd(s.links, d);
    MadePut(s.links, d, kind);
    Counts(s.links, d, kind);
  }

  lemma OwnNext(n: nat, kind: LinkKind)
    requires n > 0
    ensures OwnLinks(n, kind) == OwnLinks(n - 1, kind) + [Ctx(n, Made, kind, false, 0, 0, 0, 0)]
  {
  }

  lemma Counts(links: seq<Ctx>, d: Ctx, kind: LinkKind)
    requires Lookup(links, d.remote) == None && d.state.Made? && d.kind == kind
    ensures One(d, kind) == 1 && Old(links, d.remote, kind) == 0
  {
  }

  lemma OwnCall(s: Cas, n: nat, kind: LinkKind, cfg: Config)
    requires n > 0 && |s.links| == n - 1
    requires forall i :: 0 <= i < n - 1 ==> s.links[i] == Ctx(i + 1, Made, kind, false, 0, 0, 0, 0)
    requires s.primary == if n == 1 then None else Some(n - 1)
    ensures var s1 := Apply(s, Call(n, kind, 0), cfg);
      && s1.links == s.links + [Ctx(n, Calling, kind, false, 0, 0, cfg.callTimeout, 0)] && s1.primary == Some(n)
      && Distinct(s1.links)
  {
    hide Lookup, Put;
    LookupNone(s.links, n);
    if n > 1 { LookupIs(s.links, s.links[n - 2]); }
    PutEnd(s.links, Ctx(n, Calling, kind, false, 0, 0, cfg.callTimeout, 0));
  }

  lemma OwnAccepted(s: Cas, before: seq<Ctx>, c: Ctx, cfg: Config)
    requires s.links == before + [c] && Distinct(s.links) && c.state.Calling?
    requires forall x :: x in s.links ==> x.kind == c.kind
    ensures var s1 := Apply(s, Receive(LinkAccepted, c.remote, 0), cfg);
      s1.links == before + [c.(state := Made, madeAt := 0, deadline := 0)] && s1.primary == s.primary
  {
    hide Lookup, Put, Distinct;
    assert c in s.links;
    LookupIs(s.links, c);
    if c.kind.Exclusive? { Unbroken(s, 0, cfg); }
    PutAt(s.links, |before|, c.(state := Made, madeAt := 0, deadline := 0));
  }

  lemma {:induction false} PutEnd(links: seq<Ctx>, c: Ctx)
    requires forall i :: 0 <= i < |links| ==> links[i].remote != c.remote
    ensures Put(links, c) == links + [c]
    decreases |links|
  {
    if links != [] { PutEnd(links[1..], c); }
  }

  lemma {:induction false} Unbroken(s: Cas, i: nat, cfg: Config)
    requires forall c :: c in s.links ==> c.kind.Exclusive?
    ensures BreakNonexclusive(s, i, 0, cfg) == s
    decreases |s.links| - i
  {
    if i < |s.links| { Unbroken(s, i + 1, cfg); }
  }
}

/** What every run of the channel access state machine keeps. */
module CasProof {
  import opened Cas
  import opened Prelude

  // ---- The link table -----------------------------------------------------

  predicate Distinct(links: seq<Ctx>) {
    forall i, j :: 0 <= i < j < |links| ==> links[i].remote != links[j].remote
  }

  lemma {:induction false} LookupIs(links: seq<Ctx>, c: Ctx)
    requires Distinct(links) && c in links
    ensures Lookup(links, c.remote) == Some(c)
    decreases |links|
  {
    if links[0] != c {
      assert c in links[1..];
      LookupIs(links[1..], c);
    }
  }

  lemma {:induction false} PutMember(links: seq<Ctx>, c: Ctx, x: Ctx)
    requires Distinct(links)
    ensures x in Put(links, c) <==> x == c || (x in links && x.remote != c.remote)
    decreases |links|
  {
    if links != [] {
      var h, rest := links[0], links[1..];
      assert x in links <==> x == h || x in rest;
      PutMember(rest, c, x);
      if h.remote == c.remote {
        assert x in [c] + rest <==> x == c || x in rest;
      } else {
        assert x in [h] + Put(rest, c) <==> x == h || x in Put(rest, c);
      }
    }
  }

  lemma {:induction false} PutDistinct(links: seq<Ctx>, c: Ctx)
    requires Distinct(links)
    ensures Distinct(Put(links, c))
    decreases |links|
  {
    if links != [] && links[0].remote != c.remote {
      var p := Put(links[1..], c);
      PutDistinct(links[1..], c);
      forall i | 0 <= i < |p| ensures p[i].remote != links[0].remote {
        PutMember(links[1..], c, p[i]);
        assert p[i] in p;
      }
    }
  }

  lemma {:induction false} PutLookup(links: seq<Ctx>, c: Ctx, a: int)
    ensures Lookup(Put(links, c), a) == if a == c.remote then Some(c) else Lookup(links, a)
    decreases |links|
  {
    if links != [] {
      PutLookup(links[1..], c, a);
      assert ([links[0]] + Put(links[1..], c))[1..] == Put(links[1..], c);
      assert ([c] + links[1..])[1..] == links[1..];
    }
  }

  lemma PutFacts(links: seq<Ctx>, c: Ctx)
    requires Distinct(links)
    ensures Distinct(Put(links, c))
    ensures forall x :: x in Put(links, c) <==> x == c || (x in links && x.remote != c.remote)
  {
    PutDistinct(links, c);
    forall x { PutMember(links, c, x); }
  }

  lemma {:induction false} DropMember(links: seq<Ctx>, a: int, x: Ctx)
    requires Distinct(links)
    ensures x in Drop(links, a) <==> x in links && x.remote != a
    decreases |links|
  {
    if links != [] {
      var h, rest := links[0], links[1..];
      assert x in links <==> x == h || x in rest;
      DropMember(rest, a, x);
      assert x in [h] + Drop(rest, a) <==> x == h || x in Drop(rest, a);
    }
  }

  lemma {:induction false} DropLookup(links: seq<Ctx>, a: int, b: int)
    requires Distinct(links)
    ensures Lookup(Drop(links, a), b) == if b == a then None else Lookup(links, b)
    decreases |links|
  {
    if links != [] {
      DropLookup(links[1..], a, b);
      assert ([links[0]] + Drop(links[1..], a))[1..] == Drop(links[1..], a);
      if links[0].remote == a { LookupNone(links[1..], a); }
    }
  }

  lemma {:induction false} DropDistinct(links: seq<Ctx>, a: int)
    requires Distinct(links)
    ensures Distinct(Drop(links, a))
    decreases |links|
  {
    if links != [] && links[0].remote != a {
      var d := Drop(links[1..], a);
      DropDistinct(links[1..], a);
      forall i | 0 <= i < |d| ensures d[i].remote != links[0].remote {
        DropMember(links[1..], a, d[i]);
        assert d[i] in d;
      }
    }
  }

  lemma DropFacts(links: seq<Ctx>, a: int)
    requires Distinct(links)
    ensures Distinct(Drop(links, a))
    ensures forall x :: x in Drop(links, a) <==> x in links && x.remote != a
  {
    DropDistinct(links, a);
    forall x { DropMember(links, a, x); }
  }

  lemma {:induction false} LookupNone(links: seq<Ctx>, a: int)
    requires forall i :: 0 <= i < |links| ==> links[i].remote != a
    ensures Lookup(links, a) == None
    decreases |links|
  {
    if links != [] { LookupNone(links[1..], a); }
  }

  // ---- Counting -----------------------------------------------------------

  /** Links of one kind that are made and were opened by the remote node. */
  function CalledCount(links: seq<Ctx>, k: LinkKind): nat {
    if links == [] then 0 else Weight(links[0], k) + CalledCount(links[1..], k)
  }

  function Weight(c: Ctx, k: LinkKind): nat {
    if c.state.Made? && c.called && c.kind == k then 1 else 0
  }

  lemma {:induction false} CalledIsMade(links: seq<Ctx>, k: LinkKind)
    ensures CalledCount(links, k) <= MadeCount(links, k)
    ensures (forall c :: c in links && c.state.Made? ==> c.called) ==> CalledCount(links, k) == MadeCount(links, k)
    decreases |links|
  {
    if links != [] {
      CalledIsMade(links[1..], k);
      assert links[0] in links;
    }
  }

  lemma {:induction false} CountPut(links: seq<Ctx>, c: Ctx, k: LinkKind)
    ensures CalledCount(Put(links, c), k) ==
      CalledCount(links, k) + Weight(c, k)
      - (if Lookup(links, c.remote).Some? then Weight(Lookup(links, c.remote).value, k) else 0)
    decreases |links|
  {
    if links != [] {
      CountPut(links[1..], c, k);
      assert ([links[0]] + Put(links[1..], c))[1..] == Put(links[1..], c);
      assert ([c] + links[1..])[1..] == links[1..];
    }
  }

  lemma {:induction false} CountDrop(links: seq<Ctx>, a: int, k: LinkKind)
    ensures CalledCount(Drop(links, a), k) <= CalledCount(links, k)
    decreases |links|
  {
    if links != [] {
      CountDrop(links[1..], a, k);
      assert ([links[0]] + Drop(links[1..], a))[1..] == Drop(links[1..], a);
    }
  }

  // ---- Invariant ----------------------------------------------------------

  function Limit(n: int): nat { if n < 0 then 0 else n }

  /** A link being called is the primary one, and was opened from this side; retries stay within their limit. */
  predicate CtxOk(c: Ctx, primary: Option<int>, cfg: Config) {
    && (c.state.Calling? ==> primary == Some(c.remote) && !c.called)
    && (c.state.Calling? || c.state.Breaking? ==> 0 <= c.retries <= Limit(cfg.maxRetries))
  }

  /** Of the links opened by remote nodes, at most two are Exclusive, and no more than configured Nonexclusive. */
  predicate Capacity(links: seq<Ctx>, cfg: Config) {
    CalledCount(links, Exclusive) <= 2 && CalledCount(links, Nonexclusive) <= Limit(cfg.maxNonexclusive)
  }

  ghost predicate Inv(s: Cas, cfg: Config) {
    && Distinct(s.links) && Capacity(s.links, cfg)
    && forall c :: c in s.links ==> CtxOk(c, s.primary, cfg)
  }

  /** Replacing an entry by one that is fine and that does not take up capacity. */
  lemma PutInv(s: Cas, c: Ctx, cfg: Config)
    requires Inv(s, cfg) && CtxOk(c, s.primary, cfg)
    requires forall k ::
      Weight(c, k) <= if Lookup(s.links, c.remote).Some? then Weight(Lookup(s.links, c.remote).value, k) else 0
    ensures Inv(s.(links := Put(s.links, c)), cfg)
  {
    PutFacts(s.links, c);
    CountPut(s.links, c, Exclusive);
    CountPut(s.links, c, Nonexclusive);
  }

  lemma RemoveInv(s: Cas, a: int, cfg: Config)
    requires Inv(s, cfg)
    ensures Inv(Remove(s, a), cfg)
  {
    DropFacts(s.links, a);
    CountDrop(s.links, a, Exclusive);
    CountDrop(s.links, a, Nonexclusive);
  }

  lemma MakeLinkInv(s: Cas, a: int, now: int, kind: LinkKind, cfg: Config)
    requires Inv(s, cfg) && MakeLink(s, a, now, kind, cfg).Ok?
    ensures Inv(MakeLink(s, a, now, kind, cfg).value, cfg)
  {
    hide Lookup, Put, Drop;
    var p := PrimaryCtx(s);
    var s1 := if p.Some? && (p.value.state.Idle? || p.value.state.Failed?) then Remove(s, s.primary.value) else s;
    if s.primary.Some? { RemoveInv(s, s.primary.value, cfg); }
    NoneCalling(s, cfg);
    assert forall c :: c in s1.links ==> c in s.links || s1 == s by {
      if s1 != s { DropFacts(s.links, s.primary.value); }
    }
    var c := Ensure(s1, a).(state := Calling, kind := kind, called := false, retries := 0,
        deadline := now + cfg.callTimeout);
    var s2 := s1.(primary := Some(a));
    assert Inv(s2, cfg);
    PutInv(s2, c, cfg);
  }

  /** When the primary link is not being called, none is. */
  lemma NoneCalling(s: Cas, cfg: Config)
    requires Inv(s, cfg)
    requires PrimaryCtx(s).Some? ==> !PrimaryCtx(s).value.state.Calling?
    ensures forall c :: c in s.links ==> !c.state.Calling?
  {
    forall c | c in s.links ensures !c.state.Calling? {
      assert CtxOk(c, s.primary, cfg);
      LookupIs(s.links, c);
    }
  }

  lemma OnRequestInv(s: Cas, from: int, kind: LinkKind, now: int, cfg: Config)
    requires Inv(s, cfg)
    ensures Inv(OnRequest(s, from, kind, now, cfg), cfg)
  {
    var s1 := OnRequest(s, from, kind, now, cfg);
    CalledIsMade(s.links, kind);
    if s1.links != s.links || s1.primary != s.primary {
      AcceptInv(s, from, kind, now, cfg);
    }
  }

  lemma AcceptInv(s: Cas, from: int, kind: LinkKind, now: int, cfg: Config)
    requires Inv(s, cfg) && (Lookup(s.links, from).Some? ==> !Lookup(s.links, from).value.state.Made?)
    requires CalledCount(s.links, kind) < if kind.Exclusive? then 2 else Limit(cfg.maxNonexclusive)
    ensures Inv(Accept(s, from, kind, now), cfg)
  {
    var s1 := Accept(s, from, kind, now);
    var c := Ensure(s, from).(called := true, kind := kind, state := Made, madeAt := now, lastRx := 0, retries := 0,
        deadline := 0);
    PutFacts(s.links, c);
    CountPut(s.links, c, Exclusive);
    CountPut(s.links, c, Nonexclusive);
    forall x | x in Put(s.links, c) ensures CtxOk(x, s1.primary, cfg) {
      if x.state.Calling? {
        assert CtxOk(x, s.primary, cfg);
        LookupIs(Put(s.links, c), x);
      }
    }
  }

  lemma {:induction false} BreakNonexclusiveInv(s: Cas, i: nat, now: int, cfg: Config)
    requires Inv(s, cfg)
    ensures Inv(BreakNonexclusive(s, i, now, cfg), cfg)
    decreases |s.links| - i
  {
    if i < |s.links| {
      var c := s.links[i];
      if c.kind.Nonexclusive? && c.state.Made? {
        var c1 := c.(state := Breaking, retries := 0, deadline := now + cfg.breakTimeout);
        PutAt(s.links, i, c1);
        LookupIs(s.links, c);
        PutInv(s, c1, cfg);
        BreakNonexclusiveInv(Send(s.(links := s.links[i := c1]), LinkBreak(BREAK_HIGHER_PRIORITY), c.remote),
                             i + 1, now, cfg);
      } else {
        BreakNonexclusiveInv(s, i + 1, now, cfg);
      }
    }
  }

  /** Writing an entry over the one of the same remote node. */
  lemma {:induction false} PutAt(links: seq<Ctx>, i: nat, c: Ctx)
    requires Distinct(links) && i < |links| && links[i].remote == c.remote
    ensures links[i := c] == Put(links, c)
    decreases i
  {
    if i > 0 { PutAt(links[1..], i - 1, c); }
  }

  /** Breaking the Nonexclusive links leaves the others as they are. */
  lemma {:induction false} BreakKeeps(s: Cas, i: nat, now: int, cfg: Config, a: int)
    requires Distinct(s.links) && Lookup(s.links, a).Some? && Lookup(s.links, a).value.kind.Exclusive?
    ensures Lookup(BreakNonexclusive(s, i, now, cfg).links, a) == Lookup(s.links, a)
    decreases |s.links| - i
  {
    hide Lookup;
    if i < |s.links| {
      var c := s.links[i];
      if c.kind.Nonexclusive? && c.state.Made? {
        var c1 := c.(state := Breaking, retries := 0, deadline := now + cfg.breakTimeout);
        BreakOneKeeps(s, i, c1, a);
        BreakKeeps(Send(s.(links := s.links[i := c1]), LinkBreak(BREAK_HIGHER_PRIORITY), c.remote), i + 1, now, cfg, a);
      } else {
        BreakKeeps(s, i + 1, now, cfg, a);
      }
    }
  }

  lemma BreakOneKeeps(s: Cas, i: nat, c1: Ctx, a: int)
    requires Distinct(s.links) && i < |s.links| && c1.remote == s.links[i].remote && s.links[i].kind.Nonexclusive?
    requires Lookup(s.links, a).Some? && Lookup(s.links, a).value.kind.Exclusive?
    ensures Distinct(s.links[i := c1]) && Lookup(s.links[i := c1], a) == Lookup(s.links, a)
  {
    PutAt(s.links, i, c1);
    PutDistinct(s.links, c1);
    PutLookup(s.links, c1, a);
    LookupIs(s.links, s.links[i]);
  }

  lemma OnCpduInv(s: Cas, m: Cpdu, from: int, now: int, cfg: Config)
    requires Inv(s, cfg)
    ensures Inv(OnCpdu(s, m, from, now, cfg), cfg)
  {
    var known := Lookup(s.links, from);
    match m
    case LinkRequest(k) => OnRequestInv(s, from, k, now, cfg);
    case Data(_) =>
      if known.Some? {
        assert CtxOk(known.value, s.primary, cfg);
        PutInv(s, known.value.(lastRx := now), cfg);
      }
    case LinkAccepted =>
      if known.Some? && known.value.state.Calling? {
        assert CtxOk(known.value, s.primary, cfg);
        var s1 := if known.value.kind.Exclusive? then BreakNonexclusive(s, 0, now, cfg) else s;
        if known.value.kind.Exclusive? {
          BreakNonexclusiveInv(s, 0, now, cfg);
          BreakKeeps(s, 0, now, cfg, from);
        }
        PutInv(s1, known.value.(state := Made, madeAt := now, deadline := 0), cfg);
      }
    case LinkRejected(_) =>
      if known.Some? && known.value.state.Calling? {
        PutInv(s, known.value.(state := Failed, deadline := 0), cfg);
      }
    case LinkBreak(_) => RemoveInv(Send(s, LinkBreakConfirm, from), from, cfg);
    case LinkBreakConfirm => RemoveInv(s, from, cfg);
  }

  lemma TickLinkInv(s: Cas, c: Ctx, now: int, cfg: Config)
    requires Inv(s, cfg) && c in s.links
    ensures Inv(TickLink(s, c, now, cfg), cfg)
  {
    hide Put;
    LookupIs(s.links, c);
    assert CtxOk(c, s.primary, cfg);
    RemoveInv(s, c.remote, cfg);
    if c.state.Calling? && now >= c.deadline {
      PutInv(s, c.(retries := if c.retries < cfg.maxRetries then c.retries + 1 else c.retries,
                   deadline := now + cfg.callTimeout), cfg);
      PutInv(s, c.(state := Failed), cfg);
    } else if c.state.Breaking? && now >= c.deadline && c.retries < cfg.maxRetries {
      PutInv(s, c.(retries := c.retries + 1, deadline := now + cfg.breakTimeout), cfg);
    }
  }

  /** Ticking one link leaves the entries of the others alone. */
  lemma TickLinkLocal(s: Cas, c: Ctx, now: int, cfg: Config, a: int)
    requires Distinct(s.links) && a != c.remote
    ensures Distinct(TickLink(s, c, now, cfg).links)
    ensures Lookup(TickLink(s, c, now, cfg).links, a) == Lookup(s.links, a)
  {
    hide Lookup;
    var s1 := TickLink(s, c, now, cfg);
    DropDistinct(s.links, c.remote);
    DropLookup(s.links, c.remote, a);
    forall x: Ctx | x.remote == c.remote
      ensures Distinct(Put(s.links, x)) && Lookup(Put(s.links, x), a) == Lookup(s.links, a)
    {
      PutDistinct(s.links, x);
      PutLookup(s.links, x, a);
    }
  }

  /** The links still to be ticked stand unchanged in the table. */
  ghost predicate Pending(s: Cas, todo: seq<Ctx>) {
    Distinct(todo) && forall c :: c in todo ==> Lookup(s.links, c.remote) == Some(c)
  }

  lemma PendingNext(s: Cas, todo: seq<Ctx>, now: int, cfg: Config)
    requires Distinct(s.links) && Pending(s, todo) && todo != []
    ensures Pending(TickLink(s, todo[0], now, cfg), todo[1..])
  {
    forall c | c in todo[1..] ensures Lookup(TickLink(s, todo[0], now, cfg).links, c.remote) == Some(c) {
      TickLinkLocal(s, todo[0], now, cfg, c.remote);
    }
  }

  lemma {:induction false} TickAllInv(s: Cas, todo: seq<Ctx>, now: int, cfg: Config)
    requires Inv(s, cfg) && Pending(s, todo)
    ensures Inv(TickAll(s, todo, now, cfg), cfg)
    decreases |todo|
  {
    if todo != [] {
      assert todo[0] in todo;
      TickLinkInv(s, todo[0], now, cfg);
      PendingNext(s, todo, now, cfg);
      TickAllInv(TickLink(s, todo[0], now, cfg), todo[1..], now, cfg);
    }
  }

  lemma SnapshotPending(s: Cas)
    requires Distinct(s.links)
    ensures Pending(s, s.links)
  {
    forall c | c in s.links ensures Lookup(s.links, c.remote) == Some(c) {
      LookupIs(s.links, c);
    }
  }

  // ---- Runs ---------------------------------------------------------------

  datatype Step =
    | Call(a: int, kind: LinkKind, now: int)
    | Break(target: Option<int>, reason: int, now: int)
    | Receive(m: Cpdu, from: int, now: int)
    | TickStep(now: int)
    | ResetStep(target: Option<int>)

  /** A refused call or break changes nothing. */
  function Apply(s: Cas, step: Step, cfg: Config): Cas {
    match step
    case Call(a, kind, now) => if MakeLink(s, a, now, kind, cfg).Ok? then MakeLink(s, a, now, kind, cfg).value else s
    case Break(a, reason, now) =>
      if BreakLink(s, now, reason, a, cfg).Ok? then BreakLink(s, now, reason, a, cfg).value else s
    case Receive(m, from, now) => OnCpdu(s, m, from, now, cfg)
    case TickStep(now) => Tick(s, now, cfg)
    case ResetStep(a) => Reset(s, a)
  }

  function After(steps: seq<Step>, cfg: Config): Cas {
    if steps == [] then FRESH else Apply(After(steps[..|steps| - 1], cfg), steps[|steps| - 1], cfg)
  }

  lemma StepInv(s: Cas, step: Step, cfg: Config)
    requires Inv(s, cfg)
    ensures Inv(Apply(s, step, cfg), cfg)
  {
    match step
    case Call(a, kind, now) => if MakeLink(s, a, now, kind, cfg).Ok? { MakeLinkInv(s, a, now, kind, cfg); }
    case Break(a, reason, now) =>
      if BreakLink(s, now, reason, a, cfg).Ok? {
        var target := if a.Some? then a.value else s.primary.value;
        var c := Lookup(s.links, target).value;
        PutInv(s, c.(state := Breaking, retries := 0, deadline := now + cfg.breakTimeout), cfg);
      }
    case Receive(m, from, now) => OnCpduInv(s, m, from, now, cfg);
    case TickStep(now) =>
      SnapshotPending(s);
      TickAllInv(s, s.links, now, cfg);
    case ResetStep(a) =>
      var target := if a.Some? then a else s.primary;
      if target.Some? { RemoveInv(s, target.value, cfg); }
  }

  lemma {:induction false} RunInv(steps: seq<Step>, cfg: Config)
    ensures Inv(After(steps, cfg), cfg)
    decreases |steps|
  {
    if steps != [] {
      RunInv(steps[..|steps| - 1], cfg);
      StepInv(After(steps[..|steps| - 1], cfg), steps[|steps| - 1], cfg);
    }
  }

  /** In every reachable state at most one link is being called, and it is the primary one. */
  lemma OneCalling(steps: seq<Step>, cfg: Config)
    ensures var s := After(steps, cfg);
      && (forall c :: c in s.links && c.state.Calling? ==> s.primary == Some(c.remote))
      && (forall i, j :: 0 <= i < j < |s.links| ==> !(s.links[i].state.Calling? && s.links[j].state.Calling?))
  {
    RunInv(steps, cfg);
    var s := After(steps, cfg);
    forall i, j | 0 <= i < j < |s.links| ensures !(s.links[i].state.Calling? && s.links[j].state.Calling?) {
      assert s.links[i] in s.links && s.links[j] in s.links;
      assert CtxOk(s.links[i], s.primary, cfg) && CtxOk(s.links[j], s.primary, cfg);
    }
  }

  /** Links that remote nodes opened never exceed the configured numbers, whatever this node calls itself. */
  lemma CalledCapacity(steps: seq<Step>, cfg: Config)
    ensures Capacity(After(steps, cfg).links, cfg)
  {
    RunInv(steps, cfg);
  }

  // ---- A node that never calls --------------------------------------------

  predicate NeverCalls(steps: seq<Step>) {
    forall i :: 0 <= i < |steps| ==> !steps[i].Call?
  }

  /** Every link that is made was opened by the remote node, and none is being called. */
  predicate OnlyCalled(links: seq<Ctx>) {
    forall c :: c in links ==> !c.state.Calling? && (c.state.Made? ==> c.called)
  }

  lemma PutOnly(links: seq<Ctx>, c: Ctx)
    requires Distinct(links) && OnlyCalled(links) && !c.state.Calling? && (c.state.Made? ==> c.called)
    ensures OnlyCalled(Put(links, c))
  {
    PutFacts(links, c);
  }

  lemma {:induction false} TickOnly(s: Cas, todo: seq<Ctx>, now: int, cfg: Config)
    requires Inv(s, cfg) && OnlyCalled(s.links) && Pending(s, todo)
    ensures OnlyCalled(TickAll(s, todo, now, cfg).links)
    decreases |todo|
  {
    hide CtxOk, Put;
    if todo != [] {
      var c := todo[0];
      assert c in todo;
      assert c in s.links;
      DropFacts(s.links, c.remote);
      PutOnly(s.links, c.(retries := c.retries + 1, deadline := now + cfg.breakTimeout));
      TickLinkInv(s, c, now, cfg);
      PendingNext(s, todo, now, cfg);
      TickOnly(TickLink(s, c, now, cfg), todo[1..], now, cfg);
    }
  }

  lemma StepOnly(s: Cas, step: Step, cfg: Config)
    requires Inv(s, cfg) && OnlyCalled(s.links) && !step.Call?
    ensures OnlyCalled(Apply(s, step, cfg).links)
  {
    match step
    case Break(target, reason, now) =>
      if BreakLink(s, now, reason, target, cfg).Ok? {
        var a := if target.Some? then target.value else s.primary.value;
        PutOnly(s.links,
          Lookup(s.links, a).value.(state := Breaking, retries := 0, deadline := now + cfg.breakTimeout));
      }
    case Receive(m, from, now) =>
      var known := Lookup(s.links, from);
      DropFacts(s.links, from);
      if known.Some? { PutOnly(s.links, known.value.(lastRx := now)); }
      if m.LinkRequest? {
        PutOnly(s.links, Ensure(s, from).(called := true, kind := m.kind, state := Made, madeAt := now, lastRx := 0,
                                          retries := 0, deadline := 0));
      }
    case TickStep(now) =>
      SnapshotPending(s);
      TickOnly(s, s.links, now, cfg);
    case ResetStep(target) =>
      if target.Some? { DropFacts(s.links, target.value); }
      if s.primary.Some? { DropFacts(s.links, s.primary.value); }
  }

  lemma {:induction false} RunOnly(steps: seq<Step>, cfg: Config)
    requires NeverCalls(steps)
    ensures OnlyCalled(After(steps, cfg).links)
    decreases |steps|
  {
    if steps != [] {
      var n := |steps| - 1;
      RunOnly(steps[..n], cfg);
      RunInv(steps[..n], cfg);
      StepOnly(After(steps[..n], cfg), steps[n], cfg);
    }
  }

  /** A node that never calls never holds more links than the limits. */
  lemma NeverCallsCapacity(steps: seq<Step>, cfg: Config)
    requires NeverCalls(steps)
    ensures var links := After(steps, cfg).links;
      MadeCount(links, Exclusive) <= 2 && MadeCount(links, Nonexclusive) <= Limit(cfg.maxNonexclusive)
  {
    RunInv(steps, cfg);
    RunOnly(steps, cfg);
    var links := After(steps, cfg).links;
    CalledIsMade(links, Exclusive);
    CalledIsMade(links, Nonexclusive);
  }

  lemma AfterSnoc(steps: seq<Step>, step: Step, cfg: Config)
    ensures After(steps + [step], cfg) == Apply(After(steps, cfg), step, cfg)
  {
    assert (steps + [step])[..|steps|] == steps;
  }
}

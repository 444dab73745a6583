/** What every operation of the channel access sublayer does to each link, stated on the link table. */
module CasSteps {
  import opened Cas
  import opened CasProof
  import opened CasLimits
  import opened Prelude

  // ---- The link table -----------------------------------------------------

  /** The remote nodes with which a link of one kind is made. */
  ghost function Holders(links: seq<Ctx>, k: LinkKind): set<int> {
    set c | c in links && c.state.Made? && c.kind == k :: c.remote
  }

  lemma HoldersMember(links: seq<Ctx>, k: LinkKind, a: int)
    ensures a in Holders(links, k) <==> exists c :: c in links && c.state.Made? && c.kind == k && c.remote == a
  {
  }

  lemma HoldersCons(h: Ctx, rest: seq<Ctx>, k: LinkKind)
    ensures Holders([h] + rest, k) ==
      Holders(rest, k) + if h.state.Made? && h.kind == k then {h.remote} else {}
  {
    var links := [h] + rest;
    assert forall c :: c in links <==> c == h || c in rest;
  }

  lemma {:induction false} HoldersCount(links: seq<Ctx>, k: LinkKind)
    requires Distinct(links)
    ensures |Holders(links, k)| == MadeCount(links, k)
    decreases |links|
  {
    if links == [] {
      assert Holders(links, k) == {};
    } else {
      hide Holders;
      var h, rest := links[0], links[1..];
      HoldersCount(rest, k);
      assert links == [h] + rest;
      HoldersCons(h, rest, k);
      HoldersMember(rest, k, h.remote);
      assert h.remote !in Holders(rest, k);
    }
  }

  /** Some Exclusive link is being called or made. */
  predicate HasExclusive(links: seq<Ctx>) {
    exists c :: c in links && c.kind.Exclusive? && (c.state.Calling? || c.state.Made?)
  }

  lemma InUseIff(links: seq<Ctx>)
    ensures ExclusiveInUse(links) <==> HasExclusive(links)
  {
    if ExclusiveInUse(links) {
      var i :| 0 <= i < |links| && links[i].kind.Exclusive? && (links[i].state.Calling? || links[i].state.Made?);
      assert links[i] in links;
    }
  }

  /** The table differs only in the entry of one remote node. */
  ghost predicate OnlyAt(before: seq<Ctx>, after: seq<Ctx>, a: int, entry: Option<Ctx>) {
    forall b :: Lookup(after, b) == if b == a then entry else Lookup(before, b)
  }

  lemma PutOnlyAt(links: seq<Ctx>, c: Ctx)
    ensures OnlyAt(links, Put(links, c), c.remote, Some(c))
  {
    forall b ensures Lookup(Put(links, c), b) == if b == c.remote then Some(c) else Lookup(links, b) {
      PutLookup(links, c, b);
    }
  }

  lemma DropOnlyAt(links: seq<Ctx>, a: int)
    requires Distinct(links)
    ensures OnlyAt(links, Drop(links, a), a, None)
  {
    forall b ensures Lookup(Drop(links, a), b) == if b == a then None else Lookup(links, b) {
      DropLookup(links, a, b);
    }
  }

  // ---- Requests from remote nodes -----------------------------------------

  /** Room for a link of this kind: no Exclusive link beside a Nonexclusive one, and the number within its limit. */
  ghost predicate Fits(links: seq<Ctx>, kind: LinkKind, cfg: Config) {
    match kind
    case Nonexclusive => !HasExclusive(links) && |Holders(links, Nonexclusive)| < cfg.maxNonexclusive
    case Exclusive => |Holders(links, Exclusive)| < 2
  }

  predicate Refused(s: Cas, s1: Cas, from: int, reason: int) {
    s1 == s.(sent := s.sent + [Sent(LinkRejected(reason), from)])
  }

  /** The state of the link with a remote node; a node without an entry counts as idle. */
  function StateOf(s: Cas, a: int): LinkState {
    match Lookup(s.links, a)
    case Some(c) => c.state
    case None => Idle
  }

  /**
    * A request is refused for the first of these reasons that applies, and then nothing else changes: 1, incoming links
    * are not allowed; 2, something of higher priority is under way; 3, an Exclusive link is supported; 0, no room.
    */
  lemma RequestRefused(s: Cas, from: int, kind: LinkKind, now: int, cfg: Config)
    requires Distinct(s.links)
    ensures var s1, st := OnCpdu(s, LinkRequest(kind), from, now, cfg), StateOf(s, from);
      var open, beside := st.Idle? || st.Failed?, kind.Nonexclusive? && HasExclusive(s.links);
      && (!cfg.allowIncoming ==> Refused(s, s1, from, 1))
      && (cfg.allowIncoming && cfg.busy ==> Refused(s, s1, from, 2))
      && (cfg.allowIncoming && !cfg.busy ==>
            && (st.Calling? || st.Breaking? ==> Refused(s, s1, from, 2))
            && (open && beside ==> Refused(s, s1, from, 3))
            && (open && !beside && !Fits(s.links, kind, cfg) ==>
                  Refused(s, s1, from, if kind.Exclusive? then 2 else 0)))
  {
    hide MadeCount, Holders, Put, HasExclusive, ExclusiveInUse;
    InUseIff(s.links);
    HoldersCount(s.links, kind);
  }

  /** A request that none of these reasons keeps out is accepted; one for a link that is made is accepted again. */
  lemma RequestAccepted(s: Cas, from: int, kind: LinkKind, now: int, cfg: Config)
    requires Distinct(s.links) && cfg.allowIncoming && !cfg.busy
    ensures var s1, st := OnCpdu(s, LinkRequest(kind), from, now, cfg), StateOf(s, from);
      && (st.Made? ==> s1 == s.(sent := s.sent + [Sent(LinkAccepted, from)]))
      && ((st.Idle? || st.Failed?) && Fits(s.links, kind, cfg) ==>
            && s1.sent == s.sent + [Sent(LinkAccepted, from)]
            && OnlyAt(s.links, s1.links, from, Some(Ctx(from, Made, kind, true, now, 0, 0, 0)))
            && s1.primary == (if s.primary.Some? && Lookup(s1.links, s.primary.value).Some? then s.primary
                              else Some(from)))
  {
    hide MadeCount, Holders, Put, HasExclusive, ExclusiveInUse;
    InUseIff(s.links);
    HoldersCount(s.links, kind);
    PutOnlyAt(s.links, Ctx(from, Made, kind, true, now, 0, 0, 0));
  }

  /** A request is answered LINK_ACCEPTED exactly when it may come in and its link is made already or fits. */
  lemma AcceptedIff(s: Cas, from: int, kind: LinkKind, now: int, cfg: Config)
    requires Distinct(s.links)
    ensures var s1, st := OnCpdu(s, LinkRequest(kind), from, now, cfg), StateOf(s, from);
      && |s1.sent| == |s.sent| + 1 && s1.sent[..|s.sent|] == s.sent && s1.sent[|s.sent|].destination == from
      && (s1.sent[|s.sent|].cpdu == LinkAccepted <==>
            && cfg.allowIncoming && !cfg.busy
            && (st.Made? || ((st.Idle? || st.Failed?) && Fits(s.links, kind, cfg))))
      && (s1.sent[|s.sent|].cpdu != LinkAccepted ==> s1.links == s.links && s1.primary == s.primary)
  {
    hide MadeCount, Holders, Put, HasExclusive, OnCpdu;
    RequestRefused(s, from, kind, now, cfg);
    if cfg.allowIncoming && !cfg.busy { RequestAccepted(s, from, kind, now, cfg); }
  }

  /** In no run does a received request make a Nonexclusive link while an Exclusive one is being called or made. */
  lemma ExclusiveStaysAlone(steps: seq<Step>, from: int, kind: LinkKind, now: int, cfg: Config, c: Ctx)
    requires HasExclusive(After(steps, cfg).links)
    requires c in Apply(After(steps, cfg), Receive(LinkRequest(kind), from, now), cfg).links
    requires c.state.Made? && c.kind.Nonexclusive?
    ensures c in After(steps, cfg).links
  {
    hide HasExclusive, Holders, Put, OnCpdu, Inv;
    var s := After(steps, cfg);
    RunInv(steps, cfg);
    AssertDistinct(s, cfg);
    RequestRefused(s, from, kind, now, cfg);
    if cfg.allowIncoming && !cfg.busy {
      RequestAccepted(s, from, kind, now, cfg);
      RequestPuts(s, from, kind, now, cfg, c);
    }
  }

  lemma AssertDistinct(s: Cas, cfg: Config)
    requires Inv(s, cfg)
    ensures Distinct(s.links)
  {
  }

  lemma RequestPuts(s: Cas, from: int, kind: LinkKind, now: int, cfg: Config, c: Ctx)
    requires Distinct(s.links) && c in OnCpdu(s, LinkRequest(kind), from, now, cfg).links
    ensures c in s.links || c.kind == kind
  {
    hide Put, MadeCount, ExclusiveInUse;
    var e := Ensure(s, from).(called := true, kind := kind, state := Made, madeAt := now, lastRx := 0, retries := 0,
        deadline := 0);
    PutMember(s.links, e, c);
  }

  // ---- Calls of this node -------------------------------------------------

  /** A call is refused exactly when the primary link is pending, or it would stand beside an Exclusive link. */
  lemma CallRefusedIff(s: Cas, a: int, now: int, kind: LinkKind, cfg: Config)
    ensures MakeLink(s, a, now, kind, cfg).Err? <==>
      || (s.primary.Some? && (StateOf(s, s.primary.value).Calling? || StateOf(s, s.primary.value).Breaking?))
      || (kind.Nonexclusive? && HasExclusive(s.links))
  {
    hide HasExclusive, ExclusiveInUse, Put, Drop;
    InUseIff(s.links);
  }

  /**
    * A call that is not refused puts its link into CALLING with a fresh timer, makes it the primary one, sends one
    * request, and forgets a primary link that was idle or failed; every other link stays as it was.
    */
  lemma CallExact(s: Cas, a: int, now: int, kind: LinkKind, cfg: Config)
    requires Distinct(s.links) && MakeLink(s, a, now, kind, cfg).Ok?
    ensures var s1 := MakeLink(s, a, now, kind, cfg).value;
      && s1.primary == Some(a) && s1.sent == s.sent + [Sent(LinkRequest(kind), a)]
    ensures var c := Lookup(MakeLink(s, a, now, kind, cfg).value.links, a);
      && c.Some? && c.value.state.Calling? && c.value.kind == kind && !c.value.called && c.value.retries == 0
      && c.value.deadline == now + cfg.callTimeout
      && var known := Lookup(s.links, a);
         (c.value.madeAt, c.value.lastRx) ==
           if known.Some? && !(s.primary == Some(a) && (known.value.state.Idle? || known.value.state.Failed?))
           then (known.value.madeAt, known.value.lastRx) else (0, 0)
    ensures forall b | b != a ::
      Lookup(MakeLink(s, a, now, kind, cfg).value.links, b) ==
        if s.primary == Some(b) && (StateOf(s, b).Idle? || StateOf(s, b).Failed?) then None else Lookup(s.links, b)
  {
    hide HasExclusive, ExclusiveInUse, Put, Drop;
    var p := PrimaryCtx(s);
    var s1 := if p.Some? && (p.value.state.Idle? || p.value.state.Failed?) then Remove(s, s.primary.value) else s;
    if s.primary.Some? { DropOnlyAt(s.links, s.primary.value); }
    PutOnlyAt(s1.links, Ensure(s1, a).(state := Calling, kind := kind, called := false, retries := 0,
                                       deadline := now + cfg.callTimeout));
  }

  /** A break needs a made link; it starts the timer, sends one C_PDU, and leaves every other link as it was. */
  lemma BreakExact(s: Cas, now: int, reason: int, remote: Option<int>, cfg: Config)
    ensures var a := if remote.Some? then remote else s.primary;
      && (BreakLink(s, now, reason, remote, cfg).Ok? <==> a.Some? && StateOf(s, a.value).Made?)
      && (BreakLink(s, now, reason, remote, cfg).Ok? ==>
            var s1, c := BreakLink(s, now, reason, remote, cfg).value, Lookup(s.links, a.value).value;
            && s1.primary == s.primary && s1.sent == s.sent + [Sent(LinkBreak(reason), a.value)]
            && OnlyAt(s.links, s1.links, a.value,
                      Some(c.(state := Breaking, retries := 0, deadline := now + cfg.breakTimeout))))
  {
    hide Put;
    var a := if remote.Some? then remote else s.primary;
    if a.Some? && StateOf(s, a.value).Made? {
      PutOnlyAt(s.links, Lookup(s.links, a.value).value.(state := Breaking, retries := 0,
                                                         deadline := now + cfg.breakTimeout));
    }
  }

  /** A reset forgets the given link, or else the primary one, and nothing else; it sends nothing. */
  lemma ResetExact(s: Cas, remote: Option<int>)
    requires Distinct(s.links)
    ensures var s1, a := Reset(s, remote), if remote.Some? then remote else s.primary;
      if a == None then s1 == s
      else s1.sent == s.sent && OnlyAt(s.links, s1.links, a.value, None)
           && s1.primary == if s.primary == a then None else s.primary
  {
    var a := if remote.Some? then remote else s.primary;
    if a.Some? { DropOnlyAt(s.links, a.value); }
  }

  // ---- Other C_PDUs -------------------------------------------------------

  /** What acceptance of an Exclusive call does to another link. */
  predicate IsYielding(c: Ctx) { c.kind.Nonexclusive? && c.state.Made? }

  /** The breaks sent for these links, in order; reason 3 stands for a request of higher priority. */
  function BreaksFor(links: seq<Ctx>): seq<Sent> {
    if links == [] then []
    else (if IsYielding(links[0]) then [Sent(LinkBreak(3), links[0].remote)] else [])
         + BreaksFor(links[1..])
  }

  lemma {:induction false} BreakAllSent(s: Cas, i: nat, now: int, cfg: Config)
    requires i <= |s.links|
    ensures BreakNonexclusive(s, i, now, cfg).sent == s.sent + BreaksFor(s.links[i..])
    ensures BreakNonexclusive(s, i, now, cfg).primary == s.primary
    decreases |s.links| - i
  {
    if i < |s.links| {
      var c := s.links[i];
      assert s.links[i..][0] == c && s.links[i..][1..] == s.links[i + 1..];
      if IsYielding(c) {
        var c1 := c.(state := Breaking, retries := 0, deadline := now + cfg.breakTimeout);
        var s1 := Send(s.(links := s.links[i := c1]), LinkBreak(BREAK_HIGHER_PRIORITY), c.remote);
        BreakAllSent(s1, i + 1, now, cfg);
        assert s1.links[i + 1..] == s.links[i + 1..];
      } else {
        BreakAllSent(s, i + 1, now, cfg);
      }
    }
  }

  function Yielded(c: Ctx, now: int, cfg: Config): Ctx {
    if IsYielding(c) then c.(state := Breaking, retries := 0, deadline := now + cfg.breakTimeout) else c
  }

  lemma {:induction false} BreakAllLinks(s: Cas, i: nat, now: int, cfg: Config)
    requires i <= |s.links|
    ensures var s1 := BreakNonexclusive(s, i, now, cfg);
      && |s1.links| == |s.links|
      && forall j :: 0 <= j < |s.links| ==>
           s1.links[j] == if j < i then s.links[j] else Yielded(s.links[j], now, cfg)
    decreases |s.links| - i
  {
    if i < |s.links| {
      var c := s.links[i];
      if IsYielding(c) {
        var c1 := c.(state := Breaking, retries := 0, deadline := now + cfg.breakTimeout);
        BreakAllLinks(Send(s.(links := s.links[i := c1]), LinkBreak(BREAK_HIGHER_PRIORITY), c.remote), i + 1, now, cfg);
      } else {
        BreakAllLinks(s, i + 1, now, cfg);
      }
    }
  }

  /** Tables that agree entry by entry, up to a change that keeps the remote nodes. */
  lemma {:induction false} LookupYielded(links: seq<Ctx>, more: seq<Ctx>, now: int, cfg: Config, b: int)
    requires |more| == |links| && forall j :: 0 <= j < |links| ==> more[j] == Yielded(links[j], now, cfg)
    ensures Lookup(more, b) ==
      match Lookup(links, b) case None => None case Some(c) => Some(Yielded(c, now, cfg))
    decreases |links|
  {
    if links != [] { LookupYielded(links[1..], more[1..], now, cfg, b); }
  }

  /**
    * The acceptance of a call makes that link. If it is an Exclusive one, every made Nonexclusive link starts breaking,
    * with one break sent for each in order. An acceptance without a call changes nothing.
    */
  lemma AcceptanceExact(s: Cas, from: int, now: int, cfg: Config)
    requires Distinct(s.links)
    ensures var s1, known := OnCpdu(s, LinkAccepted, from, now, cfg), Lookup(s.links, from);
      if StateOf(s, from).Calling? then
        var parting := known.value.kind.Exclusive?;
        && s1.primary == s.primary && s1.sent == s.sent + (if parting then BreaksFor(s.links) else [])
        && forall b :: Lookup(s1.links, b) ==
             if b == from then Some(known.value.(state := Made, madeAt := now, deadline := 0))
             else match Lookup(s.links, b)
               case None => None
               case Some(c) => Some(if parting then Yielded(c, now, cfg) else c)
      else s1 == s
  {
    hide Put, Lookup, BreakNonexclusive, BreaksFor;
    var known := Lookup(s.links, from);
    if StateOf(s, from).Calling? {
      var c1 := known.value.(state := Made, madeAt := now, deadline := 0);
      var s1 := if known.value.kind.Exclusive? then BreakNonexclusive(s, 0, now, cfg) else s;
      PutOnlyAt(s1.links, c1);
      if known.value.kind.Exclusive? {
        BreakAllSent(s, 0, now, cfg);
        BreakAllLinks(s, 0, now, cfg);
        assert s.links[0..] == s.links;
        forall b { LookupYielded(s.links, s1.links, now, cfg, b); }
      }
    }
  }

  /** Rejection fails a call; a break forgets the link and is confirmed; a confirmation forgets a link being broken. */
  lemma EndingExact(s: Cas, from: int, reason: int, now: int, cfg: Config)
    requires Distinct(s.links)
    ensures var s1, known := OnCpdu(s, LinkRejected(reason), from, now, cfg), Lookup(s.links, from);
      && s1.sent == s.sent && s1.primary == s.primary
      && OnlyAt(s.links, s1.links, from,
                if StateOf(s, from).Calling? then Some(known.value.(state := Failed, deadline := 0)) else known)
    ensures var s1 := OnCpdu(s, LinkBreak(reason), from, now, cfg);
      && s1.sent == s.sent + [Sent(LinkBreakConfirm, from)] && OnlyAt(s.links, s1.links, from, None)
      && s1.primary == if Lookup(s.links, from).Some? && s.primary == Some(from) then None else s.primary
    ensures var s1 := OnCpdu(s, LinkBreakConfirm, from, now, cfg);
      if StateOf(s, from).Breaking? then
        && s1.sent == s.sent && OnlyAt(s.links, s1.links, from, None)
        && s1.primary == if s.primary == Some(from) then None else s.primary
      else s1 == s
  {
    hide Put, Drop;
    var known := Lookup(s.links, from);
    DropOnlyAt(s.links, from);
    if known.Some? { PutOnlyAt(s.links, known.value.(state := Failed, deadline := 0)); }
  }

  /** Data marks the link as in use and does nothing else. */
  lemma DataExact(s: Cas, p: bytes, from: int, now: int, cfg: Config)
    ensures var s1, known := OnCpdu(s, Data(p), from, now, cfg), Lookup(s.links, from);
      && s1.sent == s.sent && s1.primary == s.primary
      && OnlyAt(s.links, s1.links, from, if known.Some? then Some(known.value.(lastRx := now)) else None)
  {
    hide Put;
    var known := Lookup(s.links, from);
    if known.Some? { PutOnlyAt(s.links, known.value.(lastRx := now)); }
  }

  // ---- Timers -------------------------------------------------------------

  /** A called link has seen no data for longer than its timeout. */
  predicate IdleTooLong(c: Ctx, now: int, cfg: Config) {
    && c.called && cfg.calledIdleTimeout > 0
    && if c.lastRx > 0 then now - c.lastRx > cfg.calledIdleTimeout
       else c.madeAt > 0 && now - c.madeAt > cfg.calledIdleTimeout
  }

  /** The timer of a call or a break that has run out repeats it, or ends it when its retries are spent. */
  lemma ExpiryExact(s: Cas, c: Ctx, now: int, cfg: Config)
    requires Distinct(s.links) && Lookup(s.links, c.remote) == Some(c) && (c.state.Calling? || c.state.Breaking?)
    ensures var s1 := TickLink(s, c, now, cfg);
      var wait := if c.state.Calling? then cfg.callTimeout else cfg.breakTimeout;
      var again := if c.state.Calling? then LinkRequest(c.kind) else LinkBreak(0);
      && (now < c.deadline ==> s1 == s)
      && (now >= c.deadline && c.retries < cfg.maxRetries ==>
            && s1.primary == s.primary && s1.sent == s.sent + [Sent(again, c.remote)]
            && OnlyAt(s.links, s1.links, c.remote, Some(c.(retries := c.retries + 1, deadline := now + wait))))
      && (now >= c.deadline && c.retries >= cfg.maxRetries ==>
            && s1.sent == s.sent
            && s1.primary == (if c.state.Breaking? && s.primary == Some(c.remote) then None else s.primary)
            && OnlyAt(s.links, s1.links, c.remote, if c.state.Calling? then Some(c.(state := Failed)) else None))
  {
    hide Put, Drop;
    DropOnlyAt(s.links, c.remote);
    PutOnlyAt(s.links, c.(retries := c.retries + 1, deadline := now + cfg.callTimeout));
    PutOnlyAt(s.links, c.(retries := c.retries + 1, deadline := now + cfg.breakTimeout));
    PutOnlyAt(s.links, c.(state := Failed));
  }

  /**
    * A made link is broken with reason 4, no more data, when a remote node opened it and it has been idle too long;
    * nothing else happens to it.
    */
  lemma IdleExact(s: Cas, c: Ctx, now: int, cfg: Config)
    requires Distinct(s.links) && Lookup(s.links, c.remote) == Some(c) && !c.state.Calling? && !c.state.Breaking?
    ensures var s1 := TickLink(s, c, now, cfg);
      if c.state.Made? && IdleTooLong(c, now, cfg) then
        && s1.sent == s.sent + [Sent(LinkBreak(4), c.remote)]
        && OnlyAt(s.links, s1.links, c.remote, None)
        && s1.primary == if s.primary == Some(c.remote) then None else s.primary
      else s1 == s
  {
    hide Drop;
    DropOnlyAt(s.links, c.remote);
  }

  /** What the timers of one link send. */
  function SentBy(c: Ctx, now: int, cfg: Config): seq<Sent> {
    TickLink(Cas([c], None, []), c, now, cfg).sent
  }

  function SentByAll(todo: seq<Ctx>, now: int, cfg: Config): seq<Sent> {
    if todo == [] then [] else SentBy(todo[0], now, cfg) + SentByAll(todo[1..], now, cfg)
  }

  /** The timers of a link look at its own entry only. */
  lemma TickOwnEntry(s: Cas, s1: Cas, c: Ctx, now: int, cfg: Config)
    requires Distinct(s.links) && Distinct(s1.links)
    requires Lookup(s.links, c.remote) == Some(c) && Lookup(s1.links, c.remote) == Some(c)
    ensures Lookup(TickLink(s, c, now, cfg).links, c.remote) == Lookup(TickLink(s1, c, now, cfg).links, c.remote)
    ensures TickLink(s, c, now, cfg).sent == s.sent + SentBy(c, now, cfg)
  {
    hide TickLink, Lookup, Distinct;
    var alone := Cas([c], None, []);
    AloneIs(c);
    if c.state.Calling? || c.state.Breaking? {
      ExpiryExact(s, c, now, cfg);
      ExpiryExact(s1, c, now, cfg);
      ExpiryExact(alone, c, now, cfg);
    } else {
      IdleExact(s, c, now, cfg);
      IdleExact(s1, c, now, cfg);
      IdleExact(alone, c, now, cfg);
    }
  }

  lemma AloneIs(c: Ctx)
    ensures Distinct([c]) && Lookup([c], c.remote) == Some(c)
  {
  }

  lemma {:induction false} TickEachOf(s: Cas, todo: seq<Ctx>, now: int, cfg: Config, c: Ctx)
    requires Inv(s, cfg) && Pending(s, todo) && c in todo
    ensures Lookup(TickAll(s, todo, now, cfg).links, c.remote) == Lookup(TickLink(s, c, now, cfg).links, c.remote)
    decreases |todo|
  {
    hide Put, Drop, Inv, TickLink, Lookup;
    var d, s1 := todo[0], TickLink(s, todo[0], now, cfg);
    assert d in todo;
    NextIn(s, todo, now, cfg);
    if c == d {
      TickOthers(s1, todo[1..], now, cfg, c.remote);
    } else {
      assert c in todo[1..];
      TickEachOf(s1, todo[1..], now, cfg, c);
      assert c.remote != d.remote;
      TickLinkLocal(s, d, now, cfg, c.remote);
      TickOwnEntry(s, s1, c, now, cfg);
    }
  }

  lemma NextIn(s: Cas, todo: seq<Ctx>, now: int, cfg: Config)
    requires Inv(s, cfg) && Pending(s, todo) && todo != []
    ensures var s1 := TickLink(s, todo[0], now, cfg);
      && Inv(s1, cfg) && Pending(s1, todo[1..]) && Distinct(s.links) && Distinct(s1.links)
    ensures forall d :: d in todo[1..] ==> d.remote != todo[0].remote
    ensures forall d :: d in todo ==> Lookup(s.links, d.remote) == Some(d)
  {
    assert todo[0] in todo;
    LookupIs(s.links, todo[0]);
    TickLinkInv(s, todo[0], now, cfg);
    PendingNext(s, todo, now, cfg);
  }

  lemma {:induction false} TickOthers(s: Cas, todo: seq<Ctx>, now: int, cfg: Config, a: int)
    requires Inv(s, cfg) && Pending(s, todo) && forall d :: d in todo ==> d.remote != a
    ensures Lookup(TickAll(s, todo, now, cfg).links, a) == Lookup(s.links, a)
    decreases |todo|
  {
    hide Put, Drop, Inv, TickLink, Lookup;
    if todo != [] {
      NextIn(s, todo, now, cfg);
      assert todo[0] in todo;
      TickLinkLocal(s, todo[0], now, cfg, a);
      TickOthers(TickLink(s, todo[0], now, cfg), todo[1..], now, cfg, a);
    }
  }

  lemma {:induction false} TickSends(s: Cas, todo: seq<Ctx>, now: int, cfg: Config)
    requires Inv(s, cfg) && Pending(s, todo)
    ensures TickAll(s, todo, now, cfg).sent == s.sent + SentByAll(todo, now, cfg)
    decreases |todo|
  {
    hide Put, Drop, Inv, TickLink, Lookup, SentBy;
    if todo != [] {
      NextIn(s, todo, now, cfg);
      assert todo[0] in todo;
      TickOwnEntry(s, s, todo[0], now, cfg);
      TickSends(TickLink(s, todo[0], now, cfg), todo[1..], now, cfg);
    }
  }

  /**
    * In every reachable state a tick treats each link as if it were the only one, whatever happens to the others in the
    * same tick, and sends for each link what its own timers call for, in the order of the table.
    */
  lemma TickIsLocal(steps: seq<Step>, now: int, cfg: Config, c: Ctx)
    requires c in After(steps, cfg).links
    ensures var s := After(steps, cfg);
      && Lookup(Tick(s, now, cfg).links, c.remote) == Lookup(TickLink(s, c, now, cfg).links, c.remote)
      && Tick(s, now, cfg).sent == s.sent + SentByAll(s.links, now, cfg)
  {
    var s := After(steps, cfg);
    RunInv(steps, cfg);
    SnapshotPending(s);
    TickEachOf(s, s.links, now, cfg, c);
    TickSends(s, s.links, now, cfg);
  }
}

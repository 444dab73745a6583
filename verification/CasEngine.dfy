/** The channel access engine as an object whose operations update its link table in place. */
module CasEngine {
  import opened Cas
  import opened Prelude

  /** The loop that looks for an Exclusive link being called or made. */
  method HasExclusive(links: seq<Ctx>) returns (found: bool)
    ensures found == ExclusiveInUse(links)
  {
    for i := 0 to |links|
      invariant forall j :: 0 <= j < i ==>
          !(links[j].kind.Exclusive? && (links[j].state.Calling? || links[j].state.Made?))
    {
      if links[i].kind.Exclusive? && (links[i].state.Calling? || links[i].state.Made?) { return true; }
    }
    return false;
  }

  lemma {:induction false} CountSnoc(links: seq<Ctx>, c: Ctx, k: LinkKind)
    ensures MadeCount(links + [c], k) == MadeCount(links, k) + if c.state.Made? && c.kind == k then 1 else 0
    decreases |links|
  {
    if links == [] {
      assert [c][1..] == [];
    } else {
      CountSnoc(links[1..], c, k);
      assert (links + [c])[1..] == links[1..] + [c];
    }
  }

  method CountMade(links: seq<Ctx>, k: LinkKind) returns (n: nat)
    ensures n == MadeCount(links, k)
  {
    n := 0;
    for i := 0 to |links|
      invariant n == MadeCount(links[..i], k)
    {
      CountSnoc(links[..i], links[i], k);
      assert links[..i + 1] == links[..i] + [links[i]];
      if links[i].state.Made? && links[i].kind == k { n := n + 1; }
    }
    assert links[..|links|] == links;
  }

  class CASEngine {
    const cfg: Config
    var links: seq<Ctx>
    var primary: Option<int>
    var sent: seq<Sent>

    ghost function State(): Cas
      reads this
    {
      Cas(links, primary, sent)
    }

    constructor (c: Config)
      ensures cfg == c && State() == FRESH
    {
      cfg := c;
      links, primary, sent := [], None, [];
    }

    method SendControl(c: Cpdu, destination: int)
      modifies this`sent
      ensures State() == Send(old(State()), c, destination)
    {
      sent := sent + [Sent(c, destination)];
    }

    method RemoveLink(a: int)
      modifies this`links, this`primary
      ensures State() == Remove(old(State()), a)
    {
      links := Drop(links, a);
      if primary == Some(a) { primary := None; }
    }

    method ResetLink(remote: Option<int>)
      modifies this`links, this`primary
      ensures State() == Reset(old(State()), remote)
    {
      var target := if remote.Some? then remote else primary;
      if target.Some? { RemoveLink(target.value); }
    }

    /** Starts a call; a refusal leaves the engine alone. */
    method Call(a: int, now: int, kind: LinkKind) returns (refused: Option<string>)
      modifies this
      ensures match MakeLink(old(State()), a, now, kind, cfg)
              case Ok(s) => refused == None && State() == s
              case Err(e) => refused == Some(e) && State() == old(State())
    {
      hide Lookup, Put;
      var p := if primary.Some? then Lookup(links, primary.value) else None;
      if p.Some? && (p.value.state.Calling? || p.value.state.Breaking?) {
        return Some("CAS link is already active or pending");
      }
      if kind.Nonexclusive? {
        var taken := HasExclusive(links);
        if taken { return Some("Exclusive link is active or pending"); }
      }
      if p.Some? && (p.value.state.Idle? || p.value.state.Failed?) {
        RemoveLink(primary.value);
      }
      var known := Lookup(links, a);
      var c := if known.Some? then known.value else NewCtx(a);
      c := c.(state := Calling);
      c := c.(kind := kind);
      c := c.(called := false);
      c := c.(retries := 0);
      c := c.(deadline := now + cfg.callTimeout);
      links := Put(links, c);
      primary := Some(a);
      SendControl(LinkRequest(kind), a);
      return None;
    }

    method Break(now: int, reason: int, remote: Option<int>) returns (refused: Option<string>)
      modifies this
      ensures match BreakLink(old(State()), now, reason, remote, cfg)
              case Ok(s) => refused == None && State() == s
              case Err(e) => refused == Some(e) && State() == old(State())
    {
      var target := if remote.Some? then remote else primary;
      if target.None? { return Some("CAS link is not established"); }
      var c := Lookup(links, target.value);
      if c.None? || !c.value.state.Made? { return Some("CAS link is not established"); }
      links := Put(links, c.value.(state := Breaking, retries := 0, deadline := now + cfg.breakTimeout));
      SendControl(LinkBreak(reason), target.value);
      return None;
    }

    method BreakAllNonexclusive(now: int)
      modifies this`links, this`sent
      ensures State() == BreakNonexclusive(old(State()), 0, now, cfg)
    {
      ghost var goal := BreakNonexclusive(State(), 0, now, cfg);
      var i := 0;
      var n := |links|;
      while i < n
        invariant 0 <= i <= n == |links| && primary == old(primary)
        invariant goal == BreakNonexclusive(State(), i, now, cfg)
      {
        var c := links[i];
        if c.kind.Nonexclusive? && c.state.Made? {
          links := links[i := c.(state := Breaking, retries := 0, deadline := now + cfg.breakTimeout)];
          SendControl(LinkBreak(BREAK_HIGHER_PRIORITY), c.remote);
        }
        i := i + 1;
      }
    }

    method HandleLinkRequest(from: int, kind: LinkKind, now: int)
      modifies this
      ensures State() == OnRequest(old(State()), from, kind, now, cfg)
    {
      if !cfg.allowIncoming {
        SendControl(LinkRejected(BROADCAST_ONLY_NODE), from);
        return;
      }
      if cfg.busy {
        SendControl(LinkRejected(HIGHER_PRIORITY_PENDING), from);
        return;
      }
      var existing := Lookup(links, from);
      if existing.Some? && existing.value.state.Made? {
        SendControl(LinkAccepted, from);
        return;
      }
      if existing.Some? && (existing.value.state.Calling? || existing.value.state.Breaking?) {
        SendControl(LinkRejected(HIGHER_PRIORITY_PENDING), from);
        return;
      }
      if kind.Nonexclusive? {
        var taken := HasExclusive(links);
        if taken {
          SendControl(LinkRejected(SUPPORTING_EXCLUSIVE), from);
          return;
        }
        var count := CountMade(links, Nonexclusive);
        if count >= cfg.maxNonexclusive {
          SendControl(LinkRejected(0), from);
          return;
        }
      }
      if kind.Exclusive? {
        var count := CountMade(links, Exclusive);
        if count >= 2 {
          SendControl(LinkRejected(HIGHER_PRIORITY_PENDING), from);
          return;
        }
      }
      AcceptLink(from, kind, now);
    }

    method AcceptLink(from: int, kind: LinkKind, now: int)
      modifies this
      ensures State() == Accept(old(State()), from, kind, now)
    {
      var existing := Lookup(links, from);
      var c := if existing.Some? then existing.value else NewCtx(from);
      links := Put(links,
        c.(called := true, kind := kind, state := Made, madeAt := now, lastRx := 0, retries := 0, deadline := 0));
      if primary.None? || Lookup(links, primary.value).None? { primary := Some(from); }
      SendControl(LinkAccepted, from);
    }

    method ProcessCpdu(m: Cpdu, from: int, now: int)
      modifies this
      ensures State() == OnCpdu(old(State()), m, from, now, cfg)
    {
      var known := Lookup(links, from);
      match m {
        case Data(_) =>
          if known.Some? { links := Put(links, known.value.(lastRx := now)); }
        case LinkRequest(k) => HandleLinkRequest(from, k, now);
        case LinkAccepted =>
          if known.Some? && known.value.state.Calling? {
            if known.value.kind.Exclusive? { BreakAllNonexclusive(now); }
            links := Put(links, known.value.(state := Made, madeAt := now, deadline := 0));
          }
        case LinkRejected(_) =>
          if known.Some? && known.value.state.Calling? {
            links := Put(links, known.value.(state := Failed, deadline := 0));
          }
        case LinkBreak(_) =>
          SendControl(LinkBreakConfirm, from);
          if known.Some? { RemoveLink(from); }
        case LinkBreakConfirm =>
          if known.Some? && known.value.state.Breaking? { RemoveLink(from); }
      }
    }

    method TickOne(c: Ctx, now: int)
      modifies this
      ensures State() == TickLink(old(State()), c, now, cfg)
    {
      if c.state.Calling? {
        if now >= c.deadline {
          if c.retries < cfg.maxRetries {
            links := Put(links, c.(retries := c.retries + 1, deadline := now + cfg.callTimeout));
            SendControl(LinkRequest(c.kind), c.remote);
          } else {
            links := Put(links, c.(state := Failed));
          }
        }
      } else if c.state.Breaking? {
        if now >= c.deadline {
          if c.retries < cfg.maxRetries {
            links := Put(links, c.(retries := c.retries + 1, deadline := now + cfg.breakTimeout));
            SendControl(LinkBreak(0), c.remote);
          } else {
            RemoveLink(c.remote);
          }
        }
      } else if c.state.Made? && c.called && cfg.calledIdleTimeout > 0 {
        var baseline := if c.lastRx > 0 then c.lastRx else c.madeAt;
        if baseline > 0 && now - baseline > cfg.calledIdleTimeout {
          SendControl(LinkBreak(NO_MORE_DATA), c.remote);
          RemoveLink(c.remote);
        }
      }
    }

    /** The timers of every link, in the order in which the links were opened. */
    method TickLinks(now: int)
      modifies this
      ensures State() == Tick(old(State()), now, cfg)
    {
      var snapshot := links;
      ghost var goal := Tick(State(), now, cfg);
      var i := 0;
      assert snapshot[0..] == snapshot;
      while i < |snapshot|
        invariant 0 <= i <= |snapshot|
        invariant goal == TickAll(State(), snapshot[i..], now, cfg)
      {
        assert snapshot[i..][0] == snapshot[i] && snapshot[i..][1..] == snapshot[i + 1..];
        TickOne(snapshot[i], now);
        i := i + 1;
      }
    }
  }
}

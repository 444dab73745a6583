/** The channel access sublayer: link control messages and the multi-link state machine. */
module Cas {
  import opened Prelude

  datatype LinkKind = Nonexclusive | Exclusive

  datatype LinkState = Idle | Calling | Made | Breaking | Failed

  /** A C_PDU. */
  datatype Cpdu =
    | Data(payload: bytes)
    | LinkRequest(kind: LinkKind)
    | LinkAccepted
    | LinkRejected(reason: int)
    | LinkBreak(reason: int)
    | LinkBreakConfirm

  const BROADCAST_ONLY_NODE := 1
  const HIGHER_PRIORITY_PENDING := 2
  const SUPPORTING_EXCLUSIVE := 3
  const BREAK_HIGHER_PRIORITY := 3
  const NO_MORE_DATA := 4

  // ---- Wire form ----------------------------------------------------------

  function Encode(c: Cpdu): bytes {
    match c
    case Data(p) => [0x00] + p
    case LinkRequest(k) => [0x10 + if k.Exclusive? then 1 else 0]
    case LinkAccepted => [0x20]
    case LinkRejected(r) => [0x30 + r % 16]
    case LinkBreak(r) => [0x40 + r % 16]
    case LinkBreakConfirm => [0x50]
  }

  function Decode(data: bytes, strict: bool): Result<Cpdu, string> {
    if |data| < 1 then Err("CPDU buffer too short")
    else
      var t, low := data[0] / 16, data[0] % 16;
      if t == 0 then Ok(Data(data[1..]))
      else if t == 1 then
        if strict && low / 2 != 0 then Err("LINK_REQUEST: bits 1-3 are not used")
        else Ok(LinkRequest(if low % 2 == 1 then Exclusive else Nonexclusive))
      else if t == 2 then
        if strict && low != 0 then Err("LINK_ACCEPTED: low nibble must be 0") else Ok(LinkAccepted)
      else if t == 3 then Ok(LinkRejected(low))
      else if t == 4 then Ok(LinkBreak(low))
      else if t == 5 then
        if strict && low != 0 then Err("LINK_BREAK_CONFIRM: low nibble must be 0") else Ok(LinkBreakConfirm)
      else Err("Invalid CPDU type")
  }

  /** Every C_PDU with a 4-bit reason survives the wire, in both modes. */
  lemma RoundTrip(c: Cpdu, strict: bool)
    requires c.LinkRejected? || c.LinkBreak? ==> 0 <= c.reason < 16
    ensures Decode(Encode(c), strict) == Ok(c)
  {
    if c.Data? { assert ([0x00] + c.payload)[1..] == c.payload; }
  }

  /**
    * Strict decoding accepts a control C_PDU exactly when its first byte is one that encoding produces. DATA and
    * whatever follows the first byte of a control C_PDU are never checked.
    */
  lemma StrictIff(data: bytes)
    requires data != []
    ensures Decode(data, true).Ok? <==>
      data[0] < 16 || (Decode(data, false).Ok? && Encode(Decode(data, false).value) == data[..1])
  {
    var t, low := data[0] / 16, data[0] % 16;
    assert data[..1] == [16 * t + low];
  }

  /** The first byte with the bits cleared that its type does not use. */
  function SpareCleared(b: byte): byte {
    if b / 16 == 1 then 16 + b % 2 else if b / 16 == 2 || b / 16 == 5 then b - b % 16 else b
  }

  /** Lenient decoding is strict decoding with the spare bits cleared. */
  lemma LenientIsStrict(data: bytes)
    requires data != []
    ensures Decode(data, false) == Decode([SpareCleared(data[0])] + data[1..], true)
  {
    var b, cleared := data[0], [SpareCleared(data[0])] + data[1..];
    assert cleared[0] / 16 == b / 16 && cleared[1..] == data[1..];
    assert b / 16 == 1 ==> cleared[0] % 16 == b % 2 && b % 16 % 2 == b % 2;
  }

  // ---- Links --------------------------------------------------------------

  /** What a node knows of its link with one remote node. */
  datatype Ctx = Ctx(remote: int, state: LinkState, kind: LinkKind, called: bool,
                     madeAt: int, lastRx: int, deadline: int, retries: int)

  function NewCtx(remote: int): Ctx { Ctx(remote, Idle, Nonexclusive, false, 0, 0, 0, 0) }

  datatype Config = Config(callTimeout: int, breakTimeout: int, maxRetries: int, maxNonexclusive: int,
                           calledIdleTimeout: int, allowIncoming: bool, busy: bool)

  /** A control C_PDU handed down for transmission. */
  datatype Sent = Sent(cpdu: Cpdu, destination: int)

  /** The engine: its links in the order in which they were opened, its primary link, and everything it sent. */
  datatype Cas = Cas(links: seq<Ctx>, primary: Option<int>, sent: seq<Sent>)

  const FRESH := Cas([], None, [])

  function Lookup(links: seq<Ctx>, a: int): (c: Option<Ctx>)
    ensures c.Some? ==> c.value.remote == a && c.value in links
  {
    if links == [] then None else if links[0].remote == a then Some(links[0]) else Lookup(links[1..], a)
  }

  /** The entry of a remote node, replaced where it stands or added at the end. */
  function Put(links: seq<Ctx>, c: Ctx): seq<Ctx> {
    if links == [] then [c]
    else if links[0].remote == c.remote then [c] + links[1..]
    else [links[0]] + Put(links[1..], c)
  }

  function Drop(links: seq<Ctx>, a: int): seq<Ctx> {
    if links == [] then [] else if links[0].remote == a then links[1..] else [links[0]] + Drop(links[1..], a)
  }

  function Ensure(s: Cas, a: int): Ctx {
    match Lookup(s.links, a)
    case Some(c) => c
    case None => NewCtx(a)
  }

  function Remove(s: Cas, a: int): Cas {
    s.(links := Drop(s.links, a), primary := if s.primary == Some(a) then None else s.primary)
  }

  function Send(s: Cas, c: Cpdu, to: int): Cas { s.(sent := s.sent + [Sent(c, to)]) }

  function PrimaryCtx(s: Cas): Option<Ctx> {
    if s.primary.Some? then Lookup(s.links, s.primary.value) else None
  }

  /** Links of one kind in the state MADE. */
  function MadeCount(links: seq<Ctx>, k: LinkKind): nat {
    if links == [] then 0
    else (if links[0].state.Made? && links[0].kind == k then 1 else 0) + MadeCount(links[1..], k)
  }

  predicate ExclusiveInUse(links: seq<Ctx>) {
    exists i :: 0 <= i < |links| && links[i].kind.Exclusive? && (links[i].state.Calling? || links[i].state.Made?)
  }

  // ---- Operations ---------------------------------------------------------

  function Reset(s: Cas, remote: Option<int>): Cas {
    var target := if remote.Some? then remote else s.primary;
    if target.Some? then Remove(s, target.value) else s
  }

  function MakeLink(s: Cas, a: int, now: int, kind: LinkKind, cfg: Config): Result<Cas, string> {
    var p := PrimaryCtx(s);
    if p.Some? && (p.value.state.Calling? || p.value.state.Breaking?) then Err("CAS link is already active or pending")
    else if kind.Nonexclusive? && ExclusiveInUse(s.links) then Err("Exclusive link is active or pending")
    else
      var s1 := if p.Some? && (p.value.state.Idle? || p.value.state.Failed?) then Remove(s, s.primary.value) else s;
      var c := Ensure(s1, a).(state := Calling, kind := kind, called := false, retries := 0,
          deadline := now + cfg.callTimeout);
      Ok(Send(s1.(links := Put(s1.links, c), primary := Some(a)), LinkRequest(kind), a))
  }

  function BreakLink(s: Cas, now: int, reason: int, remote: Option<int>, cfg: Config): Result<Cas, string> {
    var target := if remote.Some? then remote else s.primary;
    if target.None? then Err("CAS link is not established")
    else
      var c := Lookup(s.links, target.value);
      if c.None? || !c.value.state.Made? then Err("CAS link is not established")
      else
        var c1 := c.value.(state := Breaking, retries := 0, deadline := now + cfg.breakTimeout);
        Ok(Send(s.(links := Put(s.links, c1)), LinkBreak(reason), target.value))
  }

  /** Starts breaking every Nonexclusive link that is made. */
  function BreakNonexclusive(s: Cas, i: nat, now: int, cfg: Config): Cas
    decreases |s.links| - i
  {
    if i >= |s.links| then s
    else
      var c := s.links[i];
      if c.kind.Nonexclusive? && c.state.Made? then
        var c1 := c.(state := Breaking, retries := 0, deadline := now + cfg.breakTimeout);
        BreakNonexclusive(Send(s.(links := s.links[i := c1]), LinkBreak(BREAK_HIGHER_PRIORITY), c.remote),
                          i + 1, now, cfg)
      else BreakNonexclusive(s, i + 1, now, cfg)
  }

  /** A call from a remote node: accepted, accepted again, or rejected with a reason. */
  function OnRequest(s: Cas, from: int, kind: LinkKind, now: int, cfg: Config): Cas {
    var known := Lookup(s.links, from);
    if !cfg.allowIncoming then Send(s, LinkRejected(BROADCAST_ONLY_NODE), from)
    else if cfg.busy then Send(s, LinkRejected(HIGHER_PRIORITY_PENDING), from)
    else if known.Some? && known.value.state.Made? then Send(s, LinkAccepted, from)
    else if known.Some? && (known.value.state.Calling? || known.value.state.Breaking?) then
      Send(s, LinkRejected(HIGHER_PRIORITY_PENDING), from)
    else if kind.Nonexclusive? && ExclusiveInUse(s.links) then Send(s, LinkRejected(SUPPORTING_EXCLUSIVE), from)
    else if kind.Nonexclusive? && MadeCount(s.links, Nonexclusive) >= cfg.maxNonexclusive then
      Send(s, LinkRejected(0), from)
    else if kind.Exclusive? && MadeCount(s.links, Exclusive) >= 2 then
      Send(s, LinkRejected(HIGHER_PRIORITY_PENDING), from)
    else Accept(s, from, kind, now)
  }

  /** The link is made; it becomes the primary one if there is none. */
  function Accept(s: Cas, from: int, kind: LinkKind, now: int): Cas {
    var c := Ensure(s, from).(called := true, kind := kind, state := Made, madeAt := now, lastRx := 0, retries := 0,
        deadline := 0);
    var links := Put(s.links, c);
    var primary := if s.primary.None? || Lookup(links, s.primary.value).None? then Some(from) else s.primary;
    Send(s.(links := links, primary := primary), LinkAccepted, from)
  }

  function OnCpdu(s: Cas, m: Cpdu, from: int, now: int, cfg: Config): Cas {
    var known := Lookup(s.links, from);
    match m
    case Data(_) => if known.Some? then s.(links := Put(s.links, known.value.(lastRx := now))) else s
    case LinkRequest(k) => OnRequest(s, from, k, now, cfg)
    case LinkAccepted =>
      if known.Some? && known.value.state.Calling? then
        var s1 := if known.value.kind.Exclusive? then BreakNonexclusive(s, 0, now, cfg) else s;
        s1.(links := Put(s1.links, known.value.(state := Made, madeAt := now, deadline := 0)))
      else s
    case LinkRejected(_) =>
      if known.Some? && known.value.state.Calling? then
        s.(links := Put(s.links, known.value.(state := Failed, deadline := 0)))
      else s
    case LinkBreak(_) =>
      var s1 := Send(s, LinkBreakConfirm, from);
      if known.Some? then Remove(s1, from) else s1
    case LinkBreakConfirm =>
      if known.Some? && known.value.state.Breaking? then Remove(s, from) else s
  }

  /** The timers of one link. */
  function TickLink(s: Cas, c: Ctx, now: int, cfg: Config): Cas {
    if c.state.Calling? then
      if now < c.deadline then s
      else if c.retries < cfg.maxRetries then
        Send(s.(links := Put(s.links, c.(retries := c.retries + 1, deadline := now + cfg.callTimeout))),
             LinkRequest(c.kind), c.remote)
      else s.(links := Put(s.links, c.(state := Failed)))
    else if c.state.Breaking? then
      if now < c.deadline then s
      else if c.retries < cfg.maxRetries then
        Send(s.(links := Put(s.links, c.(retries := c.retries + 1, deadline := now + cfg.breakTimeout))),
             LinkBreak(0), c.remote)
      else Remove(s, c.remote)
    else if c.state.Made? && c.called && cfg.calledIdleTimeout > 0 then
      var baseline := if c.lastRx > 0 then c.lastRx else c.madeAt;
      if baseline > 0 && now - baseline > cfg.calledIdleTimeout then
        Remove(Send(s, LinkBreak(NO_MORE_DATA), c.remote), c.remote)
      else s
    else s
  }

  /** The timers of the links in a snapshot, one after another. */
  function TickAll(s: Cas, todo: seq<Ctx>, now: int, cfg: Config): Cas
    decreases |todo|
  {
    if todo == [] then s else TickAll(TickLink(s, todo[0], now, cfg), todo[1..], now, cfg)
  }

  function Tick(s: Cas, now: int, cfg: Config): Cas { TickAll(s, s.links, now, cfg) }
}

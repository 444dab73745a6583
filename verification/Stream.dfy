/**
  * Incremental parsers over byte streams. A parser looks at the front of its buffer and waits for more,
  * throws bytes away, or takes an item off.
  */
module Stream {
  import opened Prelude

  datatype Verdict<T> = Wait | Skip(n: nat) | Take(n: nat, item: T)

  datatype Outcome<T> = Outcome(items: seq<T>, rest: bytes)

  /** Every decision but waiting consumes something, and stays the same whatever arrives later. */
  ghost predicate Steady<T(!new)>(next: bytes -> Verdict<T>) {
    && (forall buf :: next(buf).Skip? ==> 1 <= next(buf).n <= |buf|)
    && (forall buf :: next(buf).Take? ==> 1 <= next(buf).n <= |buf|)
    && (forall buf, more :: next(buf).Wait? || next(buf + more) == next(buf))
  }

  /** Everything that can be parsed off a buffer, and what stays behind. */
  ghost function Run<T(!new)>(next: bytes -> Verdict<T>, buf: bytes): Outcome<T>
    requires Steady(next)
    decreases |buf|
  {
    match next(buf)
    case Wait => Outcome([], buf)
    case Skip(n) => Run(next, buf[n..])
    case Take(n, item) =>
      var later := Run(next, buf[n..]);
      Outcome([item] + later.items, later.rest)
  }

  /** One decision is not affected by later bytes. */
  lemma FrontDecides<T(!new)>(next: bytes -> Verdict<T>, a: bytes, b: bytes)
    requires Steady(next) && !next(a).Wait?
    ensures 1 <= next(a).n <= |a|
    ensures next(a + b) == next(a) && (a + b)[next(a).n..] == a[next(a).n..] + b
  {
  }

  lemma RunWait<T(!new)>(next: bytes -> Verdict<T>, buf: bytes)
    requires Steady(next) && next(buf).Wait?
    ensures Run(next, buf) == Outcome([], buf)
  {
  }

  lemma RunTake<T(!new)>(next: bytes -> Verdict<T>, buf: bytes)
    requires Steady(next) && next(buf).Take?
    ensures var later := Run(next, buf[next(buf).n..]);
      Run(next, buf) == Outcome([next(buf).item] + later.items, later.rest)
  {
  }

  lemma RunSkip<T(!new)>(next: bytes -> Verdict<T>, buf: bytes)
    requires Steady(next) && next(buf).Skip?
    ensures Run(next, buf) == Run(next, buf[next(buf).n..])
  {
  }

  /** Parsing what has arrived first and the rest later gives the items and the residue of parsing all at once. */
  lemma {:induction false} Chunked<T(!new)>(next: bytes -> Verdict<T>, a: bytes, b: bytes)
    requires Steady(next)
    ensures var first := Run(next, a);
      var second := Run(next, first.rest + b);
      Run(next, a + b) == Outcome(first.items + second.items, second.rest)
    decreases |a|
  {
    hide Steady, Run;
    if next(a).Wait? {
      RunWait(next, a);
      var second := Run(next, a + b);
      assert [] + second.items == second.items;
    } else {
      FrontDecides(next, a, b);
      var n := next(a).n;
      Chunked(next, a[n..], b);
      if next(a).Skip? {
        RunSkip(next, a);
        RunSkip(next, a + b);
      } else {
        RunTake(next, a);
        RunTake(next, a + b);
        var first := Run(next, a[n..]);
        var second := Run(next, first.rest + b);
        assert [next(a).item] + (first.items + second.items) == ([next(a).item] + first.items) + second.items;
      }
    }
  }

  /** What is left behind holds nothing more to parse. */
  lemma {:induction false} RestWaits<T(!new)>(next: bytes -> Verdict<T>, buf: bytes)
    requires Steady(next)
    ensures next(Run(next, buf).rest).Wait? && |Run(next, buf).rest| <= |buf|
    decreases |buf|
  {
    match next(buf)
    case Wait =>
    case Skip(n) => RestWaits(next, buf[n..]);
    case Take(n, item) => RestWaits(next, buf[n..]);
  }

  /** Feeding pieces one after another, parsing after each. */
  ghost function FeedAll<T(!new)>(next: bytes -> Verdict<T>, buf: bytes, pieces: seq<bytes>): Outcome<T>
    requires Steady(next)
    decreases |pieces|
  {
    if pieces == [] then Outcome([], buf)
    else
      var first := Run(next, buf + pieces[0]);
      var later := FeedAll(next, first.rest, pieces[1..]);
      Outcome(first.items + later.items, later.rest)
  }

  lemma FeedFirst<T(!new)>(next: bytes -> Verdict<T>, buf: bytes, pieces: seq<bytes>)
    requires Steady(next) && pieces != []
    ensures var first := Run(next, buf + pieces[0]);
      var later := FeedAll(next, first.rest, pieces[1..]);
      FeedAll(next, buf, pieces) == Outcome(first.items + later.items, later.rest)
  {
  }

  /** However a stream is cut, the items and the residue are those of the whole stream. */
  lemma {:induction false} AnyPieces<T(!new)>(next: bytes -> Verdict<T>, buf: bytes, pieces: seq<bytes>)
    requires Steady(next) && next(buf).Wait?
    ensures FeedAll(next, buf, pieces) == Run(next, buf + Join(pieces))
    decreases |pieces|
  {
    if pieces == [] {
      assert buf + Join(pieces) == buf;
    } else {
      var first := Run(next, buf + pieces[0]);
      RestWaits(next, buf + pieces[0]);
      AnyPieces(next, first.rest, pieces[1..]);
      Chunked(next, buf + pieces[0], Join(pieces[1..]));
      AppendAssoc(buf, pieces[0], Join(pieces[1..]));
    }
  }

  // ---- Clean streams ------------------------------------------------------

  /** `w` is a complete unit for `item`, whatever follows it. */
  ghost predicate Unit<T(!new)>(next: bytes -> Verdict<T>, w: bytes, item: T) {
    |w| > 0 && forall more :: next(w + more) == Take(|w|, item)
  }

  lemma UnitFirst<T(!new)>(next: bytes -> Verdict<T>, w: bytes, item: T, more: bytes)
    requires Steady(next) && Unit(next, w, item)
    ensures Run(next, w + more) == Outcome([item] + Run(next, more).items, Run(next, more).rest)
  {
    assert next(w + more) == Take(|w|, item);
    assert (w + more)[|w|..] == more;
    RunTake(next, w + more);
  }

  /** A concatenation of complete units is parsed into exactly their items, with nothing left. */
  lemma {:induction false} UnitsParse<T(!new)>(next: bytes -> Verdict<T>, ws: seq<bytes>, items: seq<T>, tail: bytes)
    requires Steady(next) && |ws| == |items|
    requires forall i :: 0 <= i < |ws| ==> Unit(next, ws[i], items[i])
    ensures var later := Run(next, tail);
      Run(next, Join(ws) + tail) == Outcome(items + later.items, later.rest)
    decreases |ws|
  {
    hide Steady;
    if ws == [] {
      assert Join(ws) + tail == tail;
      assert items + Run(next, tail).items == Run(next, tail).items;
    } else {
      var more := Join(ws[1..]) + tail;
      assert Join(ws) + tail == ws[0] + more;
      UnitFirst(next, ws[0], items[0], more);
      UnitsParse(next, ws[1..], items[1..], tail);
      assert items == [items[0]] + items[1..];
      AppendAssoc([items[0]], items[1..], Run(next, tail).items);
    }
  }
}

/** Line-oriented text over a byte stream: dot stuffing, the end-of-data line, and the incremental line parser. */
module TextProtocol {
  import opened Prelude
  import opened Search
  import opened Stream

  const DOT: byte := 0x2E

  function Crlf(): bytes { [0x0D, 0x0A] }

  /** The line end occurs nowhere in the line. */
  ghost predicate OneLine(line: bytes) {
    forall i: nat :: !At(line, Crlf(), i)
  }

  // ---- Lines of a text ----------------------------------------------------

  /** The pieces of a text between its line ends. */
  function SplitLines(text: bytes): (lines: seq<bytes>)
    ensures lines != []
    decreases |text|
  {
    var i := Find(text, Crlf(), 0);
    if i == -1 then [text] else [text[..i]] + SplitLines(text[i + 2..])
  }

  function JoinLines(lines: seq<bytes>): bytes
    requires lines != []
  {
    if |lines| == 1 then lines[0] else lines[0] + Crlf() + JoinLines(lines[1..])
  }

  lemma {:induction false} SplitJoin(text: bytes)
    ensures JoinLines(SplitLines(text)) == text
    ensures forall k :: 0 <= k < |SplitLines(text)| ==> OneLine(SplitLines(text)[k])
    decreases |text|
  {
    var i := Find(text, Crlf(), 0);
    FindsFirst(text, Crlf(), 0);
    if i != -1 {
      SplitJoin(text[i + 2..]);
      LineBefore(text, i);
      assert SplitLines(text)[1..] == SplitLines(text[i + 2..]);
      assert text == text[..i] + text[i..i + 2] + text[i + 2..];
    }
  }

  lemma LineBefore(text: bytes, i: nat)
    requires i <= |text| && forall j: nat :: j < i ==> !At(text, Crlf(), j)
    ensures OneLine(text[..i])
  {
    forall j: nat ensures !At(text[..i], Crlf(), j) {
      if j + 2 <= i {
        assert text[..i][j..j + 2] == text[j..j + 2];
        assert !At(text, Crlf(), j);
      }
    }
  }

  /** A line that starts with a dot gets another one. */
  function Stuffed(line: bytes): bytes {
    if |line| > 0 && line[0] == DOT then [DOT] + line else line
  }

  function Unstuffed(line: bytes): bytes {
    if |line| > 1 && line[0] == DOT && line[1] == DOT then line[1..] else line
  }

  function StuffAll(lines: seq<bytes>): (s: seq<bytes>)
    ensures |s| == |lines|
  {
    seq(|lines|, i requires 0 <= i < |lines| => Stuffed(lines[i]))
  }

  /** A text as it is sent: its lines stuffed, and the line that ends the data. */
  function EncodeText(text: bytes): bytes {
    JoinLines(StuffAll(SplitLines(text))) + Crlf() + [DOT] + Crlf()
  }

  /** No stuffed line can be taken for the end of the data, and stuffing is undone. */
  lemma StuffedBack(line: bytes)
    ensures Stuffed(line) != [DOT] && Unstuffed(Stuffed(line)) == line
    ensures OneLine(line) ==> OneLine(Stuffed(line))
  {
    var s := Stuffed(line);
    if OneLine(line) && s != line {
      forall i: nat ensures !At(s, Crlf(), i) {
        if i + 2 <= |s| {
          if i == 0 {
            assert s[0..2][0] == DOT;
          } else {
            assert s[i..i + 2] == line[i - 1..i + 1];
            assert !At(line, Crlf(), i - 1);
          }
        }
      }
    }
  }

  // ---- The line parser ----------------------------------------------------

  /** What the parser does at the front of its buffer. */
  function NextLine(buf: bytes): Verdict<bytes> {
    var i := Find(buf, Crlf(), 0);
    if i == -1 then Wait else Take(i + 2, buf[..i])
  }

  /** A line and its end are recognised, whatever follows. */
  lemma LineTaken(line: bytes, more: bytes)
    requires OneLine(line)
    ensures NextLine(line + Crlf() + more) == Take(|line| + 2, line)
  {
    var buf, n := line + Crlf() + more, |line|;
    FindsFirst(buf, Crlf(), 0);
    assert buf[n..n + 2] == Crlf() && buf[..n] == line;
    assert At(buf, Crlf(), n);
    forall i: nat | i < n ensures !At(buf, Crlf(), i) {
      if i + 2 <= n {
        assert buf[i..i + 2] == line[i..i + 2];
        assert !At(line, Crlf(), i);
      } else {
        assert buf[i..i + 2][1] == buf[n] == 0x0D;
      }
    }
  }

  /** A decision stands on a whole line at the front. */
  lemma TakenLine(buf: bytes)
    requires NextLine(buf).Take?
    ensures var n, line := NextLine(buf).n, NextLine(buf).item;
      2 <= n <= |buf| && OneLine(line) && buf == line + Crlf() + buf[n..]
  {
    var i := Find(buf, Crlf(), 0);
    FindsFirst(buf, Crlf(), 0);
    LineBefore(buf, i);
    assert buf == buf[..i] + buf[i..i + 2] + buf[i + 2..];
  }

  lemma LinesSteady()
    ensures Steady(NextLine)
  {
    forall buf: bytes, more: bytes ensures NextLine(buf).Wait? || NextLine(buf + more) == NextLine(buf) {
      if NextLine(buf).Take? {
        TakenLine(buf);
        var line, rest := NextLine(buf).item, buf[NextLine(buf).n..];
        assert buf + more == line + Crlf() + (rest + more);
        LineTaken(line, rest + more);
      }
    }
    forall buf: bytes | NextLine(buf).Take? ensures 1 <= NextLine(buf).n <= |buf| {
      TakenLine(buf);
    }
  }

  /** Lines do not depend on how the stream is cut. */
  lemma LinesChunked(a: bytes, b: bytes)
    ensures Steady(NextLine)
    ensures var first := Run(NextLine, a);
      var second := Run(NextLine, first.rest + b);
      Run(NextLine, a + b) == Outcome(first.items + second.items, second.rest)
  {
    LinesSteady();
    Chunked(NextLine, a, b);
  }

  // ---- Texts ended by a dot -----------------------------------------------

  /** The lines of a text up to its end, or as far as they have arrived. */
  datatype Text = Text(lines: seq<bytes>, complete: bool, rest: bytes)

  function ReadText(buf: bytes): Text
    decreases |buf|
  {
    match NextLine(buf)
    case Take(n, line) =>
      if 0 < n <= |buf| then
        if line == [DOT] then Text([], true, buf[n..])
        else
          var later := ReadText(buf[n..]);
          Text([Unstuffed(line)] + later.lines, later.complete, later.rest)
      else Text([], false, buf)
    case _ => Text([], false, buf)
  }

  lemma FirstLine(line: bytes, more: bytes)
    requires OneLine(line)
    ensures var later := ReadText(more);
      ReadText(line + Crlf() + more) ==
        if line == [DOT] then Text([], true, more)
        else Text([Unstuffed(line)] + later.lines, later.complete, later.rest)
  {
    LineTaken(line, more);
    assert (line + Crlf() + more)[|line| + 2..] == more;
  }

  /** Any text is read back exactly, whatever follows it. */
  lemma TextRoundTrip(text: bytes, tail: bytes)
    ensures ReadText(EncodeText(text) + tail) == Text(SplitLines(text), true, tail)
    ensures JoinLines(SplitLines(text)) == text
  {
    SplitJoin(text);
    var lines := SplitLines(text);
    ReadLines(lines, tail);
    assert EncodeText(text) + tail == JoinLines(StuffAll(lines)) + Crlf() + [DOT] + Crlf() + tail;
  }

  lemma {:induction false} ReadLines(lines: seq<bytes>, tail: bytes)
    requires lines != [] && forall k :: 0 <= k < |lines| ==> OneLine(lines[k])
    ensures ReadText(JoinLines(StuffAll(lines)) + Crlf() + [DOT] + Crlf() + tail) == Text(lines, true, tail)
    decreases |lines|
  {
    hide ReadText, OneLine, Unstuffed;
    var rest := lines[1..];
    var after :=
      if rest == [] then [DOT] + Crlf() + tail
      else JoinLines(StuffAll(rest)) + Crlf() + [DOT] + Crlf() + tail;
    StuffedBack(lines[0]);
    FrontLine(lines, tail);
    FirstLine(Stuffed(lines[0]), after);
    if rest == [] {
      DotEnds(tail);
      assert [lines[0]] + [] == lines;
    } else {
      ReadLines(rest, tail);
      assert [lines[0]] + rest == lines;
    }
  }

  lemma DotEnds(tail: bytes)
    ensures ReadText([DOT] + Crlf() + tail) == Text([], true, tail)
  {
    FirstLine([DOT], tail);
  }

  lemma FrontLine(lines: seq<bytes>, tail: bytes)
    requires lines != []
    ensures var rest := lines[1..];
      JoinLines(StuffAll(lines)) + Crlf() + [DOT] + Crlf() + tail
      == Stuffed(lines[0]) + Crlf()
         + if rest == [] then [DOT] + Crlf() + tail else JoinLines(StuffAll(rest)) + Crlf() + [DOT] + Crlf() + tail
  {
    if |lines| > 1 { assert StuffAll(lines)[1..] == StuffAll(lines[1..]); }
  }

  /** Reading what has arrived and later the rest gives the text that reading it all at once gives. */
  lemma {:induction false} TextChunked(a: bytes, b: bytes)
    ensures var first := ReadText(a);
      ReadText(a + b) ==
        if first.complete then first.(rest := first.rest + b)
        else var second := ReadText(first.rest + b); second.(lines := first.lines + second.lines)
    decreases |a|
  {
    if NextLine(a).Take? {
      TakenLine(a);
      var line, more := NextLine(a).item, a[NextLine(a).n..];
      assert a + b == line + Crlf() + (more + b);
      FirstLine(line, more);
      FirstLine(line, more + b);
      if line != [DOT] {
        TextChunked(more, b);
        var first := ReadText(more);
        AppendAssoc([Unstuffed(line)], first.lines, ReadText(first.rest + b).lines);
      }
    } else {
      assert [] + ReadText(a + b).lines == ReadText(a + b).lines;
    }
  }

  /** Pieces read one after another until the text is complete. */
  function ReadPieces(buf: bytes, pieces: seq<bytes>): Text
    decreases |pieces|
  {
    if pieces == [] then Text([], false, buf)
    else
      var first := ReadText(buf + pieces[0]);
      if first.complete then first.(rest := first.rest + Join(pieces[1..]))
      else
        var later := ReadPieces(first.rest, pieces[1..]);
        later.(lines := first.lines + later.lines)
  }

  lemma {:induction false} PiecesAgree(buf: bytes, pieces: seq<bytes>)
    requires pieces != []
    ensures ReadPieces(buf, pieces) == ReadText(buf + Join(pieces))
    decreases |pieces|
  {
    hide ReadText;
    var first, later := ReadText(buf + pieces[0]), Join(pieces[1..]);
    TextChunked(buf + pieces[0], later);
    assert buf + Join(pieces) == buf + pieces[0] + later;
    if !first.complete {
      if |pieces| > 1 {
        PiecesAgree(first.rest, pieces[1..]);
      } else {
        ReadAgain(buf + pieces[0]);
        assert first.rest + [] == first.rest;
        assert buf + pieces[0] + [] == buf + pieces[0];
      }
    }
  }

  /** What is left of an incomplete text holds no whole line. */
  lemma {:induction false} ReadAgain(buf: bytes)
    requires !ReadText(buf).complete
    ensures ReadText(ReadText(buf).rest) == Text([], false, ReadText(buf).rest)
    decreases |buf|
  {
    if NextLine(buf).Take? {
      TakenLine(buf);
      ReadAgain(buf[NextLine(buf).n..]);
    }
  }

  /** However the stream is cut, exactly the text that was sent is read, and what follows it is left for later. */
  lemma TextInPieces(text: bytes, tail: bytes, pieces: seq<bytes>)
    requires Join(pieces) == EncodeText(text) + tail
    ensures ReadPieces([], pieces) == Text(SplitLines(text), true, tail)
    ensures JoinLines(SplitLines(text)) == text
  {
    TextRoundTrip(text, tail);
    PiecesAgree([], pieces);
    assert [] + Join(pieces) == Join(pieces);
  }

  class TextProtocolParser {
    var buffer: bytes

    constructor ()
      ensures buffer == []
    {
      buffer := [];
    }

    /** Adds bytes and returns the lines that they complete. */
    method Feed(data: bytes) returns (lines: seq<bytes>)
      modifies this
      ensures Steady(NextLine) && Outcome(lines, buffer) == Run(NextLine, old(buffer) + data)
    {
      LinesSteady();
      buffer := buffer + data;
      ghost var all := buffer;
      lines := [];
      var idx := Find(buffer, Crlf(), 0);
      while idx != -1
        invariant idx == Find(buffer, Crlf(), 0)
        invariant Run(NextLine, all) == Behind(lines, Run(NextLine, buffer))
        decreases |buffer|
      {
        LineOff(lines, buffer);
        lines := lines + [buffer[..idx]];
        buffer := buffer[idx + 2..];
        idx := Find(buffer, Crlf(), 0);
      }
      assert lines + [] == lines;
    }

    /** Adds bytes and returns the lines of a text, up to its end if that has arrived. */
    method FeedMultiline(data: bytes) returns (lines: seq<bytes>, complete: bool)
      modifies this
      ensures Text(lines, complete, buffer) == ReadText(old(buffer) + data)
    {
      buffer := buffer + data;
      ghost var all := buffer;
      lines, complete := [], false;
      var idx := Find(buffer, Crlf(), 0);
      while idx != -1
        invariant idx == Find(buffer, Crlf(), 0) && !complete
        invariant ReadText(all) == After(lines, ReadText(buffer))
        decreases |buffer|
      {
        TextOff(lines, buffer);
        var line := buffer[..idx];
        buffer := buffer[idx + 2..];
        if line == [DOT] {
          complete := true;
          break;
        }
        lines := lines + [Unstuffed(line)];
        idx := Find(buffer, Crlf(), 0);
      }
      assert lines + [] == lines;
    }

    method Reset()
      modifies this
      ensures buffer == []
    {
      buffer := [];
    }
  }

  function Behind(done: seq<bytes>, run: Outcome<bytes>): Outcome<bytes> {
    Outcome(done + run.items, run.rest)
  }

  function After(done: seq<bytes>, t: Text): Text {
    t.(lines := done + t.lines)
  }

  lemma LineOff(done: seq<bytes>, buf: bytes)
    requires Steady(NextLine) && NextLine(buf).Take?
    ensures var i := Find(buf, Crlf(), 0);
      Behind(done, Run(NextLine, buf)) == Behind(done + [buf[..i]], Run(NextLine, buf[i + 2..]))
  {
    RunTake(NextLine, buf);
    MoveOne(done, NextLine(buf).item, Run(NextLine, buf[NextLine(buf).n..]).items);
  }

  lemma TextOff(done: seq<bytes>, buf: bytes)
    requires NextLine(buf).Take?
    ensures var i := Find(buf, Crlf(), 0);
      After(done, ReadText(buf)) ==
        if buf[..i] == [DOT] then Text(done, true, buf[i + 2..])
        else After(done + [Unstuffed(buf[..i])], ReadText(buf[i + 2..]))
  {
    var i := Find(buf, Crlf(), 0);
    assert done + [] == done;
    MoveOne(done, Unstuffed(buf[..i]), ReadText(buf[i + 2..]).lines);
  }
}

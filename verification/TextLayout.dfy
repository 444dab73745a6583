/** The octets of a text on the wire, read off octet by octet instead of line by line. */
module TextLayout {
  import opened Prelude
  import opened Search
  import opened TextProtocol

  /** Octet `k` begins a line: it is the first one, or CR LF stand before it. */
  predicate BeginsLine(text: bytes, k: nat)
    requires k < |text|
  {
    k == 0 || (k >= 2 && text[k - 2] == 13 && text[k - 1] == 10)
  }

  /** The text from octet `k` on, with every dot that begins a line doubled. */
  function Doubled(text: bytes, k: nat): bytes
    requires k <= |text|
    decreases |text| - k
  {
    if k == |text| then []
    else (if text[k] == 46 && BeginsLine(text, k) then [46, 46] else [text[k]]) + Doubled(text, k + 1)
  }

  lemma OneOctet(text: bytes, k: nat)
    requires k < |text|
    ensures text[k] == 46 && BeginsLine(text, k) ==> Doubled(text, k) == [46, 46] + Doubled(text, k + 1)
    ensures !(text[k] == 46 && BeginsLine(text, k)) ==> Doubled(text, k) == [text[k]] + Doubled(text, k + 1)
  {
  }

  /** Octets of which none is a dot that begins a line stay as they are. */
  lemma {:induction false} PlainRun(text: bytes, lo: nat, hi: nat)
    requires lo <= hi <= |text| && forall k :: lo <= k < hi ==> !(text[k] == 46 && BeginsLine(text, k))
    ensures Doubled(text, lo) == text[lo..hi] + Doubled(text, hi)
    decreases hi - lo
  {
    hide Doubled, BeginsLine;
    if lo < hi {
      OneOctet(text, lo);
      PlainRun(text, lo + 1, hi);
      assert text[lo..hi] == [text[lo]] + text[lo + 1..hi];
    } else {
      assert text[lo..hi] == [];
    }
  }

  /** What is sent of the first line of a text, and of the rest. */
  lemma FirstOfLines(rest: bytes)
    ensures var i, sent := Find(rest, Crlf(), 0), JoinLines(StuffAll(SplitLines(rest)));
      if i == -1 then sent == Stuffed(rest)
      else sent == Stuffed(rest[..i]) + Crlf() + JoinLines(StuffAll(SplitLines(rest[i + 2..])))
  {
    hide Find, Stuffed, StuffAll, JoinLines;
    var i := Find(rest, Crlf(), 0);
    if i == -1 {
      assert SplitLines(rest) == [rest];
      SentAlone(rest);
    } else {
      assert SplitLines(rest) == [rest[..i]] + SplitLines(rest[i + 2..]);
      SentFirst(rest[..i], SplitLines(rest[i + 2..]));
    }
  }

  lemma SentAlone(line: bytes)
    ensures JoinLines(StuffAll([line])) == Stuffed(line)
  {
    hide Stuffed;
    assert StuffAll([line]) == [Stuffed(line)];
  }

  lemma SentFirst(line: bytes, more: seq<bytes>)
    requires more != []
    ensures JoinLines(StuffAll([line] + more)) == Stuffed(line) + Crlf() + JoinLines(StuffAll(more))
  {
    hide Stuffed, Crlf;
    var s := StuffAll([line] + more);
    assert s[1..] == StuffAll(more);
  }

  /** No line end stands before octet `i` of this rest. */
  lemma InsideLine(text: bytes, s: nat, i: nat, k: nat)
    requires s < k < s + i <= |text| && (s == 0 || (s >= 2 && text[s - 2] == 13 && text[s - 1] == 10))
    requires forall j: nat :: j < i ==> !At(text[s..], Crlf(), j)
    ensures !BeginsLine(text, k)
  {
    if k >= s + 2 {
      var rest, j := text[s..], k - 2 - s;
      assert !At(rest, Crlf(), j);
      assert rest[j] == text[k - 2] && rest[j + 1] == text[k - 1];
      assert rest[j..j + 2] == [rest[j], rest[j + 1]];
    }
  }

  /** The rest of a text that begins a line. */
  lemma {:induction false} FromLine(text: bytes, s: nat)
    requires s <= |text| && (s == 0 || (s >= 2 && text[s - 2] == 13 && text[s - 1] == 10))
    ensures JoinLines(StuffAll(SplitLines(text[s..]))) == Doubled(text, s)
    decreases |text| - s
  {
    hide Doubled, BeginsLine, JoinLines, StuffAll, SplitLines, Stuffed, Find;
    var rest := text[s..];
    var i := Find(rest, Crlf(), 0);
    FindsFirst(rest, Crlf(), 0);
    FirstOfLines(rest);
    var n := if i == -1 then |rest| else i;
    forall k | s < k < s + n ensures !BeginsLine(text, k) {
      InsideLine(text, s, n, k);
    }
    FirstOctet(text, s, n);
    if i == -1 {
      assert text[s..s + n] == rest;
      AtEnd(text);
    } else {
      LineEnd(text, s, i);
      assert rest[..i] == text[s..s + i] && rest[i + 2..] == text[s + i + 2..];
      FromLine(text, s + i + 2);
      AppendAssoc(Stuffed(rest[..i]), Crlf(), Doubled(text, s + i + 2));
    }
  }

  lemma AtEnd(text: bytes)
    ensures Doubled(text, |text|) == []
  {
  }

  /** A line end goes out as it is. */
  lemma LineEnd(text: bytes, s: nat, i: nat)
    requires s <= |text| && At(text[s..], Crlf(), i)
    ensures s + i + 2 <= |text| && text[s + i] == 13 && text[s + i + 1] == 10
    ensures Doubled(text, s + i) == Crlf() + Doubled(text, s + i + 2)
  {
    hide Doubled, BeginsLine;
    assert text[s..][i..i + 2] == text[s + i..s + i + 2];
    assert text[s + i] == text[s + i..s + i + 2][0] && text[s + i + 1] == text[s + i..s + i + 2][1];
    PlainRun(text, s + i, s + i + 2);
  }

  /** One line: only its first octet can be a dot that begins it. */
  lemma FirstOctet(text: bytes, s: nat, n: nat)
    requires s + n <= |text| && (s == 0 || (s >= 2 && text[s - 2] == 13 && text[s - 1] == 10))
    requires forall k :: s < k < s + n ==> !BeginsLine(text, k)
    ensures Doubled(text, s) == Stuffed(text[s..s + n]) + Doubled(text, s + n)
  {
    if n == 0 {
      assert text[s..s + n] == [];
    } else {
      hide Doubled, Stuffed;
      var line, more := text[s..s + n], Doubled(text, s + n);
      OneOctet(text, s);
      PlainRun(text, s + 1, s + n);
      assert BeginsLine(text, s) && line[0] == text[s] && line[1..] == text[s + 1..s + n];
      StuffedIs(line);
      AppendAssoc(if line[0] == 46 then [46, 46] else [line[0]], line[1..], more);
    }
  }

  lemma StuffedIs(line: bytes)
    requires line != []
    ensures Stuffed(line) == (if line[0] == 46 then [46, 46] else [line[0]]) + line[1..]
  {
    assert line == [line[0]] + line[1..];
  }

  /**
    * A text goes out with every dot that begins a line doubled, nothing else changed, and ended by CR LF, a dot and
    * CR LF.
    */
  lemma TextOctets(text: bytes)
    ensures EncodeText(text) == Doubled(text, 0) + [13, 10, 46, 13, 10]
  {
    hide Doubled, JoinLines, StuffAll, SplitLines;
    FromLine(text, 0);
    assert text[0..] == text;
  }
}

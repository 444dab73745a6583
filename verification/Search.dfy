/** Searching a byte buffer for a fixed pattern. */
module Search {
  import opened Prelude

  /** The pattern occurs at position `i`. */
  predicate At(buf: bytes, pattern: bytes, i: nat) {
    i + |pattern| <= |buf| && buf[i..i + |pattern|] == pattern
  }

  /** The first occurrence at or after `from`, or -1: the program's `buf.find(pattern, from)`. */
  function Find(buf: bytes, pattern: bytes, from: nat): (r: int)
    ensures r == -1 || from <= r <= |buf| - |pattern|
    decreases |buf| - from
  {
    if from + |pattern| > |buf| then -1
    else if At(buf, pattern, from) then from
    else Find(buf, pattern, from + 1)
  }

  /** What the search finds is the first occurrence; when it finds none there is none. */
  lemma {:induction false} FindsFirst(buf: bytes, pattern: bytes, from: nat)
    ensures var r := Find(buf, pattern, from);
      && (r == -1 ==> forall i: nat :: from <= i ==> !At(buf, pattern, i))
      && (r != -1 ==> At(buf, pattern, r) && forall i: nat :: from <= i < r ==> !At(buf, pattern, i))
    decreases |buf| - from
  {
    if from + |pattern| <= |buf| && !At(buf, pattern, from) {
      FindsFirst(buf, pattern, from + 1);
    }
  }
}

/** Values shared by the whole model. */
module Prelude {

  /** A result that may be missing (`None` in the program). */
  datatype Option<+T> = None | Some(value: T)

  /** A value, or the error that the program raises instead. */
  datatype Result<+T, +E> = Ok(value: T) | Err(error: E)

  /** One octet. */
  type byte = x: int | 0 <= x < 256

  type bytes = seq<byte>

  /** The concatenation of a list of byte strings, as `b"".join` computes it. */
  function Join<T>(parts: seq<seq<T>>): seq<T> {
    if parts == [] then [] else parts[0] + Join(parts[1..])
  }

  lemma {:induction false} JoinConcat<T>(a: seq<seq<T>>, b: seq<seq<T>>)
    ensures Join(a + b) == Join(a) + Join(b)
  {
    if a == [] {
      assert a + b == b;
    } else {
      JoinConcat(a[1..], b);
      assert (a + b)[1..] == a[1..] + b;
      AppendAssoc(a[0], Join(a[1..]), Join(b));
    }
  }

  /** Joining after one more part appends that part. */
  lemma JoinSnoc<T>(a: seq<seq<T>>, x: seq<T>)
    ensures Join(a + [x]) == Join(a) + x
  {
    JoinConcat(a, [x]);
    assert Join([x]) == x + Join([]) == x;
  }

  lemma AppendAssoc<T>(a: seq<T>, b: seq<T>, c: seq<T>)
    ensures a + (b + c) == (a + b) + c
  {
  }

  /** Moving one element from the front of the remainder to the end of what is done. */
  lemma MoveOne<T>(done: seq<T>, x: T, later: seq<T>)
    ensures done + ([x] + later) == (done + [x]) + later
  {
  }

  /** The elements that satisfy a condition, as often and in the same order. */
  function Filter<T>(p: T -> bool, s: seq<T>): seq<T> {
    if s == [] then [] else (if p(s[0]) then [s[0]] else []) + Filter(p, s[1..])
  }
}

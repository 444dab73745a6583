/** Cutting a byte string into consecutive pieces of a maximum size. */
module Chunking {
  import opened Bits
  import opened Prelude

  /** The pieces of `p` of size `n`, the last one possibly shorter. */
  function Chunks(p: bytes, n: nat): (cs: seq<bytes>)
    requires n > 0
    ensures p == [] <==> cs == []
    decreases |p|
  {
    if p == [] then []
    else if |p| <= n then [p]
    else [p[..n]] + Chunks(p[n..], n)
  }

  /** Taking one piece off the front. */
  lemma ChunksStep(p: bytes, n: nat, from: nat)
    requires n > 0 && from < |p|
    ensures var end := if from + n < |p| then from + n else |p|;
      Chunks(p[from..], n) == [p[from..end]] + Chunks(p[end..], n)
  {
    var rest := p[from..];
    if |rest| > n {
      assert rest[..n] == p[from..from + n];
      assert rest[n..] == p[from + n..];
    } else {
      assert rest == p[from..|p|] && p[|p|..] == [];
    }
  }

  /** The pieces partition the byte string: none is empty, none is too long, and joined they give it back. */
  lemma {:induction false} ChunksPartition(p: bytes, n: nat)
    requires n > 0
    ensures Join(Chunks(p, n)) == p
    ensures forall i :: 0 <= i < |Chunks(p, n)| ==> 0 < |Chunks(p, n)[i]| <= n
    decreases |p|
  {
    if p == [] {
    } else if |p| <= n {
      assert [p][1..] == [];
      assert Join([p]) == p + Join([p][1..]);
    } else {
      ChunksPartition(p[n..], n);
      JoinConcat([p[..n]], Chunks(p[n..], n));
      JoinSnoc([], p[..n]);
      assert [] + [p[..n]] == [p[..n]];
      assert p == p[..n] + p[n..];
    }
  }

  /** The number of pieces is the length divided by the piece size, rounded up. */
  lemma {:induction false} ChunkCount(p: bytes, n: nat)
    requires n > 0
    ensures |Chunks(p, n)| == (|p| + n - 1) / n
    decreases |p|
  {
    if p == [] {
    } else if |p| <= n {
      DivOne(|p| + n - 1, n);
    } else {
      ChunkCount(p[n..], n);
      DivStep(|p| - 1, n);
    }
  }

  /** Every piece sits at its own multiple of the piece size. */
  lemma {:induction false} ChunkAt(p: bytes, n: nat, i: nat)
    requires n > 0 && i < |Chunks(p, n)|
    ensures 0 <= i * n < |p|
    ensures i * n + |Chunks(p, n)[i]| <= |p|
    ensures Chunks(p, n)[i] == p[i * n..i * n + |Chunks(p, n)[i]|]
    ensures i + 1 < |Chunks(p, n)| ==> |Chunks(p, n)[i]| == n
    ensures i + 1 == |Chunks(p, n)| <==> i * n + |Chunks(p, n)[i]| == |p|
    decreases i
  {
    ChunksPartition(p, n);
    if |p| <= n {
    } else if i == 0 {
      ChunksPartition(p[n..], n);
      assert Chunks(p[n..], n) != [];
    } else {
      ChunkAt(p[n..], n, i - 1);
      assert (i - 1) * n + n == i * n;
    }
  }

  lemma DivOne(x: int, n: nat)
    requires 0 < n <= x < 2 * n
    ensures x / n == 1
  {
    DivIs(x, n, 1, x - n);
  }

  lemma DivStep(x: int, n: nat)
    requires n > 0 && x >= 0
    ensures (x + n) / n == x / n + 1
  {
    var q, m := x / n, x % n;
    assert x + n == n * (q + 1) + m;
    DivIs(x + n, n, q + 1, m);
  }
}

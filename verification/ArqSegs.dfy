/** The segments of all submitted C_PDUs laid end to end, indexed by absolute sequence number. */
module ArqSegs {
  import opened Prelude
  import opened ArqTypes
  import opened Chunking

  datatype Seg = Seg(chunk: bytes, pduStart: bool, pduEnd: bool)

  function CpduSegs(p: bytes): seq<Seg> {
    var cs := Chunks(p, MAX_DATA_BYTES);
    seq(|cs|, i requires 0 <= i < |cs| => Seg(cs[i], i == 0, i == |cs| - 1))
  }

  function AllSegs(subs: seq<Cpdu>): seq<Seg> {
    if subs == [] then [] else AllSegs(subs[..|subs| - 1]) + CpduSegs(subs[|subs| - 1].payload)
  }

  /** Absolute sequence number of the first segment of the `k`-th C_PDU. */
  function Base(subs: seq<Cpdu>, k: nat): nat
    requires k <= |subs|
  {
    |AllSegs(subs[..k])|
  }

  /** Every C_PDU is non-empty and fits the window. */
  predicate Admissible(subs: seq<Cpdu>) {
    forall p :: p in subs ==> 0 < |CpduSegs(p.payload)| <= WINDOW
  }

  function Payloads(subs: seq<Cpdu>): seq<bytes> {
    seq(|subs|, i requires 0 <= i < |subs| => subs[i].payload)
  }

  function Data(segs: seq<Seg>): bytes {
    if segs == [] then [] else Data(segs[..|segs| - 1]) + segs[|segs| - 1].chunk
  }

  lemma {:induction false} SegsPrefix(subs: seq<Cpdu>, k: nat)
    requires k <= |subs|
    ensures AllSegs(subs[..k]) <= AllSegs(subs)
    decreases |subs|
  {
    if k == |subs| {
      assert subs[..k] == subs;
    } else {
      SegsPrefix(subs[..|subs| - 1], k);
      assert subs[..|subs| - 1][..k] == subs[..k];
    }
  }

  /** The segments of the `k`-th C_PDU fill the numbers from its base to the next base. */
  lemma CpduAt(subs: seq<Cpdu>, k: nat)
    requires k < |subs|
    ensures Base(subs, k + 1) == Base(subs, k) + |CpduSegs(subs[k].payload)| <= |AllSegs(subs)|
    ensures AllSegs(subs)[Base(subs, k)..Base(subs, k + 1)] == CpduSegs(subs[k].payload)
  {
    SegsPrefix(subs, k + 1);
    assert subs[..k + 1][..k] == subs[..k];
  }

  /** The flags of the segments of the `k`-th C_PDU, by absolute number. */
  lemma SegAt(subs: seq<Cpdu>, k: nat, s: nat)
    requires k < |subs|
    requires Base(subs, k) <= s < Base(subs, k + 1)
    ensures Base(subs, k + 1) == Base(subs, k) + |CpduSegs(subs[k].payload)| <= |AllSegs(subs)|
    ensures AllSegs(subs)[s] == CpduSegs(subs[k].payload)[s - Base(subs, k)]
    ensures AllSegs(subs)[s].pduStart <==> s == Base(subs, k)
    ensures AllSegs(subs)[s].pduEnd <==> s == Base(subs, k + 1) - 1
  {
    CpduAt(subs, k);
    SliceAt(AllSegs(subs), Base(subs, k), Base(subs, k + 1), s);
  }

  lemma SliceAt(all: seq<Seg>, lo: nat, hi: nat, s: nat)
    requires lo <= s < hi <= |all|
    ensures all[lo..hi][s - lo] == all[s]
  {
  }

  lemma {:induction false} DataJoin(segs: seq<Seg>, chunks: seq<bytes>)
    requires |segs| == |chunks|
    requires forall i :: 0 <= i < |segs| ==> segs[i].chunk == chunks[i]
    ensures Data(segs) == Join(chunks)
    decreases |segs|
  {
    if segs != [] {
      var n := |segs| - 1;
      DataJoin(segs[..n], chunks[..n]);
      JoinSnoc(chunks[..n], chunks[n]);
      assert chunks == chunks[..n] + [chunks[n]];
    }
  }

  /** The data of the segments of a C_PDU is the C_PDU. */
  lemma CpduData(p: bytes)
    ensures Data(CpduSegs(p)) == p
    ensures |CpduSegs(p)| == (|p| + 1022) / 1023
  {
    ChunksPartition(p, MAX_DATA_BYTES);
    ChunkCount(p, MAX_DATA_BYTES);
    DataJoin(CpduSegs(p), Chunks(p, MAX_DATA_BYTES));
  }

  /** Submitting another C_PDU leaves earlier numbers unchanged. */
  lemma Append(subs: seq<Cpdu>, p: Cpdu)
    ensures AllSegs(subs) <= AllSegs(subs + [p])
    ensures forall k :: 0 <= k <= |subs| ==> Base(subs + [p], k) == Base(subs, k)
  {
    assert (subs + [p])[..|subs|] == subs;
    forall k | 0 <= k <= |subs| ensures Base(subs + [p], k) == Base(subs, k) {
      assert (subs + [p])[..k] == subs[..k];
    }
  }

  /** Number `r` lies at or after the base of the `k`-th C_PDU and before the next base. */
  predicate InCpdu(subs: seq<Cpdu>, r: nat, k: nat) {
    k <= |subs| && Base(subs, k) <= r && (k < |subs| ==> r < Base(subs, k + 1))
  }

  lemma {:induction false} BaseMonotone(subs: seq<Cpdu>, a: nat, b: nat)
    requires Admissible(subs) && a <= b <= |subs|
    ensures Base(subs, a) + (b - a) <= Base(subs, b)
    decreases b - a
  {
    if a < b {
      BaseMonotone(subs, a, b - 1);
      CpduAt(subs, b - 1);
      assert subs[b - 1] in subs;
    }
  }

  /** The C_PDU a number lies in is unique. */
  lemma InCpduUnique(subs: seq<Cpdu>, r: nat, a: nat, b: nat)
    requires Admissible(subs) && InCpdu(subs, r, a) && InCpdu(subs, r, b)
    ensures a == b
  {
    if a < b { BaseMonotone(subs, a + 1, b); }
    if b < a { BaseMonotone(subs, b + 1, a); }
  }
}

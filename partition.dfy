/** Block partition of the body indices [0, n) over w MPI ranks: every rank gets n div w
    indices and the first n mod w ranks one more; rank r owns the half-open range
    [starts[r], starts[r] + counts[r]), where starts is the exclusive prefix sum of counts. */
module Partition {

  /** A half-open index range, as Python's `slice(start, stop)`. */
  datatype Slice = Slice(start: nat, stop: nat) {
    predicate Contains(i: int) {
      start <= i < stop
    }
  }

  /** Sum of a sequence of counts. */
  function Total(s: seq<nat>): nat {
    if s == [] then 0 else Total(s[..|s| - 1]) + s[|s| - 1]
  }

  /** Number of indices rank r receives. */
  function Count(n: nat, w: nat, r: nat): nat
    requires w > 0
  {
    n / w + (if r < n % w then 1 else 0)
  }

  /** The whole `counts` array, one entry per rank. */
  function Counts(n: nat, w: nat): (c: seq<nat>)
    requires w > 0
    ensures |c| == w
  {
    seq(w, r requires 0 <= r => Count(n, w, r))
  }

  /** First index owned by rank r (for r == w, one past the last index of the last rank). */
  function Start(n: nat, w: nat, r: nat): nat
    requires w > 0 && r <= w
  {
    Total(Counts(n, w)[..r])
  }

  /** The `local` slice of rank r. */
  function RankSlice(n: nat, w: nat, r: nat): Slice
    requires w > 0 && r < w
  {
    Slice(Start(n, w, r), Start(n, w, r) + Count(n, w, r))
  }

  lemma TotalSnoc(s: seq<nat>, k: nat)
    requires k < |s|
    ensures Total(s[..k + 1]) == Total(s[..k]) + s[k]
  {
    assert s[..k + 1][..k] == s[..k];
  }

  /** Consecutive ranges touch: rank r stops where rank r + 1 starts. */
  lemma StartStep(n: nat, w: nat, r: nat)
    requires w > 0 && r < w
    ensures Start(n, w, r + 1) == Start(n, w, r) + Count(n, w, r)
    ensures RankSlice(n, w, r).stop == Start(n, w, r + 1)
  {
    TotalSnoc(Counts(n, w), r);
  }

  /** Closed form of the prefix sum: r full blocks plus one extra index for each of the
      first min(r, n mod w) ranks. */
  lemma {:induction false} StartClosedForm(n: nat, w: nat, r: nat)
    requires w > 0 && r <= w
    ensures Start(n, w, r) == r * (n / w) + (if r < n % w then r else n % w)
  {
    if r > 0 {
      StartClosedForm(n, w, r - 1);
      StartStep(n, w, r - 1);
      ClosedFormStep(r, n / w, n % w);
    } else {
      assert Counts(n, w)[..0] == [];
    }
  }

  /** The arithmetic of one step of the closed form, with q = n div w and e = n mod w. */
  lemma ClosedFormStep(r: nat, q: nat, e: nat)
    requires r > 0
    ensures (r - 1) * q + (if r - 1 < e then r - 1 else e) + (q + (if r - 1 < e then 1 else 0))
         == r * q + (if r < e then r else e)
  {
    assert r * q == (r - 1) * q + q;
  }

  /** The counts add up to n: no index is lost or duplicated by the split. */
  lemma CountsSumToN(n: nat, w: nat)
    requires w > 0
    ensures Total(Counts(n, w)) == n
    ensures Start(n, w, w) == n
  {
    StartClosedForm(n, w, w);
    assert Counts(n, w)[..w] == Counts(n, w);
  }

  /** The counts are non-increasing in the rank and differ by at most one. */
  lemma CountsBalanced(n: nat, w: nat, r1: nat, r2: nat)
    requires w > 0 && r1 <= r2 < w
    ensures Count(n, w, r2) <= Count(n, w, r1) <= Count(n, w, r2) + 1
  {
  }

  lemma {:induction false} StartMonotone(n: nat, w: nat, r1: nat, r2: nat)
    requires w > 0 && r1 <= r2 <= w
    ensures Start(n, w, r1) <= Start(n, w, r2)
  {
    if r1 < r2 {
      StartMonotone(n, w, r1, r2 - 1);
      StartStep(n, w, r2 - 1);
    }
  }

  /** No index is owned by two ranks. */
  lemma SlicesDisjoint(n: nat, w: nat, r1: nat, r2: nat, i: int)
    requires w > 0 && r1 < w && r2 < w && r1 != r2
    ensures !(RankSlice(n, w, r1).Contains(i) && RankSlice(n, w, r2).Contains(i))
  {
    if r1 < r2 {
      StartStep(n, w, r1);
      StartMonotone(n, w, r1 + 1, r2);
    } else {
      StartStep(n, w, r2);
      StartMonotone(n, w, r2 + 1, r1);
    }
  }

  lemma {:induction false} CoveredBelow(n: nat, w: nat, k: nat, i: int)
    requires w > 0 && k <= w && 0 <= i < Start(n, w, k)
    ensures exists r :: 0 <= r < k && RankSlice(n, w, r).Contains(i)
  {
    if k > 0 {
      StartStep(n, w, k - 1);
      if i < Start(n, w, k - 1) {
        CoveredBelow(n, w, k - 1, i);
      } else {
        assert RankSlice(n, w, k - 1).Contains(i);
      }
    }
  }

  /** The ranges cover [0, n) exactly: an index is owned by some rank iff it is below n. */
  lemma SlicesCover(n: nat, w: nat, i: int)
    requires w > 0
    ensures (exists r :: 0 <= r < w && RankSlice(n, w, r).Contains(i)) <==> 0 <= i < n
  {
    CountsSumToN(n, w);
    if 0 <= i < n {
      CoveredBelow(n, w, w, i);
    }
    forall r | 0 <= r < w && RankSlice(n, w, r).Contains(i)
      ensures 0 <= i < n
    {
      StartStep(n, w, r);
      StartMonotone(n, w, r + 1, w);
    }
  }

  /** Every slice is a well-formed range inside [0, n). */
  lemma SliceWithin(n: nat, w: nat, r: nat)
    requires w > 0 && r < w
    ensures RankSlice(n, w, r).start <= RankSlice(n, w, r).stop <= n
  {
    StartStep(n, w, r);
    StartMonotone(n, w, r + 1, w);
    CountsSumToN(n, w);
  }

  /** More ranks than bodies: rank r < n owns exactly index r, and every rank r >= n gets
      the empty range [n, n) rather than an error. */
  lemma OversubscribedRanks(n: nat, w: nat, r: nat)
    requires n < w && r < w
    ensures r < n ==> RankSlice(n, w, r) == Slice(r, r + 1)
    ensures n <= r ==> RankSlice(n, w, r) == Slice(n, n)
  {
    DivSmall(n, w);
    StartClosedForm(n, w, r);
  }

  lemma DivSmall(n: nat, w: nat)
    requires n < w
    ensures n / w == 0 && n % w == n
  {
  }

  /** With a single rank the one slice is the whole body range. */
  lemma SingleRankOwnsAll(n: nat)
    ensures RankSlice(n, 1, 0) == Slice(0, n)
  {
    assert Counts(n, 1)[..0] == [];
  }

  /** `counts = np.full(size, N // size)` then `counts[:N % size] += 1`, in place. */
  method BlockCounts(n: nat, w: nat) returns (counts: seq<nat>)
    requires w > 0
    ensures counts == Counts(n, w)
    ensures Total(counts) == n
  {
    var a := new nat[w](_ => n / w);
    for r := 0 to n % w
      invariant forall q :: 0 <= q < w ==> a[q] == n / w + (if q < r then 1 else 0)
    {
      a[r] := a[r] + 1;
    }
    counts := a[..];
    CountsSumToN(n, w);
  }

  /** `starts = np.insert(np.cumsum(counts)[:-1], 0, 0)`: the exclusive prefix sum. */
  method BlockStarts(counts: seq<nat>) returns (starts: seq<nat>)
    requires |counts| > 0
    ensures |starts| == |counts|
    ensures forall r :: 0 <= r < |counts| ==> starts[r] == Total(counts[..r])
  {
    var a := new nat[|counts|];
    var acc := 0;
    for r := 0 to |counts|
      invariant acc == Total(counts[..r])
      invariant forall q :: 0 <= q < r ==> a[q] == Total(counts[..q])
    {
      a[r] := acc;
      TotalSnoc(counts, r);
      acc := acc + counts[r];
    }
    starts := a[..];
  }

  /** Lines computing `counts`, `starts` and `local = slice(starts[rank], starts[rank] +
      counts[rank])` for one rank. */
  method LocalSlice(n: nat, w: nat, rank: nat) returns (local: Slice)
    requires w > 0 && rank < w
    ensures local == RankSlice(n, w, rank)
    ensures local.start <= local.stop <= n
  {
    var counts := BlockCounts(n, w);
    var starts := BlockStarts(counts);
    local := Slice(starts[rank], starts[rank] + counts[rank]);
    SliceWithin(n, w, rank);
  }
}

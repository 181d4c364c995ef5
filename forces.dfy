/** The row-partitioned gravitational force pass. Each rank zeroes a local (N, 3) array and
    fills only the rows of its own slice; the rows of all ranks are then added element-wise
    by a sum reduction (MPI `Allreduce` with `op=SUM`). The 1 / d2^1.5 factor of the source
    (`np.power(dist2, 1.5)`) is the parameter `kernel`, applied to the squared distance. */
module Forces {
  import opened Vectors
  import opened Partition

  /** Gravitational constant, as both programs define it. */
  const G: real := 6.67430e-11

  /** Force that body j exerts on body i: `rij * G * m[i] * m[j] * inv_r3`, where the
      `dist2 > 0` mask leaves `inv_r3` at zero for coincident positions, j == i included. */
  function Contribution(kernel: real -> real, p: seq<Vec3>, m: seq<real>, i: nat, j: nat): (c: Vec3)
    requires |m| == |p| && i < |p| && j < |p|
    ensures p[j] == p[i] ==> c == Zero
    ensures i == j ==> c == Zero
  {
    var rij := Sub(p[j], p[i]);
    var dist2 := Dot(rij, rij);
    if dist2 > 0.0 then Scale(G * m[i] * m[j] * kernel(dist2), rij) else Zero
  }

  /** Sum of the contributions of bodies 0 .. k-1 on body i. */
  function RowUpTo(kernel: real -> real, p: seq<Vec3>, m: seq<real>, i: nat, k: nat): Vec3
    requires |m| == |p| && i < |p| && k <= |p|
  {
    if k == 0 then Zero
    else Add(RowUpTo(kernel, p, m, i, k - 1), Contribution(kernel, p, m, i, k - 1))
  }

  /** Net force on body i: `forces_local[i] = (rij * coef[:, None]).sum(axis=0)`. */
  function Row(kernel: real -> real, p: seq<Vec3>, m: seq<real>, i: nat): Vec3
    requires |m| == |p| && i < |p|
  {
    RowUpTo(kernel, p, m, i, |p|)
  }

  /** The force array a single worker would compute: every row filled. */
  function FullForces(kernel: real -> real, p: seq<Vec3>, m: seq<real>): (f: seq<Vec3>)
    requires |m| == |p|
    ensures |f| == |p|
  {
    seq(|p|, i requires 0 <= i < |p| => Row(kernel, p, m, i))
  }

  /** Element i of the sum reduction over the given per-rank arrays. */
  function ReduceAt(parts: seq<seq<Vec3>>, i: nat): Vec3
    requires forall r :: 0 <= r < |parts| ==> i < |parts[r]|
  {
    if parts == [] then Zero
    else Add(ReduceAt(parts[..|parts| - 1], i), parts[|parts| - 1][i])
  }

  /** `Allreduce(..., op=SUM)`: the element-wise sum of all ranks' arrays of n rows. */
  function Allreduce(parts: seq<seq<Vec3>>, n: nat): (total: seq<Vec3>)
    requires forall r :: 0 <= r < |parts| ==> |parts[r]| == n
    ensures |total| == n
  {
    seq(n, i requires 0 <= i < n => ReduceAt(parts, i))
  }

  /** parts holds, for every rank r of the block partition, an array equal to full on the
      rows of r's slice and zero elsewhere. */
  ghost predicate SplitByRank(full: seq<Vec3>, w: nat, parts: seq<seq<Vec3>>)
    requires w > 0
  {
    && |parts| == w
    && forall r :: 0 <= r < w ==>
         && |parts[r]| == |full|
         && forall i :: 0 <= i < |full| ==>
              parts[r][i] == if RankSlice(|full|, w, r).Contains(i) then full[i] else Zero
  }

  /** One rank's pass: zero the local array (`np.zeros_like` / `fill(0)`), then fill the
      rows of the local slice one by one. */
  method PartialForces(kernel: real -> real, p: seq<Vec3>, m: seq<real>, local: Slice)
    returns (forcesLocal: seq<Vec3>)
    requires |m| == |p| && local.stop <= |p|
    ensures |forcesLocal| == |p|
    ensures forall i :: 0 <= i < |p| ==>
      forcesLocal[i] == if local.Contains(i) then Row(kernel, p, m, i) else Zero
  {
    var buf := new Vec3[|p|];
    for k := 0 to |p|
      invariant forall q :: 0 <= q < k ==> buf[q] == Zero
    {
      buf[k] := Zero;
    }
    var i := local.start;
    while i < local.stop
      invariant local.start <= i && (i <= local.stop || i == local.start)
      invariant forall q :: 0 <= q < |p| ==>
        buf[q] == if local.start <= q < i then Row(kernel, p, m, q) else Zero
    {
      buf[i] := Row(kernel, p, m, i);
      i := i + 1;
    }
    forcesLocal := buf[..];
  }

  lemma {:induction false} ReducePrefix(full: seq<Vec3>, w: nat, parts: seq<seq<Vec3>>, k: nat, i: nat)
    requires w > 0 && k <= w && i < |full|
    requires SplitByRank(full, w, parts)
    ensures ReduceAt(parts[..k], i) == if i < Start(|full|, w, k) then full[i] else Zero
  {
    var n := |full|;
    if k == 0 {
      assert parts[..0] == [];
      assert Counts(n, w)[..0] == [];
    } else {
      ReducePrefix(full, w, parts, k - 1, i);
      assert parts[..k][..k - 1] == parts[..k - 1];
      StartStep(n, w, k - 1);
      var own := parts[k - 1][i];
      assert own == if RankSlice(n, w, k - 1).Contains(i) then full[i] else Zero;
      assert ReduceAt(parts[..k], i) == Add(ReduceAt(parts[..k - 1], i), own);
    }
  }

  /** The sum reduction of the per-rank arrays rebuilds the full array: every row comes from
      exactly the one rank whose slice holds it. */
  lemma ReduceReassembles(full: seq<Vec3>, w: nat, parts: seq<seq<Vec3>>)
    requires w > 0
    requires SplitByRank(full, w, parts)
    ensures Allreduce(parts, |full|) == full
  {
    var total := Allreduce(parts, |full|);
    forall i | 0 <= i < |full|
      ensures total[i] == full[i]
    {
      ReducePrefix(full, w, parts, w, i);
      assert parts[..w] == parts;
      CountsSumToN(|full|, w);
    }
  }

  /** Newton's third law for one pair: the pair terms are opposite. */
  lemma ContributionAntisymmetric(kernel: real -> real, p: seq<Vec3>, m: seq<real>, i: nat, j: nat)
    requires |m| == |p| && i < |p| && j < |p|
    ensures Contribution(kernel, p, m, i, j) == Neg(Contribution(kernel, p, m, j, i))
  {
    var rij, rji := Sub(p[j], p[i]), Sub(p[i], p[j]);
    assert Dot(rji, rji) == Dot(rij, rij);
  }

  /** A pair term on bodies 0 .. n-1 is antisymmetric when the term for (i, j) is the
      negation of the term for (j, i). */
  ghost predicate Antisymmetric(pair: (nat, nat) -> Vec3, n: nat) {
    forall i: nat, j: nat :: i < n && j < n ==> pair(i, j) == Neg(pair(j, i))
  }

  /** pair(i, 0) + ... + pair(i, k-1): row i of the pair terms over the columns 0 .. k-1. */
  ghost function PairRow(pair: (nat, nat) -> Vec3, i: nat, k: nat): Vec3 {
    if k == 0 then Zero else Add(PairRow(pair, i, k - 1), pair(i, k - 1))
  }

  /** pair(0, j) + ... + pair(k-1, j): column j over the rows 0 .. k-1. */
  ghost function PairColumn(pair: (nat, nat) -> Vec3, j: nat, k: nat): Vec3 {
    if k == 0 then Zero else Add(PairColumn(pair, j, k - 1), pair(k - 1, j))
  }

  /** Sum of the rows 0 .. k-1, each taken over the columns 0 .. c-1. */
  ghost function PairBlock(pair: (nat, nat) -> Vec3, k: nat, c: nat): Vec3 {
    if k == 0 then Zero else Add(PairBlock(pair, k - 1, c), PairRow(pair, k - 1, c))
  }

  lemma {:induction false} ColumnIsNegatedRow(pair: (nat, nat) -> Vec3, n: nat, j: nat, k: nat)
    requires Antisymmetric(pair, n) && j < n && k <= n
    ensures PairColumn(pair, j, k) == Neg(PairRow(pair, j, k))
  {
    if k > 0 {
      ColumnIsNegatedRow(pair, n, j, k - 1);
      assert pair(k - 1, j) == Neg(pair(j, k - 1));
    }
  }

  /** Widening a block by one column adds that column. */
  lemma {:induction false} BlockWiden(pair: (nat, nat) -> Vec3, k: nat, c: nat)
    ensures PairBlock(pair, k, c + 1) == Add(PairBlock(pair, k, c), PairColumn(pair, c, k))
  {
    if k > 0 {
      BlockWiden(pair, k - 1, c);
    }
  }

  /** The square block of an antisymmetric pair term sums to zero. */
  lemma {:induction false} SquareBlockVanishes(pair: (nat, nat) -> Vec3, n: nat, k: nat)
    requires Antisymmetric(pair, n) && k <= n
    ensures PairBlock(pair, k, k) == Zero
  {
    if k > 0 {
      SquareBlockVanishes(pair, n, k - 1);
      BlockWiden(pair, k - 1, k - 1);
      ColumnIsNegatedRow(pair, n, k - 1, k - 1);
    }
  }

  /** The pair terms of the force pass, indexed by (i, j). */
  ghost function PairTerm(kernel: real -> real, p: seq<Vec3>, m: seq<real>): (nat, nat) -> Vec3 {
    (i: nat, j: nat) =>
      if |m| == |p| && i < |p| && j < |p| then Contribution(kernel, p, m, i, j) else Zero
  }

  lemma PairTermAntisymmetric(kernel: real -> real, p: seq<Vec3>, m: seq<real>)
    requires |m| == |p|
    ensures Antisymmetric(PairTerm(kernel, p, m), |p|)
  {
    forall i: nat, j: nat | i < |p| && j < |p|
      ensures PairTerm(kernel, p, m)(i, j) == Neg(PairTerm(kernel, p, m)(j, i))
    {
      var pair := PairTerm(kernel, p, m);
      assert pair(i, j) == Contribution(kernel, p, m, i, j);
      assert pair(j, i) == Contribution(kernel, p, m, j, i);
      ContributionAntisymmetric(kernel, p, m, i, j);
    }
  }

  lemma {:induction false} RowIsPairRow(kernel: real -> real, p: seq<Vec3>, m: seq<real>, i: nat, k: nat)
    requires |m| == |p| && i < |p| && k <= |p|
    ensures RowUpTo(kernel, p, m, i, k) == PairRow(PairTerm(kernel, p, m), i, k)
  {
    if k > 0 {
      RowIsPairRow(kernel, p, m, i, k - 1);
    }
  }

  lemma {:induction false} SumOfRows(kernel: real -> real, p: seq<Vec3>, m: seq<real>, k: nat)
    requires |m| == |p| && k <= |p|
    ensures SumTo(FullForces(kernel, p, m), k) == PairBlock(PairTerm(kernel, p, m), k, |p|)
  {
    if k > 0 {
      SumOfRows(kernel, p, m, k - 1);
      RowIsPairRow(kernel, p, m, k - 1, |p|);
    }
  }

  /** The internal forces cancel: the rows of the full force array add up to zero, whatever
      the kernel, because every pair term is met by its opposite. */
  lemma TotalForceVanishes(kernel: real -> real, p: seq<Vec3>, m: seq<real>)
    requires |m| == |p|
    ensures Sum(FullForces(kernel, p, m)) == Zero
  {
    SumOfRows(kernel, p, m, |p|);
    PairTermAntisymmetric(kernel, p, m);
    SquareBlockVanishes(PairTerm(kernel, p, m), |p|, |p|);
  }
}

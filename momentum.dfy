/** Removal of the centre-of-mass velocity at start-up:
    `velocities -= sum(masses[:, None] * velocities, axis=0) / masses.sum()`. */
module Momentum {
  import opened Vectors

  predicate PositiveMasses(m: seq<real>) {
    forall i :: 0 <= i < |m| ==> m[i] > 0.0
  }

  /** Sum of the first k masses. */
  function MassTo(m: seq<real>, k: nat): real
    requires k <= |m|
  {
    if k == 0 then 0.0 else MassTo(m, k - 1) + m[k - 1]
  }

  function TotalMass(m: seq<real>): real {
    MassTo(m, |m|)
  }

  lemma {:induction false} TotalMassPositive(m: seq<real>, k: nat)
    requires PositiveMasses(m) && 0 < k <= |m|
    ensures MassTo(m, k) > 0.0
  {
    if k > 1 {
      TotalMassPositive(m, k - 1);
    }
  }

  /** Sum of m[i] * v[i] over the first k bodies. */
  function MomentumTo(m: seq<real>, v: seq<Vec3>, k: nat): Vec3
    requires |m| == |v| && k <= |v|
  {
    if k == 0 then Zero else Add(MomentumTo(m, v, k - 1), Scale(m[k - 1], v[k - 1]))
  }

  function TotalMomentum(m: seq<real>, v: seq<Vec3>): Vec3
    requires |m| == |v|
  {
    MomentumTo(m, v, |v|)
  }

  /** Every velocity minus the centre-of-mass velocity, computed once beforehand. */
  function CentreOfMassFrame(m: seq<real>, v: seq<Vec3>): (u: seq<Vec3>)
    requires |m| == |v| && TotalMass(m) != 0.0
    ensures |u| == |v|
  {
    var drift := Div(TotalMomentum(m, v), TotalMass(m));
    seq(|v|, i requires 0 <= i < |v| => Sub(v[i], drift))
  }

  /** Subtracting the same vector c from every velocity lowers the momentum by M * c. */
  lemma {:induction false} MomentumOfShifted(m: seq<real>, v: seq<Vec3>, u: seq<Vec3>, c: Vec3, k: nat)
    requires |m| == |v| == |u| && k <= |v|
    requires forall i :: 0 <= i < |v| ==> u[i] == Sub(v[i], c)
    ensures MomentumTo(m, u, k) == Sub(MomentumTo(m, v, k), Scale(MassTo(m, k), c))
  {
    if k > 0 {
      MomentumOfShifted(m, v, u, c, k - 1);
      ScaleDistributesOverSub(m[k - 1], v[k - 1], c);
      ScaleDistributesOverScalarSum(MassTo(m, k - 1), m[k - 1], c);
    }
  }

  lemma TimesQuotient(a: real, b: real)
    requires b != 0.0
    ensures b * (a / b) == a
  {
  }

  /** After the removal the total momentum is exactly zero (in exact arithmetic). */
  lemma CentreOfMassFrameHasZeroMomentum(m: seq<real>, v: seq<Vec3>)
    requires |m| == |v| && TotalMass(m) != 0.0
    ensures TotalMomentum(m, CentreOfMassFrame(m, v)) == Zero
  {
    var p, mass := TotalMomentum(m, v), TotalMass(m);
    var drift := Div(p, mass);
    MomentumOfShifted(m, v, CentreOfMassFrame(m, v), drift, |v|);
    TimesQuotient(p.x, mass);
    TimesQuotient(p.y, mass);
    TimesQuotient(p.z, mass);
  }

  /** Removing the momentum a second time changes nothing. */
  lemma CentreOfMassFrameIdempotent(m: seq<real>, v: seq<Vec3>)
    requires |m| == |v| && TotalMass(m) != 0.0
    ensures CentreOfMassFrame(m, CentreOfMassFrame(m, v)) == CentreOfMassFrame(m, v)
  {
    var u := CentreOfMassFrame(m, v);
    CentreOfMassFrameHasZeroMomentum(m, v);
    assert Div(TotalMomentum(m, u), TotalMass(m)) == Zero;
  }
}

/** Velocity-Verlet stepping of the replicated state, as pure functions over exact reals.
    Two variants exist in the repository:
      - the interactive program recomputes the forces at the start of every loop iteration:
        force pass, half-kick, drift, force pass at the new positions, half-kick;
      - the benchmark's `step()` reuses the forces stored by the previous step (all zero
        before the first step): half-kick, drift, force pass, half-kick. */
module Verlet {
  import opened Vectors
  import opened Forces
  import opened Momentum

  /** Time step in seconds (two minutes), as both programs define it. */
  const DT: real := 120.0

  /** The global arrays every rank holds: `positions`, `velocities` and `forces`. */
  datatype State = State(positions: seq<Vec3>, velocities: seq<Vec3>, forces: seq<Vec3>)

  predicate Shaped(s: State, m: seq<real>) {
    |s.positions| == |m| && |s.velocities| == |m| && |s.forces| == |m|
  }

  /** The force array holds the forces at the current positions. */
  ghost predicate ForcesCurrent(kernel: real -> real, m: seq<real>, s: State)
    requires Shaped(s, m)
  {
    s.forces == FullForces(kernel, s.positions, m)
  }

  function Zeros(n: nat): (z: seq<Vec3>)
    ensures |z| == n
  {
    seq(n, _ => Zero)
  }

  /** Half-kick of one body: `v + 0.5 * (f / mass) * DT`. */
  function KickOne(v: Vec3, f: Vec3, mass: real): Vec3
    requires mass != 0.0
  {
    Add(v, Scale(DT, Scale(0.5, Div(f, mass))))
  }

  /** `velocities += 0.5 * (forces / masses[:, None]) * DT` */
  function Kicked(v: seq<Vec3>, f: seq<Vec3>, m: seq<real>): (r: seq<Vec3>)
    requires |v| == |m| && |f| == |m| && PositiveMasses(m)
    ensures |r| == |v|
  {
    seq(|v|, i requires 0 <= i < |v| => KickOne(v[i], f[i], m[i]))
  }

  /** `positions += velocities * DT` */
  function Drifted(p: seq<Vec3>, v: seq<Vec3>): (r: seq<Vec3>)
    requires |p| == |v|
    ensures |r| == |p|
  {
    seq(|p|, i requires 0 <= i < |p| => Add(p[i], Scale(DT, v[i])))
  }

  /** One iteration of the interactive program's physics loop. */
  function ImplementationStep(kernel: real -> real, m: seq<real>, s: State): (r: State)
    requires Shaped(s, m) && PositiveMasses(m)
    ensures Shaped(r, m)
  {
    var f0 := FullForces(kernel, s.positions, m);
    var v1 := Kicked(s.velocities, f0, m);
    var p1 := Drifted(s.positions, v1);
    var f1 := FullForces(kernel, p1, m);
    State(p1, Kicked(v1, f1, m), f1)
  }

  /** The benchmark's `step()`. */
  function BenchmarkStep(kernel: real -> real, m: seq<real>, s: State): (r: State)
    requires Shaped(s, m) && PositiveMasses(m)
    ensures Shaped(r, m)
  {
    var v1 := Kicked(s.velocities, s.forces, m);
    var p1 := Drifted(s.positions, v1);
    var f1 := FullForces(kernel, p1, m);
    State(p1, Kicked(v1, f1, m), f1)
  }

  /** k iterations of the interactive physics loop. */
  function ImplementationRun(kernel: real -> real, m: seq<real>, s: State, k: nat): (r: State)
    requires Shaped(s, m) && PositiveMasses(m)
    ensures Shaped(r, m)
  {
    if k == 0 then s else ImplementationStep(kernel, m, ImplementationRun(kernel, m, s, k - 1))
  }

  /** k calls of the benchmark's `step()`. */
  function BenchmarkRun(kernel: real -> real, m: seq<real>, s: State, k: nat): (r: State)
    requires Shaped(s, m) && PositiveMasses(m)
    ensures Shaped(r, m)
  {
    if k == 0 then s else BenchmarkStep(kernel, m, BenchmarkRun(kernel, m, s, k - 1))
  }

  /** Both variants end a step with the forces of the drifted positions, which are also the
      forces the final half-kick used; the first half-kick uses the forces of the starting
      positions in the interactive step and the stored forces in the benchmark step. */
  lemma StepsLeaveForcesCurrent(kernel: real -> real, m: seq<real>, s: State)
    requires Shaped(s, m) && PositiveMasses(m)
    ensures ForcesCurrent(kernel, m, ImplementationStep(kernel, m, s))
    ensures ForcesCurrent(kernel, m, BenchmarkStep(kernel, m, s))
    ensures var r := ImplementationStep(kernel, m, s);
      r.velocities == Kicked(Kicked(s.velocities, FullForces(kernel, s.positions, m), m), r.forces, m)
    ensures var r := BenchmarkStep(kernel, m, s);
      r.velocities == Kicked(Kicked(s.velocities, s.forces, m), r.forces, m)
  {
  }

  /** The interactive step never reads the stored forces: it recomputes them first. */
  lemma ImplementationStepIgnoresStoredForces(kernel: real -> real, m: seq<real>, p: seq<Vec3>, v: seq<Vec3>, f: seq<Vec3>, g: seq<Vec3>)
    requires Shaped(State(p, v, f), m) && |g| == |m| && PositiveMasses(m)
    ensures ImplementationStep(kernel, m, State(p, v, f)) == ImplementationStep(kernel, m, State(p, v, g))
  {
  }

  /** When the stored forces belong to the current positions, the benchmark step is the
      interactive step. */
  lemma BenchmarkStepMatchesWhenForcesCurrent(kernel: real -> real, m: seq<real>, s: State)
    requires Shaped(s, m) && PositiveMasses(m) && ForcesCurrent(kernel, m, s)
    ensures BenchmarkStep(kernel, m, s) == ImplementationStep(kernel, m, s)
  {
  }

  /** After the first benchmark step the stored forces are current, and every interactive
      iteration keeps them current. */
  lemma ForcesCurrentAfterFirstStep(kernel: real -> real, m: seq<real>, s: State, j: nat)
    requires Shaped(s, m) && PositiveMasses(m)
    ensures ForcesCurrent(kernel, m, ImplementationRun(kernel, m, BenchmarkStep(kernel, m, s), j))
  {
    if j == 0 {
      StepsLeaveForcesCurrent(kernel, m, s);
    } else {
      StepsLeaveForcesCurrent(kernel, m, ImplementationRun(kernel, m, BenchmarkStep(kernel, m, s), j - 1));
    }
  }

  /** After its first step the benchmark follows the interactive program's trajectory
      exactly: k >= 1 benchmark steps are one benchmark step followed by k - 1 interactive
      iterations, so the two variants differ only in the first half-kick. */
  lemma {:induction false} BenchmarkRunMatchesAfterFirstStep(kernel: real -> real, m: seq<real>, s: State, k: nat)
    requires Shaped(s, m) && PositiveMasses(m) && k > 0
    ensures BenchmarkRun(kernel, m, s, k) == ImplementationRun(kernel, m, BenchmarkStep(kernel, m, s), k - 1)
  {
    if k == 1 {
      assert BenchmarkRun(kernel, m, s, 0) == s;
    } else {
      BenchmarkRunMatchesAfterFirstStep(kernel, m, s, k - 1);
      var u := ImplementationRun(kernel, m, BenchmarkStep(kernel, m, s), k - 2);
      ForcesCurrentAfterFirstStep(kernel, m, s, k - 2);
      BenchmarkStepMatchesWhenForcesCurrent(kernel, m, u);
    }
  }

  /** With the all-zero forces the benchmark starts from, its first half-kick changes
      nothing, so the first drift moves the bodies by their initial velocities alone. */
  lemma FirstBenchmarkStepDriftsFreely(kernel: real -> real, m: seq<real>, p: seq<Vec3>, v: seq<Vec3>)
    requires |p| == |m| && |v| == |m| && PositiveMasses(m)
    ensures BenchmarkStep(kernel, m, State(p, v, Zeros(|m|))).positions == Drifted(p, v)
  {
    assert Kicked(v, Zeros(|m|), m) == v;
  }

  /** A two-body state on which the first benchmark step and the first interactive step
      give different positions, whatever positive kernel is used. */
  lemma FirstStepsCanDiffer(kernel: real -> real)
    requires kernel(1.0) > 0.0
    ensures var m := [1.0, 1.0];
            var s := State([Zero, Vec3(1.0, 0.0, 0.0)], [Zero, Zero], Zeros(2));
            BenchmarkStep(kernel, m, s).positions != ImplementationStep(kernel, m, s).positions
  {
    var m := [1.0, 1.0];
    var p := [Zero, Vec3(1.0, 0.0, 0.0)];
    var s := State(p, [Zero, Zero], Zeros(2));
    var pull := Contribution(kernel, p, m, 0, 1);
    assert Dot(Sub(p[1], p[0]), Sub(p[1], p[0])) == 1.0;
    assert pull == Vec3(G * kernel(1.0), 0.0, 0.0);
    assert RowUpTo(kernel, p, m, 0, 1) == Add(Zero, Contribution(kernel, p, m, 0, 0)) == Zero;
    assert Row(kernel, p, m, 0) == Add(RowUpTo(kernel, p, m, 0, 1), pull);
    assert FullForces(kernel, p, m)[0].x == G * kernel(1.0);
    assert ImplementationStep(kernel, m, s).positions[0].x > 0.0;
    FirstBenchmarkStepDriftsFreely(kernel, m, p, [Zero, Zero]);
    assert BenchmarkStep(kernel, m, s).positions[0].x == 0.0;
  }

  /** Velocity Verlet is time-reversible: stepping from the result with the velocities
      reversed returns to the starting positions with reversed velocities. */
  lemma ImplementationStepReversible(kernel: real -> real, m: seq<real>, s: State, g: seq<Vec3>)
    requires Shaped(s, m) && PositiveMasses(m) && |g| == |m|
    ensures var r := ImplementationStep(kernel, m, s);
            var back := ImplementationStep(kernel, m, State(r.positions, Reversed(r.velocities), g));
            back.positions == s.positions && back.velocities == Reversed(s.velocities)
  {
    var p, v := s.positions, s.velocities;
    var f0 := FullForces(kernel, p, m);
    var v1 := Kicked(v, f0, m);
    var p1 := Drifted(p, v1);
    var f1 := FullForces(kernel, p1, m);
    var v2 := Kicked(v1, f1, m);
    assert Kicked(Reversed(v2), f1, m) == Reversed(v1);
    assert Drifted(p1, Reversed(v1)) == p;
    assert Kicked(Reversed(v1), f0, m) == Reversed(v);
  }

  /** Every velocity reversed. */
  function Reversed(v: seq<Vec3>): (r: seq<Vec3>)
    ensures |r| == |v|
  {
    seq(|v|, i requires 0 <= i < |v| => Neg(v[i]))
  }

  lemma MassTimesKick(mass: real, v: Vec3, f: Vec3)
    requires mass != 0.0
    ensures Scale(mass, KickOne(v, f, mass)) == Add(Scale(mass, v), Scale(0.5 * DT, f))
  {
    TimesQuotient(f.x, mass);
    TimesQuotient(f.y, mass);
    TimesQuotient(f.z, mass);
    assert mass * (v.x + DT * (0.5 * (f.x / mass))) == mass * v.x + 0.5 * DT * (mass * (f.x / mass));
    assert mass * (v.y + DT * (0.5 * (f.y / mass))) == mass * v.y + 0.5 * DT * (mass * (f.y / mass));
    assert mass * (v.z + DT * (0.5 * (f.z / mass))) == mass * v.z + 0.5 * DT * (mass * (f.z / mass));
  }

  lemma {:induction false} KickMomentumTo(v: seq<Vec3>, f: seq<Vec3>, m: seq<real>, k: nat)
    requires |v| == |m| && |f| == |m| && PositiveMasses(m) && k <= |m|
    ensures MomentumTo(m, Kicked(v, f, m), k) == Add(MomentumTo(m, v, k), Scale(0.5 * DT, SumTo(f, k)))
  {
    if k > 0 {
      KickMomentumTo(v, f, m, k - 1);
      MassTimesKick(m[k - 1], v[k - 1], f[k - 1]);
    }
  }

  /** A half-kick adds 0.5 * DT times the sum of the forces to the total momentum. */
  lemma KickMomentum(v: seq<Vec3>, f: seq<Vec3>, m: seq<real>)
    requires |v| == |m| && |f| == |m| && PositiveMasses(m)
    ensures TotalMomentum(m, Kicked(v, f, m)) == Add(TotalMomentum(m, v), Scale(0.5 * DT, Sum(f)))
  {
    KickMomentumTo(v, f, m, |m|);
  }

  /** The interactive step conserves total momentum exactly: the reduced forces always sum
      to zero. */
  lemma ImplementationStepConservesMomentum(kernel: real -> real, m: seq<real>, s: State)
    requires Shaped(s, m) && PositiveMasses(m)
    ensures TotalMomentum(m, ImplementationStep(kernel, m, s).velocities) == TotalMomentum(m, s.velocities)
  {
    var p, v := s.positions, s.velocities;
    var f0 := FullForces(kernel, p, m);
    var v1 := Kicked(v, f0, m);
    var p1 := Drifted(p, v1);
    var f1 := FullForces(kernel, p1, m);
    TotalForceVanishes(kernel, p, m);
    TotalForceVanishes(kernel, p1, m);
    KickMomentum(v, f0, m);
    KickMomentum(v1, f1, m);
  }

  /** The benchmark step conserves momentum as long as the stored forces sum to zero, which
      holds for the initial zeros and for every force array a step leaves behind. */
  lemma BenchmarkStepConservesMomentum(kernel: real -> real, m: seq<real>, s: State)
    requires Shaped(s, m) && PositiveMasses(m) && Sum(s.forces) == Zero
    ensures TotalMomentum(m, BenchmarkStep(kernel, m, s).velocities) == TotalMomentum(m, s.velocities)
    ensures Sum(BenchmarkStep(kernel, m, s).forces) == Zero
  {
    var v1 := Kicked(s.velocities, s.forces, m);
    var p1 := Drifted(s.positions, v1);
    var f1 := FullForces(kernel, p1, m);
    TotalForceVanishes(kernel, p1, m);
    KickMomentum(s.velocities, s.forces, m);
    KickMomentum(v1, f1, m);
  }

  lemma {:induction false} ZerosSumToZero(n: nat, k: nat)
    requires k <= n
    ensures SumTo(Zeros(n), k) == Zero
  {
    if k > 0 {
      ZerosSumToZero(n, k - 1);
    }
  }

  /** Once the centre-of-mass velocity is removed, the total momentum stays zero for every
      number of iterations of the interactive loop. */
  lemma {:induction false} MomentumStaysZero(kernel: real -> real, m: seq<real>, s: State, k: nat)
    requires Shaped(s, m) && PositiveMasses(m) && TotalMomentum(m, s.velocities) == Zero
    ensures TotalMomentum(m, ImplementationRun(kernel, m, s, k).velocities) == Zero
  {
    if k > 0 {
      MomentumStaysZero(kernel, m, s, k - 1);
      ImplementationStepConservesMomentum(kernel, m, ImplementationRun(kernel, m, s, k - 1));
    }
  }

  /** The same for the benchmark, starting from its all-zero force array. */
  lemma {:induction false} BenchmarkMomentumStaysZero(kernel: real -> real, m: seq<real>, s: State, k: nat)
    requires Shaped(s, m) && PositiveMasses(m) && TotalMomentum(m, s.velocities) == Zero
    requires s.forces == Zeros(|m|)
    ensures TotalMomentum(m, BenchmarkRun(kernel, m, s, k).velocities) == Zero
    ensures Sum(BenchmarkRun(kernel, m, s, k).forces) == Zero
  {
    if k == 0 {
      ZerosSumToZero(|m|, |m|);
    } else {
      BenchmarkMomentumStaysZero(kernel, m, s, k - 1);
      BenchmarkStepConservesMomentum(kernel, m, BenchmarkRun(kernel, m, s, k - 1));
    }
  }
}

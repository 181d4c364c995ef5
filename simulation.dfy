/** The global simulation state of one MPI program and the steps that update it in place.
    Every rank holds the same `masses`, `positions`, `velocities` and `forces` (the sum
    reduction hands every rank the same combined forces), so one object stands for the
    replicated state, and a force pass runs every rank's partial pass on it before the
    reduction combines them. */
module Simulation {
  import opened Vectors
  import opened Partition
  import opened Forces
  import opened Momentum
  import opened Verlet

  class NBody {
    /** The 1 / d2^1.5 factor of the pair force. */
    const kernel: real -> real
    const masses: seq<real>
    /** Number of MPI ranks (`comm.Get_size()`). */
    const size: nat
    /** `local` of every rank, computed once at start-up. */
    const slices: seq<Slice>
    const positions: array<Vec3>
    const velocities: array<Vec3>
    const forces: array<Vec3>

    ghost predicate Valid() {
      && |masses| > 0
      && PositiveMasses(masses)
      && positions.Length == |masses|
      && velocities.Length == |masses|
      && forces.Length == |masses|
      && positions != velocities && positions != forces && velocities != forces
      && size > 0
      && |slices| == size
      && forall r :: 0 <= r < size ==> slices[r] == RankSlice(|masses|, size, r)
    }

    /** The arrays as values. */
    ghost function Current(): State
      reads positions, velocities, forces
    {
      State(positions[..], velocities[..], forces[..])
    }

    /** Start-up: the partition, the initial arrays and `forces = np.zeros_like(positions)`.
        The initial positions and velocities come from the planet table. */
    constructor (kernel: real -> real, masses: seq<real>, size: nat, p0: seq<Vec3>, v0: seq<Vec3>)
      requires size > 0 && |masses| > 0 && PositiveMasses(masses)
      requires |p0| == |masses| && |v0| == |masses|
      ensures Valid()
      ensures this.kernel == kernel && this.masses == masses && this.size == size
      ensures fresh(positions) && fresh(velocities) && fresh(forces)
      ensures Current() == State(p0, v0, Zeros(|masses|))
    {
      var n := |masses|;
      var locals: seq<Slice> := [];
      for r := 0 to size
        invariant |locals| == r
        invariant forall q :: 0 <= q < r ==> locals[q] == RankSlice(n, size, q)
      {
        var local := LocalSlice(n, size, r);
        locals := locals + [local];
      }
      this.kernel := kernel;
      this.masses := masses;
      this.size := size;
      slices := locals;
      positions := new Vec3[n](i requires 0 <= i < n => p0[i]);
      velocities := new Vec3[n](i requires 0 <= i < n => v0[i]);
      forces := new Vec3[n](_ => Zero);
    }

    /** `velocities -= np.sum(masses[:, None] * velocities, axis=0) / masses.sum()` */
    method RemoveNetMomentum()
      requires Valid()
      modifies velocities
      ensures TotalMass(masses) > 0.0
      ensures velocities[..] == CentreOfMassFrame(masses, old(velocities[..]))
      ensures TotalMomentum(masses, velocities[..]) == Zero
    {
      TotalMassPositive(masses, |masses|);
      var drift := Div(TotalMomentum(masses, velocities[..]), TotalMass(masses));
      for i := 0 to velocities.Length
        invariant forall q :: 0 <= q < i ==> velocities[q] == Sub(old(velocities[q]), drift)
        invariant forall q :: i <= q < velocities.Length ==> velocities[q] == old(velocities[q])
      {
        velocities[i] := Sub(velocities[i], drift);
      }
      CentreOfMassFrameHasZeroMomentum(masses, old(velocities[..]));
    }

    /** One force pass: every rank fills the rows of its slice in a zeroed local array, and
        `Allreduce(forces_local, forces, op=SUM)` writes the element-wise sum to `forces`. */
    method ForcePass()
      requires Valid()
      modifies forces
      ensures forces[..] == FullForces(kernel, positions[..], masses)
    {
      var p := positions[..];
      ghost var full := FullForces(kernel, p, masses);
      var parts: seq<seq<Vec3>> := [];
      for r := 0 to size
        invariant |parts| == r
        invariant forall q :: 0 <= q < r ==>
          && |parts[q]| == |p|
          && forall i :: 0 <= i < |p| ==>
               parts[q][i] == if RankSlice(|p|, size, q).Contains(i) then full[i] else Zero
      {
        SliceWithin(|p|, size, r);
        var forcesLocal := PartialForces(kernel, p, masses, slices[r]);
        parts := parts + [forcesLocal];
      }
      ReduceReassembles(full, size, parts);
      var total := Allreduce(parts, |p|);
      for i := 0 to forces.Length
        invariant forall q :: 0 <= q < i ==> forces[q] == total[q]
      {
        forces[i] := total[i];
      }
    }

    /** `velocities += 0.5 * (forces / masses[:, None]) * DT` */
    method HalfKick()
      requires Valid()
      modifies velocities
      ensures velocities[..] == Kicked(old(velocities[..]), forces[..], masses)
    {
      for i := 0 to velocities.Length
        invariant forall q :: 0 <= q < i ==> velocities[q] == KickOne(old(velocities[q]), forces[q], masses[q])
        invariant forall q :: i <= q < velocities.Length ==> velocities[q] == old(velocities[q])
      {
        velocities[i] := KickOne(velocities[i], forces[i], masses[i]);
      }
    }

    /** `positions += velocities * DT` */
    method Drift()
      requires Valid()
      modifies positions
      ensures positions[..] == Drifted(old(positions[..]), velocities[..])
    {
      for i := 0 to positions.Length
        invariant forall q :: 0 <= q < i ==> positions[q] == Add(old(positions[q]), Scale(DT, velocities[q]))
        invariant forall q :: i <= q < positions.Length ==> positions[q] == old(positions[q])
      {
        positions[i] := Add(positions[i], Scale(DT, velocities[i]));
      }
    }

    /** One iteration of `physics_loop`: force pass, half-kick, drift, force pass at the new
        positions, half-kick. */
    method PhysicsIteration()
      requires Valid()
      modifies positions, velocities, forces
      ensures Current() == ImplementationStep(kernel, masses, old(Current()))
    {
      ForcePass();
      HalfKick();
      Drift();
      ForcePass();
      HalfKick();
    }

    /** The benchmark's `step()`: half-kick with the stored forces, drift, force pass,
        half-kick. */
    method Step()
      requires Valid()
      modifies positions, velocities, forces
      ensures Current() == BenchmarkStep(kernel, masses, old(Current()))
    {
      HalfKick();
      Drift();
      ForcePass();
      HalfKick();
    }

    /** `physics_loop`, which runs until the process is stopped, cut off after the given
        number of iterations. */
    method PhysicsLoop(iterations: nat)
      requires Valid()
      modifies positions, velocities, forces
      ensures Current() == ImplementationRun(kernel, masses, old(Current()), iterations)
    {
      for k := 0 to iterations
        invariant Current() == ImplementationRun(kernel, masses, old(Current()), k)
      {
        PhysicsIteration();
      }
    }

    /** The benchmark's warm-up and measurement loops, which call `step()` until a wall-clock
        deadline, as a given number of calls. */
    method BenchmarkLoop(calls: nat)
      requires Valid()
      modifies positions, velocities, forces
      ensures Current() == BenchmarkRun(kernel, masses, old(Current()), calls)
    {
      for k := 0 to calls
        invariant Current() == BenchmarkRun(kernel, masses, old(Current()), k)
      {
        Step();
      }
    }
  }
}

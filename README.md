# Solar-system N-body simulation over MPI: the integer and structural core

This project models, in Dafny, the computational skeleton of the two MPI programs
`mpi-implementation.py` (the interactive simulation) and `mpi-benchmark.py` (the benchmark),
and proves properties of that model:

- **Block partition.** The N body indices are split over W ranks. Each rank gets `N // W`
  indices, and the first `N % W` ranks get one more. Rank r owns
  `[starts[r], starts[r] + counts[r])`, where `starts` is the exclusive prefix sum of `counts`.
  `counts` is filled with `N // W` and then incremented in place; `starts` is a new array built
  from it by an accumulating loop.
- **Row-partitioned force pass.** Each rank zeroes a local force array and fills only the rows
  of its own slice. Each row is the sum of the pair forces on that body. A pair whose squared
  distance is not positive (the `mask`) adds zero, and this covers `j == i`. The sum reduction
  (`Allreduce` with `op=SUM`) adds the per-rank arrays element by element. It is proved to give
  exactly the force array a single worker would compute.
- **Velocity-Verlet steps, both variants.** The interactive loop computes forces, half-kicks,
  drifts, recomputes forces at the new positions and half-kicks again. The benchmark's `step()`
  half-kicks with the forces stored by the previous step (all zero before the first step),
  drifts, computes forces once and half-kicks.
- **Centre-of-mass velocity removal.** `Σ mᵢvᵢ / Σ mᵢ` is subtracted from every velocity.
  After that, the total momentum is exactly zero.

Arithmetic is over exact reals. The factor `1 / d2^1.5` (`np.power(dist2, 1.5)`) is an
arbitrary function `kernel` applied to the squared distance. `G = 6.67430e-11` and `DT = 120`
are the source's constants.

All ranks hold the same `masses`, `positions`, `velocities` and `forces`, because the reduction
gives every rank the same combined array. So one `Simulation.NBody` object stands for this
replicated state. Its `ForcePass` runs every rank's partial pass on it and then reduces.

Modules:

- `Vectors`: 3-vectors over the reals.
- `Partition`: the partition, with `counts` and `starts`.
- `Forces`: pair term, rows, partial pass, reduction, Newton's third law.
- `Momentum`: centre-of-mass frame.
- `Verlet`: both step variants as functions over a `State` value, and their properties.
- `Simulation`: the class whose methods update the arrays in place.

Beyond the single-step facts, the model proves these:

- The reduced forces always sum to zero.
- So both step variants conserve total momentum. After the removal, momentum stays zero for
  any number of steps.
- The interactive step is time-reversible.
- After its first step, the benchmark follows exactly the trajectory of the interactive loop.
- A concrete two-body state shows that the first steps of the two variants differ.

## Model

| member | source | states |
|---|---|---|
| Partition.BlockCounts | mpi-implementation.py:46-47 | the in-place `counts` array is `N // W` everywhere plus one on the first `N % W` ranks, and its entries add up to N |
| Partition.CountsSumToN | mpi-benchmark.py:48 | the counts sum to N, and the end of the last range is N |
| Partition.CountsBalanced | mpi-implementation.py:46-47 | counts are non-increasing in the rank and any two differ by at most one |
| Partition.BlockStarts | mpi-implementation.py:48 | `starts[r]` is the sum of `counts[0..r)` (exclusive prefix sum, `starts[0] = 0`) |
| Partition.StartStep | mpi-implementation.py:48-49 | `starts[r+1] = starts[r] + counts[r]`: rank r's slice stops where rank r+1's starts |
| Partition.StartClosedForm | mpi-implementation.py:48 | `starts[r] = r·(N // W) + min(r, N % W)` |
| Partition.StartMonotone | mpi-implementation.py:48 | starts never decrease with the rank |
| Partition.LocalSlice | mpi-implementation.py:46-49 | a rank's `local` slice is its block-partition range and lies inside [0, N) |
| Partition.SliceWithin | mpi-benchmark.py:49 | every `seg` is a well-formed range inside [0, N) |
| Partition.SlicesDisjoint | mpi-benchmark.py:49 | no index lies in the slices of two different ranks |
| Partition.SlicesCover | mpi-benchmark.py:49 | an index lies in some rank's slice if and only if it is in [0, N) |
| Partition.OversubscribedRanks | mpi-implementation.py:46-49 | when W > N, rank r < N owns exactly index r and every rank r ≥ N gets the empty range [N, N), not an error |
| Partition.SingleRankOwnsAll | mpi-implementation.py:46-49 | with one rank, its slice is all of [0, N) |
| Forces.Contribution | mpi-implementation.py:71-76 | a pair with coincident positions, and in particular j = i, contributes zero force |
| Forces.ContributionAntisymmetric | mpi-benchmark.py:56-58 | the force of j on i is the negation of the force of i on j |
| Forces.PartialForces | mpi-implementation.py:69-77 | the local array is zero in every row outside the rank's slice, and each row inside it is the full sum of pair contributions on that body |
| Forces.ReducePrefix | mpi-benchmark.py:59 | summing the arrays of ranks 0..k-1 gives the full row for indices below `starts[k]` and zero above |
| Forces.ReduceReassembles | mpi-implementation.py:78 | the element-wise sum of all ranks' partial arrays equals the full single-worker force array |
| Forces.TotalForceVanishes | mpi-implementation.py:86-94 | the rows of the full force array add up to the zero vector, whatever the kernel |
| Momentum.MomentumOfShifted | mpi-benchmark.py:45 | subtracting one vector c from every velocity lowers the total momentum by (Σ mᵢ)·c |
| Momentum.CentreOfMassFrameHasZeroMomentum | mpi-implementation.py:44 | after subtracting Σmᵢvᵢ / Σmᵢ from every velocity, Σmᵢvᵢ is exactly zero |
| Momentum.CentreOfMassFrameIdempotent | mpi-benchmark.py:45 | removing the centre-of-mass velocity a second time changes nothing |
| Momentum.TotalMassPositive | mpi-implementation.py:44 | positive masses give a positive `masses.sum()`, so the division is defined |
| Verlet.StepsLeaveForcesCurrent | mpi-implementation.py:84-95 | after either step, the stored forces are those of the drifted positions; both final half-kicks use them, after a first half-kick with the forces of the starting positions (interactive) or with the stored forces (benchmark) |
| Verlet.ImplementationStepIgnoresStoredForces | mpi-implementation.py:69-78 | the interactive step does not depend on the stored forces, because it recomputes them first |
| Verlet.BenchmarkStepMatchesWhenForcesCurrent | mpi-benchmark.py:51-60 | if the stored forces belong to the current positions, `step()` equals one interactive iteration |
| Verlet.BenchmarkRunMatchesAfterFirstStep | mpi-benchmark.py:46-60 | for every k ≥ 1, k benchmark steps equal one benchmark step followed by k − 1 interactive iterations |
| Verlet.FirstBenchmarkStepDriftsFreely | mpi-benchmark.py:46-53 | with the initial all-zero forces, the first half-kick leaves velocities unchanged, so the first drift uses the initial velocities |
| Verlet.FirstStepsCanDiffer | mpi-benchmark.py:51-60 | for two bodies one unit apart at rest, the first benchmark step and the first interactive iteration give different positions |
| Verlet.ImplementationStepReversible | mpi-implementation.py:80-95 | kick-drift-kick is time-reversible: stepping from the result with reversed velocities returns to the start positions with reversed velocities |
| Verlet.KickMomentum | mpi-implementation.py:81 | a half-kick adds 0.5·DT·Σf to the total momentum |
| Verlet.ImplementationStepConservesMomentum | mpi-implementation.py:69-95 | one interactive iteration leaves Σmᵢvᵢ unchanged |
| Verlet.BenchmarkStepConservesMomentum | mpi-benchmark.py:51-60 | `step()` leaves Σmᵢvᵢ unchanged when the stored forces sum to zero, and leaves forces that sum to zero |
| Verlet.MomentumStaysZero | mpi-implementation.py:63-95 | once total momentum is zero, it stays zero for any number of iterations of the physics loop |
| Verlet.BenchmarkMomentumStaysZero | mpi-benchmark.py:45-60 | from zero momentum and the initial zero forces, any number of `step()` calls keeps total momentum zero |
| Simulation.NBody.constructor | mpi-implementation.py:46-61 | the start-up state: every rank's slice from the partition, the initial arrays, and all-zero `forces` |
| Simulation.NBody.RemoveNetMomentum | mpi-implementation.py:44 | updates velocities in place to the centre-of-mass frame, and total momentum is then zero |
| Simulation.NBody.ForcePass | mpi-implementation.py:69-78 | after every rank's partial pass and the sum reduction, `forces` is the full force array at the current positions |
| Simulation.NBody.HalfKick | mpi-implementation.py:81 | `velocities[i]` becomes `v + 0.5·(f/m)·DT` for every body; nothing else changes |
| Simulation.NBody.Drift | mpi-implementation.py:82 | `positions[i]` becomes `p + v·DT` for every body; nothing else changes |
| Simulation.NBody.PhysicsIteration | mpi-implementation.py:69-95 | one loop iteration: force pass, half-kick, drift, force pass at the new positions, half-kick |
| Simulation.NBody.Step | mpi-benchmark.py:51-60 | `step()`: half-kick with the stored forces, drift, one force pass, half-kick |
| Simulation.NBody.PhysicsLoop | mpi-implementation.py:63-95 | k loop iterations produce the k-fold interactive step |
| Simulation.NBody.BenchmarkLoop | mpi-benchmark.py:67-76 | k calls of `step()` produce the k-fold benchmark step |

## Left out

- MPI transport is not modelled. `comm.Allreduce` is an element-wise sum over the ranks'
  arrays. `comm.Barrier`, `comm.gather` and the lock-step execution of separate processes are
  not modelled: the model keeps one copy of the replicated state.
- Each rank computes only its own `local`. The model computes every rank's slice once, at
  construction.
- The interactive program reuses `forces_local` and clears it with `fill(0)` before the second
  pass. The model zeroes a fresh local buffer in every pass, which has the same effect.
- Floating point is not modelled. Arithmetic is over exact reals, and `np.power(dist2, 1.5)`
  becomes the function parameter `kernel`. Energy, orbit closure and accuracy over many steps
  depend on rounding and on the true kernel, so they are not stated.
- Initial conditions are not modelled: the planet tables and the `radians`/`sin`/`cos` setup
  of positions and velocities. The constructor takes the masses and the initial arrays as
  parameters.
- The GUI thread, the `threading.Lock` snapshot copy and vpython rendering are not modelled.
  They are concurrency and UI.
- Wall-clock timing is not modelled: FPS bookkeeping, the 1%/0.1%-low statistics, the warm-up
  and measurement deadlines, and argparse. The loops that run until a deadline, or forever,
  take an iteration count instead.
- Simulation.NBody.BenchmarkLoop: one call count stands for every rank. In the benchmark each
  rank compares its own `MPI.Wtime()` with its own `warm_end` and `bench_end`
  (mpi-benchmark.py:63-65, 68, 75), so ranks may make different numbers of `step()` calls. A
  rank with one call more then waits in `Allreduce` (line 59) while the others have gone on to
  `comm.gather` (line 83), a mismatch of collective operations that can hang. The model's
  shared count assumes the ranks agree and so does not capture this; it is an observation from
  reading the code, not executed.
- `default-implementation.py` is not part of this model.
- Thrust phases and mass scaling are not modelled. The modelled programs have no code for them.
- With more ranks than bodies, ranks r ≥ N get the empty range [N, N) rather than an error,
  and the model follows the code (`Partition.OversubscribedRanks`).
- W ≥ 1 (an MPI world always has a rank) and a non-empty body list with positive masses are
  preconditions. The programs' fixed tables always satisfy them.
- Forces.Contribution: the contract states only that coincident positions contribute zero.
  That every pair at distinct positions passes the `dist2 > 0` mask is not proved.

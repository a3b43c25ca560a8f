# ActiveBrownian time-step engine in Dafny

This project models the time-step engine of ActiveBrownian, a simulation of interacting active
Brownian particles in a two-dimensional periodic box. It also models the parameter validators of
the simulation driver.

The `State` class keeps five arrays of length `n_parts`: `positions[0]`, `positions[1]`,
`angles`, `forces[0]` and `forces[1]`. One call of `evolve` does three things:

1. `calcInternalForces` resets the force buffers. It then walks the cell list: every box `b1`,
   every neighbour box `b2` of `b1`, every particle `i` of `b1` and every particle `j` of `b2`.
   For each pair it takes the minimum-image displacement (`pbcSym`, centred on 0). When
   `dr2 * (1 - dr2) > 0` it adds the harmonic-sphere force `k (1/sqrt(dr2) - 1) (dx, dy)` to `i`
   and subtracts it from `j`. As written, a box paired with itself visits every pair of its
   particles in both orders, which doubles their forces (see "## Findings"). The `State` class
   runs either loop: a flag `oncePerPair` selects the loops as written (`false`) or the corrected
   loop, which takes only `i < j` when `b2 == b1` (`true`).
2. The integration loop moves every particle by `dt` times its force plus its self-propulsion
   along its orientation. It then adds the pre-drawn Gaussian numbers `ran_num_x`, `ran_num_y`
   and `ran_num_angle`.
3. `enforcePBC` wraps coordinates into `[0, len)` and orientations into `[0, 2π)`.

Layout:

- `parameters.dfy`: the physical parameters. The library functions `1/sqrt`, `sin` and `cos` are
  abstract arrows (`Maths`).
- `periodic.dfy`: `pbc` and `pbcSym` as floor-based wraps, with their ranges, uniqueness,
  periodicity and fixed points.
- `cells.dfy`: the cell list as given data (`Boxes`) and the sequence of ordered pairs the four
  nested loops visit, as written and corrected. It also counts how often each pair is visited.
- `sums.dfy`: finite sums used to state conservation.
- `forces.dfy`: the pair force and its laws (cutoff, central, repulsive, odd). It also has the
  accumulation over visited pairs, Newton's third law for the totals, and the equivalence with
  the brute-force all-pairs sum.
- `integrator.dfy`: the Euler–Maruyama update and the wrap as functions on snapshots.
- `state.dfy`: the `State` class itself. Its methods update the arrays in place and are proved
  against the functions above. Each loop level of `calcInternalForces` is a method of its own.
- `validators.dfy`: `notPositive` and `notStrPositive`.

Doubles are modelled as mathematical reals.

For two particles 0.5 apart, `dr2 = 0.25` gives `u = k` and `fx = u·dx = k/2`
(`ForceField.HalfUnitApart`). Each visit of the pair moves each particle by `dt·k/2` before
noise and wrap. The corrected loops, and the loops as written for two particles in different
boxes paired once, visit the pair once. The loops as written visit two particles of one box
that lists itself twice, so each moves by `dt·k` (`ForceField.AsWrittenDoublesSameBoxForce`).

## Model

| member | source | states |
|---|---|---|
| Validators.NotPositive | simul.h:82-89 | the non-strict check: a parameter is rejected (`true`) exactly when it is below 0; the properties are in the two lemmas below |
| Validators.NotStrPositive | simul.h:102-109 | the strict check: a parameter is rejected exactly when it is 0 or below |
| Validators.ZeroSeparatesTheChecks | simul.h:82-109 | 0 passes the non-strict check and fails the strict one |
| Validators.StrictCheckIsStronger | simul.h:82-109 | whatever `notPositive` rejects, `notStrPositive` rejects too; they differ only at 0 |
| Periodic.Pbc | src/state.cpp:188-194 | the wrap of a coordinate or angle lies in `[0, period)` |
| Periodic.PbcSym | src/state.cpp:164-166 | the centred wrap of a displacement lies in `[-period/2, period/2)` |
| Periodic.PbcUnique | src/state.cpp:188-194 | any shift by whole periods that lands in `[0, period)` is the wrap |
| Periodic.PbcSymUnique | src/state.cpp:164-166 | any shift by whole periods that lands in `[-period/2, period/2)` is the centred wrap |
| Periodic.PbcFixesInRange | src/state.cpp:188-194 | a value already in `[0, period)` is left unchanged |
| Periodic.PbcPeriodic | src/state.cpp:188-194 | shifting the input by whole periods does not change the wrap |
| Periodic.PbcSymFixesInRange | src/state.cpp:164-166 | a displacement already in the centred interval is left unchanged |
| Periodic.PbcSymNegate | src/state.cpp:162-166 | the centred wrap of `-d` is minus the wrap of `d`, except at `-period/2`; the squared displacement does not depend on direction |
| ForceField.CentralForce | src/state.cpp:167-172 | the force for a wrapped displacement `(dx, dy)`: `(u·dx, u·dy)` with `u = k (1/sqrt(dr2) - 1)` when `dr2 * (1 - dr2) > 0`, otherwise nothing; its laws are in the lemmas below |
| ForceField.PairForce | src/state.cpp:162-172 | the force of `j` on `i`: `CentralForce` of the minimum-image displacement `pbcSym(x_i - x_j)`, `pbcSym(y_i - y_j)` |
| ForceField.CutoffIsStrict | src/state.cpp:169 | `dr2 * (1 - dr2) > 0` holds exactly when `0 < dr2 < 1` |
| ForceField.CentralForceIsCentral | src/state.cpp:167-172 | the force is parallel to the displacement, and it is zero unless `0 < dr2 < 1` |
| ForceField.PairForceCentral | src/state.cpp:162-172 | the same for two particles: parallel to the minimum-image displacement from `j` to `i`, and zero unless their squared wrapped distance is in `(0, 1)` |
| ForceField.MagnitudeNonNegative | src/state.cpp:170 | for `k >= 0` and `0 < dr2 < 1`, `u = k (1/sqrt(dr2) - 1) >= 0` |
| ForceField.CentralForceRepulsive | src/state.cpp:169-172 | for `k >= 0` inside the cutoff, the force is a non-negative multiple of the displacement; its projection on the displacement is `>= 0`, and `> 0` when `k > 0` |
| ForceField.PairForceRepulsive | src/state.cpp:162-172 | the force on `i` from `j` points away from `j` along the minimum-image displacement (strictly away when `k > 0`) |
| ForceField.SelfPairVanishes | src/state.cpp:162-169 | a particle paired with itself (`i == j` in the same box) gets no force |
| ForceField.HalfUnitApart | src/state.cpp:162-172 | two particles 0.5 apart along x get forces `(k/2, 0)` and `(-k/2, 0)` |
| ForceField.NegatedDisplacement | src/state.cpp:162-167 | swapping `i` and `j` keeps `dr2`; inside the cutoff (for `len >= 2`) it negates both wrapped components |
| ForceField.PairForceAntisymmetric | src/state.cpp:162-177 | the force of `i` on `j` is minus the force of `j` on `i` (Newton's third law for one pair) |
| ForceField.ForceMatricesAntisymmetric | src/state.cpp:162-177 | for `len >= 2`, the x and y pair-force matrices of any configuration are antisymmetric |
| ForceField.Deposit | src/state.cpp:174-177 | one pair update: `+w` on `i`, then `-w` on `j` |
| ForceField.Accumulate | src/state.cpp:146-182 | the zeroed buffer after the pair updates of a visit sequence, in order; it has one entry per particle |
| ForceField.DepositZero | src/state.cpp:169-178 | skipping a non-interacting pair is the same as depositing a zero force |
| ForceField.DepositsAppend | src/state.cpp:158-182 | the updates of two consecutive runs of pairs compose: the four loop levels can be proved one at a time |
| ForceField.DepositsNextNeighbour | src/state.cpp:159 | one more neighbour box deposits the pairs of the two boxes after the earlier neighbours' pairs |
| ForceField.DepositsNextRow | src/state.cpp:160 | one more particle of `b1` deposits its row after the earlier rows |
| ForceField.DepositsNextPair | src/state.cpp:161 | one more particle `j` of `b2` deposits exactly the pair `(i, j)` when it is visited, and nothing otherwise |
| ForceField.AccumulateNextBox | src/state.cpp:158 | one more box deposits its stencil after the earlier boxes' pairs |
| ForceField.AccumulateConserves | src/state.cpp:171-177 | every `+f`/`-f` update keeps the total force at 0, whatever pairs are visited |
| ForceField.AccumulateZeroMatrix | src/state.cpp:146-182 | with no pair force anywhere, the buffers stay all zeros |
| ForceField.MatchContribution | src/state.cpp:174-177 | with antisymmetric pair forces, one visit changes particle `i` by the pair force of its partner in that visit |
| ForceField.AccumulateAt | src/state.cpp:158-182 | the accumulated force on `i` is the pair force of each partner `j`, weighted by how often `{i, j}` was visited |
| ForceField.AccumulateMatchesAllPairs | src/state.cpp:158-182 | if every interacting unordered pair is visited exactly once, the accumulation equals the all-pairs sum, whatever the visiting order |
| ForceField.InternalForces | src/state.cpp:145-183 | the forces `calcInternalForces` produces, as written or corrected, have length `n_parts` and sum to 0 in x and in y |
| ForceField.CellListMatchesAllPairs | src/state.cpp:158-182 | for `len >= 2`, if the loops visit every pair within the cutoff exactly once, the forces equal the brute-force all-pairs minimum-image sum |
| ForceField.CorrectedLoopMatchesAllPairs | src/state.cpp:158-182 | for `len >= 2`, the corrected loops give the all-pairs forces on every cell list where each particle is in one box, each box lists itself once, and the boxes of two interacting particles in different boxes are paired once |
| ForceField.OneBoxVisits | src/state.cpp:158-161 | with one box that holds particles 0 and 1 and lists itself, the loops as written visit the pair twice; the corrected loops visit it once |
| ForceField.HalfApartForce | src/state.cpp:158-177 | in that box, with the particles 0.5 apart, the x force on particle 0 is `k/2` times the number of visits of the pair |
| ForceField.AsWrittenDoublesSameBoxForce | src/state.cpp:158-177 | in that configuration the loops as written give particle 0 the force 1, while the all-pairs sum and the corrected loops give 0.5 |
| ForceField.NoContactNoForce | src/state.cpp:146-182 | if no two particles are within the cutoff, every force is 0 |
| CellList.Row | src/state.cpp:161 | the innermost loop: the pairs `(i, j)` for `j` in `b2`'s list, in order, only `i < j` when the box is paired with itself in the corrected loop |
| CellList.BoxPairs | src/state.cpp:160-161 | the two inner loops: the rows of every `i` in `b1`'s list, in order |
| CellList.Stencil | src/state.cpp:159-161 | the neighbour loop: the box pairs of `b1` with its first `q` neighbour boxes, in order |
| CellList.VisitsUpTo | src/state.cpp:158-161 | the outer loop: the stencils of the first `nb` boxes, in order |
| CellList.Visits | src/state.cpp:158-161 | all pairs the four loops visit, in order; each is a pair of particle indices |
| CellList.RowCount | src/state.cpp:161 | a row of `a` meets `{i, j}` once per copy of `j` in the list when `a = i`, once per copy of `i` when `a = j`, and only in the orders the loop admits |
| CellList.BoxPairsCount | src/state.cpp:160-161 | two lists meet `{i, j}` (copies of `i` in the first) × (copies of `j` in the second) times, plus the same with `i` and `j` swapped, each in the orders the loop admits |
| CellList.BoxPairsCountAtHomes | src/state.cpp:160-161 | when every particle is in exactly one box, boxes `b1` and `b2` meet `{i, j}` once for each order in which `b1` holds one particle and `b2` the other |
| CellList.StencilCount | src/state.cpp:159-161 | the neighbour loop of `b1` meets `{i, j}` once per listing of the other particle's box among `b1`'s neighbours; in the corrected loop a same-box pair is met once per listing of `b1` itself |
| CellList.VisitsUpToCount | src/state.cpp:158-161 | the first `nb` boxes meet `{i, j}` as the stencils of the particles' own boxes among them say |
| CellList.VisitCount | src/state.cpp:158-161 | when every particle is in one box, the loops as written visit `{i, j}` (home of `j` listed by home of `i`) + (home of `i` listed by home of `j`) times; the corrected loops visit a same-box pair once per self-listing |
| CellList.AsWrittenSameBoxCountIsEven | src/state.cpp:158-161 | as written, two particles of one box are visited twice per self-listing of the box, never exactly once |
| CellList.CorrectedVisitsOnce | src/state.cpp:158-161 | corrected, every pair is visited exactly once when each box lists itself once and two different boxes are paired once |
| CellList.VisitsValid | src/state.cpp:158-161 | every pair the loops visit is a pair of particle indices, so the updates stay in bounds |
| Integrator.AdvanceX | src/state.cpp:124-128 | the new x before wrapping: `x + dt (f_x + activity cos θ) + ran_num_x` |
| Integrator.AdvanceY | src/state.cpp:125-129 | the new y before wrapping: `y + dt (f_y + activity sin θ) + ran_num_y` |
| Integrator.Drift | src/state.cpp:115-136 | the integration loop applied to every particle, angles advanced by `ran_num_angle`; the result has one entry per particle |
| Integrator.Wrap | src/state.cpp:188-194 | the wrapped snapshot satisfies the periodicity invariant |
| Integrator.WrapFixesInRange | src/state.cpp:188-194 | a snapshot that already satisfies the invariant is unchanged by the wrap |
| Integrator.WrapIdempotent | src/state.cpp:188-194 | wrapping twice is wrapping once |
| Integrator.Step | src/state.cpp:103-139 | one step (forces from the pre-step positions with the loops as written or corrected, drift, wrap) ends in range |
| Integrator.IdleUpdateIsIdentity | src/state.cpp:115-138 | with zero forces, zero activity and zero noise, an in-range configuration is unchanged |
| Integrator.LoneParticleStaysPut | src/state.cpp:103-139 | a single particle with no activity and no noise stays where it is, with either force loop |
| SimulationState.State.constructor | src/state.cpp:65-69 | all five arrays have length `n_parts`, the force buffers are zero, and the given initial configuration is in range |
| SimulationState.State.ResetForces | src/state.cpp:146-149 | after the zeroing loop both force buffers are all zeros |
| SimulationState.State.CalcInternalForces | src/state.cpp:145-183 | the force buffers end up holding `InternalForces` of the current positions, from the loops as written or corrected as `oncePerPair` selects |
| SimulationState.State.AddNeighbourForces | src/state.cpp:159-181 | the neighbour loop of box `b1` deposits exactly the pairs of its stencil, as written or corrected |
| SimulationState.State.AddNeighbourBoxForces | src/state.cpp:159-181 | one pass of the neighbour loop extends the deposited stencil by the pairs of `b1` with its next neighbour box |
| SimulationState.State.AddBoxPairForces | src/state.cpp:160-180 | the two inner loops deposit exactly the pairs of two boxes' particle lists (only `i < j` for a box with itself) |
| SimulationState.State.AddRowForces | src/state.cpp:161-179 | the innermost loop deposits exactly the row of pairs `(i, j)`, with `j` from `b2` (only `j > i` for a box with itself) |
| SimulationState.State.AddPairForce | src/state.cpp:162-178 | the loop body deposits the pair force of `j` on `i`: `+f` on `i`, `-f` on `j` |
| SimulationState.State.ApplyPairForce | src/state.cpp:174-177 | the four updates add `(fx, fy)` to `i` and subtract it from `j` |
| SimulationState.State.Integrate | src/state.cpp:115-136 | the integration loop leaves the configuration given by the Euler–Maruyama drift, and the forces unchanged |
| SimulationState.State.MoveParticle | src/state.cpp:116-135 | iteration `i` sets particle `i`'s coordinates and angle to their updated values and touches no other entry |
| SimulationState.State.EnforcePBC | src/state.cpp:188-194 | every coordinate is replaced by its wrap into `[0, len)` and every angle by its wrap into `[0, 2π)`; the result is in range |
| SimulationState.State.Evolve | src/state.cpp:103-139 | the forces come from the pre-step positions (loops as written or corrected), the new configuration is `Step` of the old one with the same loops, and it is in range |

## Left out

- Random numbers are not modelled: the seeded generators and the MKL and standard-library draws. Each step's Gaussian numbers are an input (`Draws`), following the MKL path.
- The constructor's random initial placement is not modelled. The initial configuration is an input. On the MKL path the orientation draw goes into `ran_num_angle` (src/state.cpp:82-83), not into `angles`.
- The non-MKL constructor loop's `forces[i] = 0; forces[n_parts + i] = 0;` (src/state.cpp:92-93) is not modelled. It indexes the two-element force array by particle number, and the buffers are already zero from lines 68-69.
- Temperature and rotational diffusivity only set the standard deviations of the draws. They therefore do not appear.
- IEEE double arithmetic is not modelled: no rounding, no overflow, and no infinity as `dr2` goes to 0. The model computes over the reals.
- `sqrt`, `sin`, `cos` and `sincos` are abstract functions (`Maths`). The repulsion lemmas assume, at the one point they need it, that `rsqrt(dr2)` is a positive number whose square times `dr2` is 1.
- The `Boxes` class (`update`, `getNBoxes`, `getNbrsPos`, `getPartsOfBox`) and `pbc`/`pbcSym` are defined in state.h, which is not part of this model. The cell list is given data. The wraps are defined as the floor-based modulo into `[0, L)` and into `[-L/2, L/2)`.
- ForceField.PairForceAntisymmetric: requires `len >= 2`. The centred wrap maps `-len/2` to itself, so for a smaller box two particles exactly `len/2` apart can feel forces that are not opposite.
- ForceField.CellListMatchesAllPairs: requires `len >= 2` for the same reason. It takes exactly-once visiting of interacting pairs as a hypothesis. The loops as written cannot meet it once two interacting particles share a box (`CellList.AsWrittenSameBoxCountIsEven`). The corrected loops meet it under the conditions of `ForceField.CorrectedLoopMatchesAllPairs`.
- ForceField.CorrectedLoopMatchesAllPairs: the neighbour lists are given data, so that each box lists itself exactly once, and the boxes of two interacting particles in different boxes are paired exactly once (one lists the other once, the other does not list it), is a hypothesis about `Boxes` in state.h, which is not part of this model.
- ForceField.PairForceRepulsive: holds for `pot_strength >= 0` and states repulsion as a non-negative projection on the displacement.
- The observables (src/observables.h) are not modelled. They are declarations of histograms and file output.
- The `Simul` driver in simul.h is not modelled: argument parsing, the run loop, printing and sleeping. The validators' error messages to `std::cerr` are not modelled either.
- The validators are modelled on reals. In the source they are templates over any ordered numeric type.

## Findings

| source | as written | input that shows it | evidently intended | confidence | as-written member | corrected member |
|---|---|---|---|---|---|---|
| src/state.cpp:158-161 | the loop over `j` in `b2` has no `i < j` filter, so when a box is its own neighbour every pair of its particles is visited as `(i, j)` and as `(j, i)`, and the force between them is applied twice; if the box does not list itself they are never visited | one box listing itself, holding particles 0 and 1 at x = 0.5 and x = 0, `len = 4`, `k = 1`: the x force on particle 0 is 1, the all-pairs force is 0.5 | when `b2 == b1`, only pairs with `i < j`, so each pair in a box is counted once | high, for either kind of neighbour list; not executed | ForceField.AsWrittenDoublesSameBoxForce | ForceField.CorrectedLoopMatchesAllPairs |

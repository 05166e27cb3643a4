# Ocelot transfer-map engine, modelled in Dafny

This project models the core of the charged-particle beam dynamics module (`cpbd`) of the
Ocelot accelerator toolkit:

- the first-order **transfer-map algebra** of `cpbd/optics.py`:
  - the `TransferMap` value: `R(E)`, `B(E)`, `length`, `order`, `delta_e` and the `identity` flag;
  - composition (`__mul__`) and slicing (`__call__`);
  - the structural decisions of the per-element factory `create_transfer_map`;
- the **in-place particle-buffer updates**: `mul_p_array`, `transform_vec_ent`/`transform_vec_ext`, `t_apply`,
  `map4corr`, and the drift–kick–drift sextupole and octupole integrators;
- the **lattice walks**:
  - `lattice_transfer_map` and `trace_z`;
  - `trace_obj` and `twiss`;
  - the `Navigator` cursor and `get_map`. That loop slices the lattice into the maps of the next `dz`
    metres. It composes linear slices into an accumulator of at most 101 slices and emits nonlinear
    slices atomically.
- the **Twiss rules**: `map_x_twiss` (envelope, dispersion, phase advance, energy scaling) and
  `periodic_twiss` (the matched Twiss of a one-turn matrix);
- the **matcher's objective** `errf` of `cpbd/match.py`:
  - the writes of the trial values, with the Drift guard;
  - the reference points, and the global and local penalties;
  - the default weights and the optimiser's initial vector;
- the **chromaticity bookkeeping** of `cpbd/chromaticity.py`:
  - the natural and sextupole chromaticity walks, with the quadrature integrals as parameters;
  - sextupole-family discovery (`sextupole_id`);
  - the two-family moment sums and 2×2 solve (`calculate_sex_strength`);
  - the in-place write-back of `ms` and `k2` (`compensate_chromaticity`).

Numbers are Dafny `real`s. A 6×6 matrix is a `seq<seq<real>>`; a phase-space vector is a `seq<real>` of length 6.
Transcendental functions are fields of a `Lib` value passed as a parameter. These are `cos`, `sin`, `sqrt`,
`arctan`, `pi`, the focusing functions and the electron mass. Each lemma requires exactly the laws it uses,
such as `cos² + sin² = 1` at the tilt, or `arctan` ranging in `[-π/2, π/2]`.

Physics the factory delegates to other modules are fields of a `Physics` value. These include
`uni_matrix` with focusing, the edge, cavity, solenoid and undulator matrices, `t_nnn`, `sym_map`,
the fringe fields and the cavity kick.

A `TransferMap` is a datatype with function-valued `R`, `B` and kick fields, so equalities of maps
are stated pointwise (`SameLinear`).

The lattice elements are a class whose `data` (parameters) and `transferMap` fields are updated in
place by the matcher and by the chromaticity compensation.

Where the code and its design description differ, the model follows the code:

- `A * B` applies `B` first: `R = A.R·B.R`, `B = A.R·B.B + A.B`. Composition silently yields `order` 1
  and `delta_e` 0 for any operands; nothing is flagged.
- The order-2 map of a zero-length sextupole uses the strength `k2·l`, which is 0, so it does nothing.
  Only the order-3 map uses the integrated strength `ms`.
- An unknown entity in `apply` is printed and left alone; an unknown operand of `*` ends the program.
  Neither is modelled as an error value.
- A singular matrix in `periodic_twiss` or `calculate_sex_strength` raises an exception in the code and
  is not reported as a "no solution" result.
- Stepping past the lattice end in `get_map` fails on the sequence index. The model returns `None` there.

## Model

| member | source | states |
|---|---|---|
| TransferMaps.NewMap | cpbd/optics.py:132-156 | a fresh map is the identity transport: R(E) = I and B(E) = 0 at every energy, length 0, delta_e 0, with the requested order and identity flag |
| TransferMaps.Compose | cpbd/optics.py:271-280 | the product of two maps always has order 1, delta_e 0 and is not flagged identity, whatever the operands |
| TransferMaps.ComposeTracks | cpbd/optics.py:271-280 | tracking a vector with a·b is tracking it with b and then with a; the lengths add |
| TransferMaps.ComposeIdentityLeft | cpbd/optics.py:139-152 | the identity map is a left unit of composition (same R and B at every energy, same length) |
| TransferMaps.ComposeIdentityRight | cpbd/optics.py:139-152 | the identity map is a right unit of composition |
| TransferMaps.ComposeAssocAt | cpbd/optics.py:271-280 | (a·b)·c and a·(b·c) have the same R and B at an energy |
| TransferMaps.ComposeAssoc | cpbd/optics.py:271-280 | composition is associative: same linear part, length, order and delta_e |
| TransferMaps.Slice | cpbd/optics.py:330-339 | the map of the first s metres of an element has length s, the element's order, delta_e(s) and R, B re-evaluated at s, and is never identity |
| Linear2.Solve2Solves | cpbd/optics.py:871-880 | the 2×2 solve used for the periodic dispersion and the sextupole strengths returns a solution whenever the determinant is non-zero |
| Linear2.Solve2Unique | cpbd/chromaticity.py:164-168 | that solution is the only one |
| Linear2.Solve2SwapColumns | cpbd/chromaticity.py:164-168 | exchanging the two columns of the system exchanges the two unknowns |
| TwissFields.SetField | cpbd/match.py:50-53 | writing one named Twiss field changes that field to the value and leaves every other field and the id as they were |
| TwissFields.FieldsDetermineTwiss | cpbd/match.py:50-53 | two Twiss values that agree on every named field and the id are equal (the named fields are all of them) |
| ParticleBuffers.BlockwiseBlock | cpbd/optics.py:68-71 | a strided per-particle update gives particle i exactly f of its old 6 coordinates |
| ParticleBuffers.BlockwiseTail | cpbd/optics.py:68-71 | the coordinates after the last complete particle are left untouched |
| ParticleBuffers.ApplyPerParticle | cpbd/optics.py:68-71 | the in-place loop over the particles of a buffer leaves it equal to the per-particle map of its old contents |
| ParticleBuffers.RotApply | cpbd/optics.py:18-26 | rot_mtx applied to a particle rotates (x, y) and (px, py) by the tilt and keeps tau and p |
| ParticleBuffers.RotRoundTrip | cpbd/optics.py:18-26 | with cos² + sin² = 1, rotating by -tilt undoes rotating by tilt |
| ParticleBuffers.OffsetRoundTrip | cpbd/optics.py:65-81 | adding back the offset (dx, dy) undoes subtracting it |
| ParticleBuffers.ExitOfRotated | cpbd/optics.py:74-81 | the exit transform of a rotated particle un-rotates it and adds the offset back |
| ParticleBuffers.ExitAfterEntrance | cpbd/optics.py:65-81 | transform_vec_ext undoes transform_vec_ent on a particle |
| ParticleBuffers.EntranceKeepsMomentum | cpbd/optics.py:65-72 | the entrance transform never changes the momentum deviation p |
| ParticleBuffers.ExitKeepsMomentum | cpbd/optics.py:74-81 | the exit transform never changes p |
| ParticleBuffers.ExitUndoesEntrance | cpbd/optics.py:65-81 | on a whole buffer, transform_vec_ext(transform_vec_ent(X)) == X |
| ParticleBuffers.TransformVecEnt | cpbd/optics.py:65-72 | updates the buffer in place, particle by particle, to rot(tilt)·(x − offset) and returns the same buffer |
| ParticleBuffers.TransformVecExt | cpbd/optics.py:74-81 | updates the buffer in place to rot(−tilt)·x + offset and returns the same buffer |
| ParticleBuffers.TApply | cpbd/optics.py:84-127 | the second-order update: entrance transform, then R·X plus the T-tensor terms in coordinates 0–4, then the exit transform, in place on the same buffer |
| ParticleBuffers.SecondOrderKeepsMomentum | cpbd/optics.py:84-127 | the second-order step never reassigns coordinate 5 of a particle |
| ParticleBuffers.TApplyKeepsMomentum | cpbd/optics.py:84-127 | t_apply leaves coordinate 5 of every particle as it was |
| ParticleBuffers.ZeroTensorIsLinear | cpbd/optics.py:84-127 | with a zero T tensor, coordinates 0–4 of the second-order step are the matching rows of R·x |
| ParticleBuffers.TApplyAlignedLinear | cpbd/optics.py:84-127 | with zero T, no offset and no tilt, t_apply sets coordinates 0–4 of every particle to the matching rows of R·X |
| ParticleBuffers.Map4Corr | cpbd/optics.py:557-562 | the corrector map replaces every particle by R·x + B, in place |
| ParticleBuffers.ThinKickKeepsPosition | cpbd/optics.py:408-422 | with z = 0 the drift–kick–drift step leaves x, y, tau and p unchanged and only kicks px, py |
| ParticleBuffers.DriftKickDriftReversible | cpbd/optics.py:408-456 | running the drift–kick–drift step back over −z with the opposite kick restores the particle exactly |
| ParticleBuffers.SextupoleReversible | cpbd/optics.py:408-422 | the sextupole step with (−z, −ms) undoes the step with (z, ms) |
| ParticleBuffers.SextupoleThinOpposite | cpbd/optics.py:408-422 | at z = 0, applying strength ms then −ms restores px and py (and the whole particle) |
| ParticleBuffers.OctupoleReversible | cpbd/optics.py:443-456 | the octupole step with (−z, −moct) undoes the step with (z, moct) |
| ParticleBuffers.Map4Sextupole | cpbd/optics.py:408-422 | every particle of the buffer gets the half-drift, sextupole kick, half-drift step, in place |
| ParticleBuffers.Map4Octupole | cpbd/optics.py:443-456 | every particle of the buffer gets the half-drift, octupole kick, half-drift step, in place |
| MapFactory.UniMatrixDriftLimit | cpbd/optics.py:29-62 | with k1 = hx = 0 uni_matrix is the drift matrix: R01 = R23 = z and R45 the velocity term |
| MapFactory.DriftApply | cpbd/optics.py:29-62 | the drift matrix moves x by px·z, y by py·z and tau by r56·p |
| MapFactory.DriftR56Additive | cpbd/optics.py:29-62 | the drift's r56 term is additive in the length |
| MapFactory.KickBFullLength | cpbd/optics.py:541-555 | over the full length a corrector's B kicks px (or py) by the angle and displaces x (or y) by angle·l/2, leaving tau and p alone |
| MapFactory.RMatrixGate | cpbd/optics.py:733-740 | a Matrix element's R is the drift matrix below its length and the supplied matrix from its length on |
| MapFactory.MatrixRmBlock | cpbd/optics.py:709-729 | the Matrix element's rm block fills the transverse 4×4 corner and leaves tau and p untouched |
| MapFactory.MultipoleThinLens | cpbd/optics.py:757-760 | the multipole's linear map is the thin lens px −= kn[1]·x (plus kn[0]·p), py += kn[1]·y |
| MapFactory.CavityKeepsReference | cpbd/optics.py:646-657 | the cavity kick changes only p, and keeps the reference particle (tau = p = 0) at p = 0 |
| MapFactory.OrderTags | cpbd/optics.py:439-764 | an element's map order is above 1 exactly for the nonlinear kinds, is between 1 and 3, and is 3 exactly for an Octupole |
| MapFactory.CurvatureRule | cpbd/optics.py:351-354 | hx is 0 for a zero-length element and angle/l otherwise |
| MapFactory.ElementMapOf | cpbd/optics.py:773-778 | the factory's map has the element's length, order and curvature, and R_z, B_z, delta_e_z, map_z, sym_map_z are the per-kind rules at every slice length and energy |
| MapFactory.WithDefaults | cpbd/optics.py:458-459 | an Octupole always ends up with a moct value |
| MapFactory.CreateTransferMap | cpbd/optics.py:342-780 | builds exactly the map ElementMapOf gives for the element's (defaulted) parameters and writes nothing else |
| MapFactory.DisplacedTracking | cpbd/optics.py:358-358 | with b_z = (I − R)·(dx, 0, dy, 0, 0, 0), tracking is R applied about the displaced axis: R·(x − d) + d |
| MapFactory.ElementDisplacement | cpbd/optics.py:356-364 | every slice of a displaced element other than a corrector tracks as R_z·(x − d) + d |
| MapFactory.DriftIgnoresDisplacement | cpbd/optics.py:358-358 | a drift's b_z is zero whatever the displacement |
| MapFactory.PlainDriftParts | cpbd/optics.py:356-364 | a plain Drift's R_z is the drift matrix and its B_z is zero |
| MapFactory.DriftSliceTracking | cpbd/optics.py:330-339 | a Drift slice of length z moves a particle as a drift of length z |
| MapFactory.DriftStepsAdd | cpbd/optics.py:29-62 | two drifts in a row are one drift of the summed length |
| MapFactory.DriftTracksChain | cpbd/optics.py:271-280 | composing two maps that act as consecutive drifts tracks like the drift of the summed length |
| MapFactory.PlainDriftActsAsDrift | cpbd/optics.py:356-364 | a plain Drift's map acts as a drift at every slice length |
| MapFactory.DriftMapSlicesCompose | cpbd/optics.py:330-339 | for a map acting as a drift, slice(z2)·slice(z1) tracks like slice(z1 + z2) |
| MapFactory.DriftSlicesCompose | cpbd/optics.py:330-339 | a Drift's slices compose: slice(z2)·slice(z1) tracks like slice(z1 + z2) |
| MapFactory.HcorDeflects | cpbd/optics.py:568-577 | a horizontal corrector adds its angle to px and leaves py unchanged |
| MapFactory.VcorDeflects | cpbd/optics.py:568-577 | a vertical corrector adds its angle to py and leaves px unchanged |
| MapFactory.ZeroStrengthSextupole | cpbd/optics.py:408-422 | a zero-length, zero-strength sextupole step is the identity |
| MapFactory.ThinSextupoleMapIdle | cpbd/optics.py:426-438 | the order-2 map of a zero-length sextupole leaves every buffer unchanged |
| MapFactory.ThinSextupoleUndo | cpbd/optics.py:426-434 | on a buffer, a thin kick with −ms undoes the thin kick with ms |
| MapFactory.ThinSextupoleSymMap | cpbd/optics.py:425-434 | the order-3 map of a zero-length sextupole is the thin kick with ms, undone by the kick with −ms |
| MapFactory.ThinOctupoleStrength | cpbd/optics.py:458-465 | a zero-length octupole kicks with moct, and filling in the default moct = k3·l keeps that strength |
| MapFactory.ThickOctupoleReversible | cpbd/optics.py:458-465 | a thick octupole's slice kicks with k3·z whatever moct holds, so the slice over −z undoes the slice over z |
| MapFactory.CavityEnergyGain | cpbd/optics.py:670-671 | a cavity gains v·cos(phi) over its length, the gain is additive in z and zero at z = 0 |
| MapFactory.OnlyCavitiesGainEnergy | cpbd/optics.py:342-780 | every slice of a non-cavity element has delta_e 0 |
| Tracking.CopyInto | cpbd/optics.py:245-245 | particles[:] = a: the buffer's contents become exactly the new values |
| Tracking.MulPArrayResult | cpbd/optics.py:218-258 | mul_p_array produces a result exactly when the map's or the requested order is 1, or order 2 or 3 is requested, and keeps the buffer length |
| Tracking.MulPArray | cpbd/optics.py:218-258 | order 1: every particle becomes R(E)·x + B(E), in place, returning the same buffer; order 2 uses map, order 3 sym_map; otherwise the buffer is untouched and None is returned |
| Tracking.LinearTrackingComposes | cpbd/optics.py:244-247 | first-order tracking with b then a equals tracking with a·b |
| Tracking.IdentityTracking | cpbd/optics.py:244-247 | first-order tracking with the identity map changes nothing |
| Tracking.MulParticle | cpbd/optics.py:282-287 | map·particle tracks the coordinates at energy 0, advances s by the length and gives a fresh particle's E |
| Tracking.MulParticleAssoc | cpbd/optics.py:282-287 | (a·b)·particle and a·(b·particle) have the same coordinates and s |
| Tracking.ApplyToList | cpbd/optics.py:303-319 | for particles of unequal energies the coordinates stay as they were while E grows by delta_e and s by the length; for equal energies the packed buffer is mapped and unpacked with E + delta_e and s + length |
| Tracking.ApplyToArray | cpbd/optics.py:321-325 | the ParticleArray's own buffer is mapped in place, E grows by delta_e and s by the length |
| Lattice.LatticeTransferMap | cpbd/optics.py:784-791 | the loop's accumulated R is the product of the elements' full-length R, the last element on the left |
| Lattice.LatticeRIsComposition | cpbd/optics.py:784-791 | that product is the R of the composition of all element maps |
| Lattice.LatticeRConcat | cpbd/optics.py:784-791 | the one-turn R of two concatenated lattices is the product of their R, second on the left |
| Lattice.ReachFindsElement | cpbd/optics.py:805-809 | the element the walk stops at is the first one at or after the cursor whose end is at or beyond z |
| Lattice.ReachFailsPastEnd | cpbd/optics.py:805-809 | the walk finds no element exactly when z is beyond the end of every remaining element |
| Lattice.Seek | cpbd/optics.py:805-809 | the inner while loop finds the element reaching z, with its end position and the object tracked to its entrance, or reports that none does |
| Lattice.TraceNext | cpbd/optics.py:804-813 | one sample of trace_z: appends the object sliced to z inside its element, or fails when z is past the end |
| Lattice.Trace | cpbd/optics.py:794-814 | trace_z's loop computes exactly the traced list of the specification function TraceFrom |
| Lattice.TraceZ | cpbd/optics.py:794-814 | an empty lattice yields no trace; otherwise the result is TraceFrom over the lattice's lengths and maps |
| Lattice.Navigator.constructor | cpbd/optics.py:908-915 | a new cursor sits at z0 = 0 on element 0 with sum_lengths 0 |
| Lattice.PushGroup | cpbd/optics.py:939-954 | emitting a group (an atomic slice or a composed run) keeps the emitted maps equal to the maps their groups stand for |
| Lattice.ExtendRun | cpbd/optics.py:948-954 | composing one more linear slice into the accumulator gives slice·(previous run) |
| Lattice.FullStepsAt | cpbd/optics.py:939-960 | the slices before the last are exactly the remainders of consecutive whole elements |
| Lattice.PendingStart | cpbd/optics.py:929-936 | the walk starts with nothing emitted, an identity accumulator and rec_count 0 |
| Lattice.FlushRun | cpbd/optics.py:939-976 | flushing appends the accumulator exactly when it is not identity (the pending run becomes one group), and resets it to identity with rec_count 0 |
| Lattice.EmitAtomic | cpbd/optics.py:941-968 | a nonlinear slice (element order > 1 or requested order > 1): TM becomes TM, plus tm when tm is not identity, plus the slice itself; tm is reset to identity and rec_count to 0 |
| Lattice.PendingExtend | cpbd/optics.py:948-951 | composing a linear slice grows the run by one, rec_count by one, and the accumulator stays the run's composition |
| Lattice.ComposeLinear | cpbd/optics.py:948-954 | a linear slice: tm becomes slice·tm and rec_count grows by one with TM unchanged, unless rec_count then exceeds 100, when TM gains slice·tm and tm and rec_count are reset |
| Lattice.PushSlice | cpbd/optics.py:939-954 | one slice inside the loop: the nonlinear update of EmitAtomic or the linear update of ComposeLinear, chosen by the element order and the requested order; its grouping is one step of the greedy grouping |
| Lattice.PushLastSlice | cpbd/optics.py:962-975 | the final slice: TM gains tm (when not identity) and then the slice if nonlinear, or else the composed slice·tm; nothing is left pending |
| Lattice.PassShape | cpbd/optics.py:939-960 | the loop's groups and pending run cover the slices walked, every group obeys the rules, at most 100 slices are pending, and a run is cut off only when it holds 101 slices |
| Lattice.PassUnique | cpbd/optics.py:939-960 | the loop's groups and pending run are the only ones with that shape that cover the slices walked |
| Lattice.GreedyPlanShape | cpbd/optics.py:939-975 | get_map's grouping covers the slices in order, obeys the grouping rules, and a run is followed by another run only when it holds 101 slices |
| Lattice.GreedyUnique | cpbd/optics.py:939-975 | any grouping that covers the slices in order, obeys the rules and cuts runs only when full is get_map's grouping |
| Lattice.WalkPastEnd | cpbd/optics.py:939-960 | when the walk runs off the last element, the end reached is sum_lengths plus the remaining lengths |
| Lattice.WalkEnd | cpbd/optics.py:939-973 | at the loop's exit the slices are whole remainders then one partial slice, they sum to dz, and the target lies in the last element |
| Lattice.CrossElement | cpbd/optics.py:939-954 | crossing element i pushes its remaining slice L − z0 with PushSlice's exact update of TM, tm and rec_count, and the walked slices grow by that slice |
| Lattice.NextElement | cpbd/optics.py:955-960 | the cursor moves to the next element and its end boundary |
| Lattice.WalkWhole | cpbd/optics.py:939-960 | the while loop stops at the first element whose end z0 + dz does not pass (every element end crossed before it lies below z0 + dz), or reports that z0 + dz passes every element end to the last |
| Lattice.Cut | cpbd/optics.py:925-975 | on success the cursor moves to z0 + dz on the first element whose end z0 + dz does not pass, and the returned maps are those of the greedy grouping of the slices, which sum to dz; failure happens only when z0 + dz passes every element end |
| Lattice.MovedDetermined | cpbd/optics.py:939-973 | two outcomes of the same walk stop on the same element, at the same position, after crossing the same number of elements |
| Lattice.MovedNotPastEnd | cpbd/optics.py:939-960 | a walk that stops on an element and one that runs past the last element exclude each other |
| Lattice.CutKeepsCursor | cpbd/optics.py:971-973 | the new sum_lengths is the start of the new element, and the new z0 lies within that element |
| Lattice.GetMap | cpbd/optics.py:925-976 | the returned maps are those of the greedy grouping of the slices of the next dz metres, in order, with z0 advanced by dz and n_elem, sum_lengths on the first element whose end z0 + dz does not pass; nothing is returned only when z0 + dz passes every element end, and the cursor then keeps its element |
| Tracing.TraceObj | cpbd/optics.py:820-840 | trace_obj's loop builds exactly the list of the specification function TraceObjList |
| Tracing.TraceAllStages | cpbd/optics.py:824-835 | without a filter the list has one more entry than the lattice, starts with the object labelled "none", and each entry is the previous one through the next element, labelled with its id |
| Tracing.KeptAll | cpbd/optics.py:824-835 | without a filter every stage is kept |
| Tracing.ObservedStagesSorted | cpbd/optics.py:836-840 | the kept stages are increasing and each one follows an element whose id is observed |
| Tracing.TraceObserved | cpbd/optics.py:836-840 | with a filter, the kept objects are exactly the stages after the observed elements, in lattice order |
| Tracing.TwissStart | cpbd/optics.py:887-898 | twiss() starts from the periodic solution of the one-turn matrix when a beta is zero, and otherwise from tws0 with its gammas recomputed |
| Tracing.ComputeTwiss | cpbd/optics.py:885-904 | twiss() returns None when no periodic solution exists, the element-by-element trace without samples, and the sampled trace_z with samples |
| Tracing.StartConsistent | cpbd/optics.py:896-898 | a start with both betas positive satisfies gamma = (1 + alpha²)/beta in both planes |
| Tracing.StartPeriodic | cpbd/optics.py:891-895 | with a zero beta the start is None exactly when the one-turn matrix is unstable |
| TwissOptics.SignedHalf | cpbd/optics.py:200-210 | (π/2)·R01/abs(R01) is π/2 times the sign of R01 |
| TwissOptics.RawPhaseRange | cpbd/optics.py:198-215 | the raw arctan phase lies in [−π/2, π/2] |
| TwissOptics.PhaseAdvanceRange | cpbd/optics.py:198-215 | the normalised phase increment lies in [0, π) |
| TwissOptics.PhasesAdvance | cpbd/optics.py:198-215 | mux and muy never decrease and grow by less than π per map |
| TwissOptics.MapXTwissEnergy | cpbd/optics.py:161-182 | without acceleration E and R are kept; with \|delta_e\| > 1e-10 the transverse entries are scaled by sqrt(Ef/Ei) and E becomes Ei + delta_e; p, s and id are kept |
| TwissOptics.ScaleTransverseEntries | cpbd/optics.py:169-176 | the scaling multiplies exactly the eight transverse block entries |
| TwissOptics.NewBetaTimesBeta | cpbd/optics.py:183-186 | β·β' = (R00·β − R01·α)² + R01², so the new beta keeps the sign of the old |
| TwissOptics.PlaneStaysConsistent | cpbd/optics.py:183-191 | the new (β', α') with γ' = (1 + α'²)/β' is a consistent plane |
| TwissOptics.MapXTwissConsistent | cpbd/optics.py:183-191 | with non-singular transverse blocks, map_x_twiss keeps beta > 0 and beta·gamma = 1 + alpha² in both planes |
| TwissOptics.DispersionTransport | cpbd/optics.py:193-197 | Dx, Dxp, Dy, Dyp are transported as rows 0–3 of M·(Dx, Dxp, Dy, Dyp, 0, 1) |
| TwissOptics.DispersionRows | cpbd/optics.py:193-197 | each dispersion row is M·(D, D') plus the momentum column entry |
| TwissOptics.GammaTransport | cpbd/optics.py:190-191 | with unit determinant, γ' = R10²β − 2R10R11α + R11²γ |
| TwissOptics.IdentityKeepsOptics | cpbd/optics.py:158-216 | the identity matrix leaves the optics, dispersion, phases and energy unchanged |
| TwissOptics.MulTwissConsistent | cpbd/optics.py:289-295 | map·Twiss keeps beta > 0 and βγ = 1 + α² in both planes when the blocks of the matrix used are non-singular, advances s by the map length and keeps p and the id |
| TwissOptics.PeriodicNoneIffUnstable | cpbd/optics.py:852-857 | periodic_twiss returns None exactly when \|(R00 + R11)/2\| ≥ 1 or \|(R22 + R33)/2\| ≥ 1 |
| TwissOptics.SinMuFacts | cpbd/optics.py:858-859 | sin μ takes its sign from R01, is non-zero, and sin²μ = 1 − cos²μ |
| TwissOptics.PlanePeriodic | cpbd/optics.py:858-869 | the periodic beta is R01/sin μ, alpha is (R00 − R11)/(2 sin μ), and the plane is consistent |
| TwissOptics.PeriodicConsistent | cpbd/optics.py:858-869 | in a stable lattice beta_x = \|R01/sin μx\|, alpha_x = (R00 − R11)/(2 sin μx), the same in y, and gamma = (1 + α²)/β in both planes |
| TwissOptics.PlaneFixedPoint | cpbd/optics.py:858-869 | β, α derived from a unit-determinant block are a fixed point of the beta and alpha transport |
| TwissOptics.DispersionSolvable | cpbd/optics.py:871-880 | in a stable plane the dispersion system (R − I)·D = −R·5 has determinant 2 − (a + d) > 0 |
| TwissOptics.DispersionFixedPoint | cpbd/optics.py:871-880 | the solved periodic dispersion is reproduced by one turn |
| TwissOptics.PeriodicIsMatched | cpbd/optics.py:846-882 | the periodic Twiss of a stable one-turn matrix is mapped onto itself by that matrix: betas, alphas, gammas and dispersion |
| TwissOptics.EnvelopeMatched | cpbd/optics.py:858-869 | a Twiss built from a stable one-turn matrix keeps its betas, alphas and gammas through it |
| TwissOptics.DispersionMatched | cpbd/optics.py:871-880 | the periodic dispersion is kept through the one-turn matrix |
| TwissOptics.PlaneMatched | cpbd/optics.py:858-869 | in one plane, the periodic β, α, γ are kept through the one-turn block |
| Chromaticity.NaturalChromaticity | cpbd/chromaticity.py:44-82 | the loop computes −(integral)/(4π)·nsuperperiod of the element walk, or None when a Multipole has fewer than two kn (the IndexError on kn[1]) |
| Chromaticity.NaturalElement | cpbd/chromaticity.py:51-79 | one element adds its quadrature term (bends and quadrupoles) or its multipole term, then carries the Twiss through the element |
| Chromaticity.NaturalWalkAppend | cpbd/chromaticity.py:51-79 | the walk over two concatenated lattices is the walk over the first, then over the second from its final Twiss, the integrals adding |
| Chromaticity.NoSextupolesNoCorrection | cpbd/chromaticity.py:92-114 | a lattice without Sextupoles contributes no sextupole chromaticity |
| Chromaticity.ThinMultipole | cpbd/chromaticity.py:75-82 | a Multipole alone gives chromaticity (−βx·kn[1]/(4π), βy·kn[1]/(4π)) at the Twiss after it |
| Chromaticity.SextupoleChromaticity | cpbd/chromaticity.py:85-114 | the loop computes (integral_x/(4π), −integral_y/(4π))·nsuperperiod of the sextupole walk |
| Chromaticity.SextupoleElement | cpbd/chromaticity.py:91-111 | a Sextupole adds its quadrature term times k2; every element carries the Twiss on |
| Chromaticity.SextupoleWalkAppend | cpbd/chromaticity.py:91-111 | the sextupole walk splits over concatenated lattices, the integrals adding |
| Chromaticity.Chromaticity | cpbd/chromaticity.py:117-118 | chromaticity is the element-wise sum of the natural and the sextupole parts |
| Chromaticity.CalculateSexStrength | cpbd/chromaticity.py:139-169 | fails as sextupole_id does, and otherwise returns the two-family strengths solved from the accumulated moments |
| Chromaticity.SumMoments | cpbd/chromaticity.py:153-163 | the loop accumulates the moments of the two families from the Twiss at each element's entrance |
| Chromaticity.MomentsElement | cpbd/chromaticity.py:157-163 | a family-0 element adds Dx·βx/(4π)·ns to m1x and subtracts Dx·βy/(4π)·ns from m1y, family 1 likewise into m2x, m2y; others add nothing |
| Chromaticity.SolveStrengths | cpbd/chromaticity.py:164-168 | the strengths are the solution of [[m1x, m2x], [m1y, m2y]]·k = ksi_comp − ksi |
| Chromaticity.StrengthsSolve | cpbd/chromaticity.py:164-169 | the result has exactly the two family keys, its values compensate the chromaticity, and they are the only values that do |
| Chromaticity.MomentsSwap | cpbd/chromaticity.py:155-163 | exchanging the two family names exchanges the accumulated moments |
| Chromaticity.FamilyOrderIrrelevant | cpbd/chromaticity.py:146-168 | the solved strengths do not depend on which family comes first in the dictionary |
| Chromaticity.PlanCompensation | cpbd/chromaticity.py:176-183 | the strengths computed from the natural chromaticity at the first Twiss have exactly the two family keys |
| Chromaticity.CompensateChromaticity | cpbd/chromaticity.py:172-195 | on success every element's parameters become their compensated values, on failure no element changes, and the transfer maps are left as they were |
| Chromaticity.SexStrengthIs | cpbd/chromaticity.py:139-169 | with exactly two families, the strengths are the solve over the moments accumulated for those families |
| Chromaticity.SexStrengthNames | cpbd/chromaticity.py:145-169 | the keys of the result are two distinct ids, exactly the ids of the family members |
| Chromaticity.SexStrengthCompensates | cpbd/chromaticity.py:164-169 | with an invertible moment matrix, the strengths compensate the chromaticity to the requested values |
| SextupoleFamilies.Put | cpbd/chromaticity.py:126-130 | sex[id] = v maps id to v, keeps the other entries and keeps the key order valid |
| SextupoleFamilies.SextupoleId | cpbd/chromaticity.py:120-137 | the loop builds the family dictionary of the specification function, which on success has exactly two keys |
| SextupoleFamilies.FamiliesFailure | cpbd/chromaticity.py:127-130 | the loop fails exactly when some multipole with n = 3 has fewer than three kn, and fails at the first such element |
| SextupoleFamilies.FamiliesValid | cpbd/chromaticity.py:122-131 | the keys found are exactly the ids of the "sextupole" elements and the "multipole" elements with n = 3 |
| SextupoleFamilies.LastMemberWins | cpbd/chromaticity.py:126-130 | an id's value is the strength of its last member (ms, or kn[2]), later elements overwriting earlier ones |
| SextupoleFamilies.FirstMemberFirst | cpbd/chromaticity.py:119-131 | in the model's insertion-ordered dictionary (Python 2 gives hash order instead), the first key is the id of the first family member in the lattice |
| SextupoleFamilies.NoMembersNoFamilies | cpbd/chromaticity.py:122-131 | a lattice without family members yields an empty dictionary |
| SextupoleFamilies.SextupoleIdSucceeds | cpbd/chromaticity.py:131-137 | sextupole_id succeeds exactly when the loop succeeds with exactly two distinct ids, and then its two keys are the family ids |
| SextupoleFamilies.CompensatedParameters | cpbd/chromaticity.py:188-194 | a "sextupole" of either family gets ms = its strength and k2 = ms/l only when l ≠ 0; nothing else changes, and other elements are unchanged |
| SextupoleFamilies.CompensatedIdempotent | cpbd/chromaticity.py:188-194 | compensating twice is compensating once |
| SextupoleFamilies.WriteBack | cpbd/chromaticity.py:187-194 | the loop writes the compensated parameters into every element in place and no map |
| SextupoleFamilies.WriteBackElement | cpbd/chromaticity.py:188-194 | one element's parameters become their compensated values, its map is untouched |
| SextupoleFamilies.CompensationRoundTrip | cpbd/chromaticity.py:120-194 | running sextupole_id on the compensated lattice finds the same families with the "sextupole" values replaced by the new strengths |
| MatchVariables.Written | cpbd/match.py:39-48 | a write changes the parameter of the element's class (l, k1, or angle/k1 for bends) and never the class |
| MatchVariables.InitialVector | cpbd/match.py:163-181 | the start vector holds k1 for a Quadrupole, l for a Drift, angle or k1 for a bend, 10 for beta_x/beta_y and 0 for another Twiss field |
| MatchVariables.StartValueWrittenBack | cpbd/match.py:163-181 | writing an element's start value back leaves its parameters unchanged |
| MatchVariables.FirstNegativeDrift | cpbd/match.py:34-37 | the first variable that is a Drift with a negative trial value, or the end when there is none |
| MatchVariables.WriteElement | cpbd/match.py:39-49 | writes the trial value into the element's parameter and rebuilds its map from the new parameters |
| MatchVariables.WriteVariable | cpbd/match.py:39-49 | after the i-th write the elements hold the parameters and maps of the first i + 1 writes |
| MatchVariables.StartValuesKeepData | cpbd/match.py:33-53 | at the initial vector the writes leave every varied element's parameters as they were |
| MatchVariables.AssignAllKeepsKinds | cpbd/match.py:33-53 | the writes never change an element's class |
| VariableWrites.ApplyVariables | cpbd/match.py:33-53 | the loop stops at the first negative Drift value (returning None), the elements holding the writes before it; otherwise it returns the initial Twiss with its variable fields set |
| VariableWrites.ApplyVariable | cpbd/match.py:33-53 | one variable: a negative Drift value stops the loop, otherwise the element or Twiss field is written |
| VariableWrites.ApplyElementVariable | cpbd/match.py:34-49 | an element variable is written and its map rebuilt unless it is a Drift with a negative value |
| Matching.WeightsDefault | cpbd/match.py:9-19 | 1e7 for periodic, Dx, Dxp, tau, mux, muy; 1e5 for the alphas and betas; 1e3 for i5; 1.5e6 for negative_length; 1e-4 for every other key |
| Matching.DefaultWeightsPositive | cpbd/match.py:9-19 | every default weight is positive |
| Matching.GlobalTerm | cpbd/match.py:89-99 | a global bound adds a non-negative amount |
| Matching.BoundPenalty | cpbd/match.py:93-132 | '<' adds nothing exactly when v ≤ v1 and '>' exactly when v ≥ v1; at an element a non-negative value adds the same, a negative value adds its squared distance to the bound as well |
| Matching.TargetCost | cpbd/match.py:134-136 | a target adds weights(k)·(target − v)², which is non-negative and zero exactly at the target |
| Matching.ConstraintPenalty | cpbd/match.py:110-136 | one element constraint's penalty, including '->' against the Twiss saved at its reference and failing on a negative value |
| Matching.LocalPenalty | cpbd/match.py:106-136 | an element's constraints add up their penalties, and fail once one fails |
| Matching.LocalSumAborted | cpbd/match.py:106-136 | one failing constraint makes the element's whole charge fail |
| Matching.GlobalPenalty | cpbd/match.py:87-99 | the sum of the global bound penalties at an element |
| Matching.ReferencePoints | cpbd/match.py:66-74 | the reference points are exactly the elements named by '->' constraints, global and local |
| Matching.FollowRefs | cpbd/match.py:70-74 | the references named in one element's constraints |
| Matching.ChargeElement | cpbd/match.py:84-136 | one element: the Twiss is carried through its map, saved when the element is a reference, and charged with the global and local penalties |
| Matching.ChargeNext | cpbd/match.py:84-136 | the k-th loop step reaches the state after k + 1 elements, and a failure there fails the whole evaluation |
| Matching.AbortedStaysAborted | cpbd/match.py:80-138 | once the evaluation fails it stays failed for the rest of the lattice |
| Matching.Penalty | cpbd/match.py:80-138 | the loop over the lattice computes the penalty of the specification function PenaltyAfter |
| Matching.Errf | cpbd/match.py:25-138 | a negative Drift value returns weights('negative_length') after writing only the variables before it; otherwise the penalty of the lattice with all writes, from the initial Twiss with its variable fields set |
| Matching.LocalTermNonNegative | cpbd/match.py:106-136 | every term an element constraint adds is non-negative |
| Matching.LocalSumNonNegative | cpbd/match.py:106-136 | an element's charge is non-negative |
| Matching.GlobalSumNonNegative | cpbd/match.py:87-99 | the global charge is non-negative |
| Matching.PenaltyNonNegative | cpbd/match.py:80-138 | the penalty errf returns after the writes is never negative |

## Left out

- Floating point: reals replace floats. Element parameters are taken to be floats, so Python 2's flooring `/` on two integers (as in `element.angle/element.l`, cpbd/optics.py:354) is not modelled. NaN and infinity are not modelled, e.g. `0/0` in the phase advance when `R01 = 0` and the denominator is 0.
- Linear2.Div: division is total, and a zero divisor gives 0. A singular `inv` (numpy's `LinAlgError`) therefore yields 0 rather than an exception.
- The physics values are parameters, not formulas:
  - the entries of `uni_matrix` with non-zero `k1` or `hx`;
  - the edge, cavity, solenoid and undulator matrices;
  - `t_nnn`, `sym_map`, the fringe fields, `rk_field`, the cavity kick `map4cav` and `delta_e_z`'s cosine.
- The multipole kick function (factorials and complex powers) is a parameter.
- `map4cav_new` and the time-dependent `pulse` branch of `mul_p_array` are not modelled.
- `__mul__` on an operand of unknown class ends the program; this is not modelled.
- The Element, Twiss, Particle and ParticleArray classes, including `list2array`/`array2ex_list` as a packing parameter, and `Lattice.update_transfer_maps`: cpbd/elements.py and cpbd/beam.py are not part of this model.
- `map_x_twiss` works on a copy in the code; it is modelled as a function returning a new Twiss, so the aliasing of the input is not captured.
- `trace_obj` overwrites the id of the object it is given; the model labels copies and leaves the argument alone.
- `twiss()` recomputes `gamma` on the caller's `tws0` in place; the model computes it on the start value.
- `linspace(0, L, nPoints)` is replaced by an explicit list of sample positions.
- Tracing.ComputeTwiss: does not state the sample positions `linspace` would produce; they are an input.
- The `periodic` branch of `errf` calls `periodic_solution`, which is not defined in this code.
- `min_i5` with `radiation_integrals`, the `verbose` printing and the optimiser itself (`fmin`, `fmin_cg`) are not modelled. `match_matrix`, `match_tunes` and `closed_orbit` are left out as well.
- Printing and logging, including "Please add ID to sextupole", are not modelled. An element id of `None` is modelled as an ordinary id.
- Matching.ConstraintPenalty: on a negative value, the code's negative-value rule (cpbd/match.py:130-132) subtracts the `'->'` constraint's reference element from the Twiss value. That raises an uncaught `TypeError` in Python 2 and 3 alike. The model stops the evaluation with `None` rather than propagating an exception.
- Constraint keys are Twiss fields. Dictionaries are sequences of items in insertion order. This order is the model's choice: the code is Python 2, whose dictionaries iterate in hash order. For the sextupole families the solved strengths do not depend on it (Chromaticity.FamilyOrderIrrelevant); for the constraint dictionaries only the order of the terms of a sum changes.
- The Simpson-rule integrals of the chromaticity walks (`simps` over 5 points) are the parameters `quad` and `sexQuad`.
- `edge_chromaticity` is not modelled; it is commented out of `natural_chromaticity`.
- SextupoleFamilies.SextupoleId: `exit(...)` for fewer or more than two families is modelled as a `Failure` value.
- Chromaticity.CompensateChromaticity: does not rebuild the transfer maps afterwards, because `update_transfer_maps` is not part of this model. The write-back itself follows the code: multipole family members get no new strength.
- MapFactory.CreateTransferMap: physics kinds outside the structural rules (undulator solver modes, cavity focusing) come only from the `Physics` parameter.
- MapFactory.CreateTransferMap: requires `Buildable`, which leaves out the inputs on which the code raises an exception. These are a Cavity with `l = 0` (`delta_e_z` divides by `l`, ZeroDivisionError, cpbd/optics.py:670-671); a Multipole with fewer than two `kn` (`kn[1]`, IndexError, cpbd/optics.py:757-759); and a symplectic Undulator with `lperiod = 0` or `ax = 0` (ZeroDivisionError, cpbd/optics.py:527-531). The model gives no result for them.
- MapFactory.ElementMapOf: requires `Buildable`, so the same three failing inputs are outside the model.
- Tracking.ApplyToList: requires a non-empty list. On an empty list the code's `prcl_series[0]` raises IndexError (cpbd/optics.py:302), which is not modelled.
- ParticleBuffers.TApply: requires a buffer of whole particles (length a multiple of 6). On any other length the code's `X.reshape(n/6, 6)` raises ValueError (cpbd/optics.py:90); that error is not modelled.
- ParticleBuffers.Map4Corr: requires a buffer of whole particles. On any other length `X.reshape(n/6, 6)` raises ValueError (cpbd/optics.py:560); that error is not modelled.
- ParticleBuffers.Map4Sextupole: requires a buffer of whole particles. On other lengths the strided slices `u[0::6]` to `u[3::6]` (cpbd/optics.py:410-416) mostly differ in length and numpy raises ValueError; with 4 or 5 values left over, the code instead kicks them as a partial particle. Neither case is modelled.
- ParticleBuffers.Map4Octupole: requires a buffer of whole particles. The strided slices of cpbd/optics.py:445-452 behave as in the sextupole map on other lengths: mostly a ValueError, a kicked partial particle when 4 or 5 values are left over. Neither case is modelled.
- Tracking.MulPArray: requires whole particles on the first-order path. There the code's `particles.reshape(n/6, 6)` raises ValueError on other lengths (cpbd/optics.py:242-244), which is not modelled. The order-2 and order-3 paths go through the map's own functions and need no such requirement.
- Tracking.ApplyToList: requires the packing parameter to give six values per particle, as `list2array` does. A packing that did not would meet the same reshape ValueError (cpbd/optics.py:244), which is not modelled.
- Tracking.ApplyToArray: requires whole particles on the first-order path, for the same reshape ValueError (cpbd/optics.py:242-244), which is not modelled.
- Lattice.GetMap: past the lattice end the code raises `IndexError` and discards the maps; the model returns `None`, with `z0` at the end of the lattice the walk reached.
- Concurrency: none in the source.
- I/O: none in this core. `ocelot/utils/add_wake.py` and `demos/sr/spatial.py` are not part of this model.

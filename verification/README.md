# Verified model of GRACE's distributed grid and particle layers

GRACE evolves relativistic plasmas on block-structured adaptive grids that are spread over
many ranks, with a constrained-transport magnetic field and a tracer-particle layer on top.
This project models the parts of it that do not depend on the physics kernels and proves
what they are for:

* **Composite-grid update.** Coarse fluxes and EMFs are overwritten with means of the
  co-located fine ones and then applied. Proved: the corrected update conserves every variable
  globally, the discrete divergence of B never changes, and the magnetic flux through a
  coarse face stays the mean of the fluxes through the fine faces behind it, and the normal
  field of a same-level face stays one field, in one update and in every state of a run of
  the time steppers.
* **Slot agreement.** Every rank numbers the data it exchanges on its own. Proved for the
  refluxing buffers (four kinds of interface) and for the ghost-zone buffers (six sections):
  the two ranks of every pair agree on message sizes and on the slot of every element, for
  any distribution of the quadrants. Packing, exchange and correction together give the same
  fluxes on any number of ranks, and every EMF the corrections read as received is its owner's.
* **Time steppers.** The low-storage buffer sequences refine their Butcher schemes for
  arbitrary operators and boundary fills, ghost cells of every stage included, and the
  staggered field follows the same schemes with EMF circulations as rates; the fourth-order
  coefficients meet the order conditions to 3e-15.
* **First-order flux correction.** The concurrently filled face lists are exact under every
  interleaving and never overflow.
* **Particles.** Migration plans, the all-to-all exchange, compaction, appending, globally
  unique ids over whole runs, checkpoints, and point ownership in the octree.

## How the model is built

Field values are `real`, indices and counts are unbounded integers; 32-bit widths are written
out where they decide something (the particle id counter and its 32-bit cast). A kernel
launched over an index set is a method that visits an arbitrary duplicate-free ordering of
that set (`Grid.Schedule`), working on arrays in place; its contract describes the array
contents before and after as functions (`Grid.Fluxes`, `ConstrainedTransport.EmfOf`, ...).
Several ranks are several arrays, one contract instance per rank; the exchange is an exact copy
of messages. What the grid iterator reports enters as well-formed input: every quadrant face is
in one interface, opposite faces are `f` and `f xor 1`, quadrants have `nx` cells per axis with
`nx` even, a rank lists an interface when it owns one of its octants, and a rank knows the
quadrants of another rank under indices in that rank's order.

| file | content |
|---|---|
| `Arithmetic`, `Sums`, `Ordering`, `Ranks`, `Grid` | number facts, sums, numbering by order, the partition, the grid |
| `FluxUpdate`, `Conservation`, `Composite` | the update kernel, one quadrant's balance, conservation on the composite grid |
| `RefluxKeys`, `HangingFaces`, `HangingAgreement`, `FullFaces`, `EdgeKeys`, `EdgeAgreement` | keys and slots of the refluxing exchange |
| `FluxBuffers`, `FluxCorrection`, `PartitionIndependence`, `DistributedConservation` | packing, correction, independence of the partition, conservation end to end |
| `ConstrainedTransport`, `StaggeredRuns`, `StaggeredSteppers`, `StaggeredSchemes` | the magnetic update, its divergence over runs, and the schemes its steps follow |
| `EmfLines`, `EmfFaces`, `EmfFullFaces`, `EdgeSort`, `EmfEdges`, `EmfCorrection`, `SharedCopies`, `VirtualEdges`, `MatchedRuns` | EMF correction, agreement of all copies, flux matching |
| `EmfBuffers`, `EmfArrival`, `FineArrival`, `FullArrival`, `EdgeArrival`, `EmfExchange` | packing and exchange of the EMFs, composed with the correction |
| `Steppers`, `ImexStability`, `Rk4` | the time steppers |
| `HaloKeys`, `HaloBuilder`, `HaloSlots`, `HaloBuffers` | the ghost-zone exchange |
| `Fofc`, `FofcLists` | tagging and concurrent compaction |
| `Distribution`, `Exchange`, `Tracers`, `ParticleIds`, `Checkpoint`, `PointOwnership` | particles |

`dafny verify dfyconfig.toml` checks everything.

## Where the code and its comments differ

* The combination commented "reset s2 = xi1" in the IMEX step (src/evolution/evolve.cpp:417-422)
  does not give the first stage; its result is overwritten before it is read
  (`Steppers.ResetIsNotTheStage`, `Steppers.Imex222`).
* The slice comment says rank r owns `[r*N/P, (r+1)*N/P)`; the code puts the extras at the front
  (`Checkpoint.SliceIsNotTheDocumentedOne`).
* The comment on restarting with another number of ranks says "No collisions either way"; a later
  append can repeat an id (`ParticleIds.RestartCanCollide`), and exactly when one can is
  `ParticleIds.RestartOnExact` and `ParticleIds.UncoveredCollides`.
* Appending 2^32 or more particles in one call reserves only the count modulo 2^32, so the next
  append repeats ids (`ParticleIds.LargeAppendCanCollide`, `ParticleIds.LargeAppendCollides`); fewer
  is exactly safe (`ParticleIds.AppendExact`).

## Model

| member | source | states |
|---|---|---|
| FluxUpdate.AddFluxesAndSources | src/evolution/evolve.cpp:1728-1742 | whatever the visiting order, every interior cell gains its source and the weighted flux divergence of its six faces, and no other cell changes |
| Conservation.QuadBalance | src/evolution/evolve.cpp:1728-1742 | over one quadrant the update changes the volume-weighted total only by sources and by the flux through its six faces |
| CompositeGrid.HangingFaceSum | src/evolution/refluxing.cpp:597-639 | a matched coarse face carries a quarter of the sum of all fine fluxes of its four children, so area times flux agrees |
| CompositeGrid.CompositeConservation | src/evolution/refluxing.cpp:588-594 | on any composite grid with matched fluxes, totals change only by sources and by the outer-boundary flux |
| RefluxKeys.KeyOrder | src/amr/amr_ghosts_construct_reflux_buffers.cpp:94-99 | the key and descriptor comparisons are strict total orders |
| RefluxKeys.SortAndDedup | src/amr/amr_ghosts_construct_reflux_buffers.cpp:110-132 | each distinct key gets as its id the number of smaller distinct keys, and the counts are the numbers of distinct keys |
| RefluxKeys.SlotsAscend | src/amr/amr_ghosts_construct_reflux_buffers.cpp:94-99 | slots ascend with the quadrant and, within one, with the element |
| RefluxKeys.OffsetsAndSizes | src/amr/amr_ghosts_construct_reflux_buffers.cpp:134-150 | sizes are counts times element size and offsets the sizes of the messages before |
| RefluxKeys.MessagesTile | src/amr/amr_ghosts_construct_reflux_buffers.cpp:134-150 | every buffer position below the total belongs to exactly one rank's message |
| RefluxKeys.KeysAgree | src/amr/amr_ghosts_construct_reflux_buffers.cpp:110-132 | two ranks that key one set of transfers each by its own quadrant numbers agree on count and on every slot, and no slot is shared |
| HangingFaces.Collect | src/amr/amr_ghosts_construct_reflux_buffers.cpp:436-467 | the pushed keys of each rank are those of fine quadrants crossing from or to it, with the face id of the smaller rank |
| HangingFaces.Build | src/amr/amr_ghosts_construct_reflux_buffers.cpp:484-540 | only coarse-local descriptors survive, with the receive slot of every remote child; the send list is sorted, free of duplicates and names the own fine face with the slot of the shared key |
| HangingAgreement.SlotAgreement | src/amr/amr_ghosts_construct_reflux_buffers.cpp:436-467 | for every pair of ranks the sender's and the receiver's message sizes and slots for coarse-fine faces are equal |
| HangingAgreement.SlotDeterminesFace | src/amr/amr_ghosts_construct_reflux_buffers.cpp:445-456 | two fine faces with one slot in a message are the same face |
| FullFaces.Collect | src/amr/amr_ghosts_construct_reflux_buffers.cpp:584-630 | every same-level face across ranks contributes the own quadrant as send key and the other as receive key |
| FullFaces.Build | src/amr/amr_ghosts_construct_reflux_buffers.cpp:630-720 | every remote side ends with its receive slot; the send list is sorted, free of duplicates and names the own face with the slot of the shared key |
| FullFaces.SlotAgreement | src/amr/amr_ghosts_construct_reflux_buffers.cpp:584-630 | both ranks of a same-level face agree on sizes and slots in both directions, and a slot stands for one face |
| EdgeKeys.Collect | src/amr/amr_ghosts_construct_reflux_buffers.cpp:757-804 | each local fine octant goes to every rank with another octant of the edge, each remote one is received |
| EdgeKeys.Build | src/amr/amr_ghosts_construct_reflux_buffers.cpp:811-873 | every remote octant of an edge ends with its receive slot, and each own one has one send entry per rank that needs it, with the slot of the shared key |
| EdgeAgreement.SlotAgreement | src/amr/amr_ghosts_construct_reflux_buffers.cpp:906-935 | for edges with and without fine sides, sender and receiver agree on sizes and slots, and a slot stands for one line |
| FluxBuffers.BufIxInjective | include/grace/amr/ghostzone_kernels/ghost_array.hh:203-232 | different elements of a message have different positions |
| FluxBuffers.BufIxBound | include/grace/amr/ghostzone_kernels/ghost_array.hh:203-232 | every element of an existing slot lies inside its message |
| FluxBuffers.SumFace | src/evolution/refluxing.cpp:93-101 | the triple loop sums exactly the 2 x 2 block of face fluxes, for every face orientation |
| FluxBuffers.FillFluxBuffers | src/evolution/refluxing.cpp:79-106 | every slot holds the mean of the four fine fluxes on each coarse element of the face it stands for |
| FluxCorrection.CorrectFluxes | src/evolution/refluxing.cpp:595-640 | in any order, every coarse face flux becomes the local or received mean computed from the original fluxes, and nothing else changes |
| FluxCorrection.TargetInjective | src/evolution/refluxing.cpp:581-586 | the writes of the correction kernel are pairwise distinct |
| PartitionIndependence.SendListAddressed | src/amr/amr_ghosts_construct_reflux_buffers.cpp:496-514 | the built send list addresses distinct slots inside their messages |
| PartitionIndependence.LocalListReady | src/amr/amr_ghosts_construct_reflux_buffers.cpp:515-535 | every receive slot the built descriptors name lies in the receive buffer |
| PartitionIndependence.LocalListRaceFree | src/evolution/refluxing.cpp:581-586 | the built descriptors never name a coarse face twice nor read a flux they write |
| PartitionIndependence.RemoteRead | src/evolution/refluxing.cpp:617-619 | the value read for a remote child is the mean the owner would compute locally |
| PartitionIndependence.RanksComputeGlobalCorrection | src/evolution/refluxing.cpp:597-639 | for any partition and any orders, all ranks together replace exactly the coarse fluxes by fine means |
| PartitionIndependence.SameOnAnyPartition | src/evolution/refluxing.cpp:581-586 | two partitions that start from the same fluxes, one of them possibly a single rank, end with the same fluxes |
| DistributedConservation.CompositeGridFaces | src/amr/ghost_helpers/iterate_faces.cpp:147-170 | the coarse-fine faces of a grid whose faces are each in one interface meet the needs of the correction |
| DistributedConservation.MatchedAfterCorrection | src/evolution/refluxing.cpp:588-594 | after the correction both sides of every interface see the same flux |
| DistributedConservation.RanksComputeGlobalUpdate | src/evolution/evolve.cpp:1728-1742 | the update kernels of all ranks, each on its own arrays, are one update of the global field with the globally corrected fluxes |
| DistributedConservation.DistributedUpdateConserves | src/evolution/evolve.cpp:1728-1742 | end to end on any number of ranks, correction and per-rank update kernels together conserve every variable up to sources and outer boundary |
| ConstrainedTransport.UpdateCT | src/evolution/evolve.cpp:1745-1818 | the in-place loops advance each face by the EMF circulation around it and leave the divergence of every interior cell as it was |
| ConstrainedTransport.TransportKeepsDivergence | src/evolution/evolve.cpp:1778-1815 | for any EMF, the update keeps the discrete divergence of each cell |
| StaggeredRuns.RunShadow | src/evolution/evolve.cpp:214-445 | after any run of copies, combinations, updates and boundary fills, all divergences follow a scalar shadow of the run |
| StaggeredRuns.DivergenceFreeRuns | src/evolution/evolve.cpp:214-445 | a divergence-free field is divergence-free in every buffer of every reachable state, fills included |
| StaggeredSteppers.EulerKeepsDivergence | src/evolution/evolve.cpp:197-202 | a one-stage step keeps each cell's divergence, whatever its value |
| StaggeredSteppers.Rk2KeepsDivergence | src/evolution/evolve.cpp:203-213 | a two-stage step keeps each cell's divergence, whatever its value |
| StaggeredSteppers.Rk3KeepsDivergence | src/evolution/evolve.cpp:214-249 | a three-stage step keeps each cell's divergence, whatever its value |
| StaggeredSteppers.Rk4ScalesDivergence | src/evolution/evolve.cpp:250-356 | a four-stage step multiplies the divergence by one number made of its coefficients |
| StaggeredSteppers.Rk4FactorIsNearlyOne | src/evolution/evolve.cpp:283-338 | that number is one up to the rounding of the decimal coefficients |
| StaggeredSteppers.Imex222KeepsDivergence | src/evolution/evolve.cpp:363-445 | an IMEX step keeps each cell's divergence, for every nonzero lambda |
| StaggeredSchemes.EulerScheme | src/evolution/evolve.cpp:197-202 | on every updated face a one-stage step adds dt times the circulation of the EMF |
| StaggeredSchemes.Rk2Scheme | src/evolution/evolve.cpp:203-213 | a two-stage step is the midpoint rule in the circulations |
| StaggeredSchemes.Rk3Scheme | src/evolution/evolve.cpp:214-249 | a three-stage step is, stage by stage, the Butcher scheme of the cells with circulations as rates |
| StaggeredSchemes.Rk4Scheme | src/evolution/evolve.cpp:250-356 | a four-stage step is, stage by stage, the four-stage scheme of the cells |
| StaggeredSchemes.Imex222Scheme | src/evolution/evolve.cpp:363-445 | an IMEX step is the scheme of the cells without implicit rates |
| StaggeredSchemes.StepsFillAfterUpdates | src/evolution/evolve.cpp:197-445 | in every stepper each update is followed at once by the fill of the same buffer |
| EmfLines.MagneticFluxStaysMatched | src/evolution/evolve.cpp:1778-1815 | if EMFs match along a coarse-fine face, an update keeps the coarse field the mean of the four fine ones |
| EmfFaces.CoversFace | src/evolution/refluxing.cpp:784-811 | the child loop reaches every position of the coarse face |
| EmfFaces.PositionsUnique | src/evolution/refluxing.cpp:784-811 | and reaches it once |
| EmfFaces.TargetUnique | src/evolution/refluxing.cpp:784-811 | the writes of the face kernel are pairwise distinct EMFs |
| EmfFaces.FaceLineUnique | src/evolution/refluxing.cpp:798-803 | a line strictly inside a face belongs to no other face |
| EmfFaces.CorrectFaceEmfs | src/evolution/refluxing.cpp:739-814 | every line of the coarse face but those at offsets 0, nx/2 and nx takes the mean of the fine EMFs it faces, nothing else changes |
| EmfFullFaces.AverageFaceEmfs | src/evolution/refluxing.cpp:831-941 | every line strictly inside a same-level face takes the mean of both sides on each local copy, nothing else changes |
| EmfBuffers.FillFaceEmfs | src/evolution/refluxing.cpp:251-287 | in any order, every slot of a face message holds the means of the fine EMFs (or, for same-level faces, the EMFs) of the face it stands for, both components |
| EmfBuffers.FillEdgeEmfs | src/evolution/refluxing.cpp:409-435 | in any order, every slot of an edge message holds the EMFs along the edge it stands for |
| FineArrival.FineServes | src/amr/amr_ghosts_construct_reflux_buffers.cpp:496-514 | the send list the construction builds addresses distinct slots inside their messages, as the packing kernels need |
| FineArrival.FineArrives | src/evolution/refluxing.cpp:760-768 | what a rank reads for a remote fine face is the mean of the owner's EMFs, over both slot numberings, packing and exchange |
| FullArrival.FullServes | src/amr/amr_ghosts_construct_reflux_buffers.cpp:630-720 | the same of the send list for same-level faces |
| FullArrival.FullArrives | src/evolution/refluxing.cpp:850-861 | what a rank reads for the remote side of a same-level face is the owner's EMF |
| EdgeArrival.EdgeServes | src/amr/amr_ghosts_construct_reflux_buffers.cpp:811-873 | the same of the send lists for edges |
| EdgeArrival.EdgeArrivesAt | src/evolution/refluxing.cpp:980-987 | what a rank reads for a remote octant of an edge of either kind is the owner's EMF |
| EdgeSort.InsertionSort | src/evolution/refluxing.cpp:1000-1008 | the result is sorted by edge id and a permutation of the entries, both values moving with their key |
| EdgeSort.FirstIsSmallest | src/evolution/refluxing.cpp:1009-1016 | the first entry after sorting is the one of smallest id, wherever it stood |
| EmfEdges.ComputeOne | src/evolution/refluxing.cpp:964-1016 | the correction is the value of the smallest fine side whatever the order and locality of the sides, zero without one |
| EmfEdges.ComputeCorrections | src/evolution/refluxing.cpp:959-1018 | the same for all edges and positions in any order |
| EmfEdges.ApplyCorrections | src/evolution/refluxing.cpp:1023-1080 | every local fine copy of an edge gets the correction, every local coarse one the mean of two, nothing else changes |
| EmfCorrection.InsideNotMended | src/evolution/refluxing.cpp:1058-1075 | the edge kernels never touch a line strictly inside a face other than the middle line of a coarse side |
| EmfCorrection.EdgeKeptByFaces | src/evolution/refluxing.cpp:920-926 | the two face kernels never touch an edge of a quadrant |
| EmfCorrection.CorrectionsAgree | src/evolution/refluxing.cpp:1009-1016 | every rank that lists an edge with fine sides computes the same correction for it |
| EmfCorrection.EdgeValue | src/evolution/refluxing.cpp:1058-1077 | of an edge with fine sides all fine copies of a line end up equal and every coarse one is their pairwise mean, on all ranks |
| SharedCopies.UniformEdgeValue | src/evolution/refluxing.cpp:1103-1136 | of an edge without fine sides every copy on every rank ends as the original EMF of the side of smallest id |
| SharedCopies.FullFaceValue | src/evolution/refluxing.cpp:831-941 | both copies of a line strictly inside a same-level face, on whatever ranks, end as the mean of the two original ones |
| SharedCopies.SharedFaceAgrees | src/evolution/refluxing.cpp:708-1169 | after all four corrections both sides of a same-level face hold the same EMF on every line, rims included |
| SharedCopies.SharedNormalsStayEqual | src/evolution/evolve.cpp:1778-1815 | so the update that follows keeps the normal field of a same-level face the same on both sides |
| EmfCorrection.ActiveMatched | src/evolution/refluxing.cpp:800-811 | after all kernels, each EMF on an active coarse line is the mean of the fine ones it faces |
| EmfCorrection.CorrectedEmfsMatch | src/evolution/refluxing.cpp:708-1169 | after all four corrections on any number of ranks, EMFs match along every line of every coarse-fine face |
| EmfCorrection.MagneticFluxAcrossFaces | src/evolution/evolve.cpp:1778-1815 | so the update that follows keeps the magnetic flux matched across every coarse-fine face |
| EmfExchange.ExchangeDelivers | src/evolution/refluxing.cpp:251-530 | everything the correction kernels of a rank read as received, of all four kinds, is what its owner held before the correction |
| EmfExchange.CoarseFineStaysMatched | src/evolution/refluxing.cpp:708-1169 | end to end on any number of ranks, from the built lists through packing, exchange and correction to the update, the magnetic flux stays matched across every coarse-fine face |
| EmfExchange.SameLevelStaysEqual | src/evolution/refluxing.cpp:708-1169 | and the normal field stays the same on both sides of every same-level face |
| VirtualEdges.CoarseSideIsMiddle | src/amr/ghost_helpers/iterate_faces.cpp:202-260 | the tables and offsets registered for a coarse side name the middle line of the face |
| VirtualEdges.CoarseEdgeIsLower | src/amr/ghost_helpers/iterate_faces.cpp:202-260 | the edge id it is registered under is the lower edge of the face along that axis |
| VirtualEdges.FineSideIsRim | src/amr/ghost_helpers/iterate_faces.cpp:216-280 | the registered fine edges are the rims of the children that meet there, with children in order |
| VirtualEdges.VirtualEdgeJoins | src/amr/ghost_helpers/iterate_faces.cpp:196-285 | the registered edge joins the middle line with all four fine lines along it |
| MatchedRuns.MatchedInEveryState | src/evolution/evolve.cpp:214-445 | a matched magnetic flux stays matched in every buffer of every state of a run with corrected EMFs, fills included |
| MatchedRuns.SharedInEveryState | src/evolution/evolve.cpp:214-445 | the two copies of the normal field on a same-level face stay equal in every buffer of every state of such a run |
| Steppers.Rk3 | src/evolution/evolve.cpp:214-249 | the buffer sequence yields the third-order Butcher scheme for any operator, with the ghost cells of every stage as the boundary fill makes them from the right buffers and weight |
| Steppers.ApplyBoundaryConditions | src/evolution/evolve.cpp:220-220 | the buffer ends as the fill of its old contents; its interior cells stay |
| Steppers.Rk3Determined | src/evolution/evolve.cpp:214-249 | the scheme with its fills leaves no cell of any stage or of the result open |
| Steppers.Imex222 | src/evolution/evolve.cpp:363-445 | for arbitrary operators and any solution of the implicit stages the buffers yield the IMEX scheme (the source's lambda is called gamma), ghost cells of every stage included |
| Steppers.Imex222Determined | src/evolution/evolve.cpp:363-445 | given the two implicit solutions, the scheme leaves no cell open |
| Steppers.Imex222Refines | src/evolution/evolve.cpp:363-445 | the buffer contents in order give the two stages and the average of all four rates |
| Steppers.ResetIsNotTheStage | src/evolution/evolve.cpp:417-422 | the combination named a reset equals the first stage only for one value of the rate |
| ImexStability.Imex222Stability | src/evolution/evolve.cpp:365-365 | with the coded lambda the quadratic term of the amplification of a linear mode vanishes |
| ImexStability.StepIsTheScheme | src/evolution/evolve.cpp:363-445 | the linear test step is the IMEX scheme on a cell with a linear implicit rate |
| ImexStability.Imex222Damps | src/evolution/evolve.cpp:365-365 | every decaying linear mode is damped, however stiff: its amplification is below 1 and below 7/abs(z) |
| Steppers.AdvanceImplicitSubstep | src/evolution/evolve.cpp:1961-1976 | nothing of the previous contents of the new buffer survives |
| Rk4Stepper.Rk4 | src/evolution/evolve.cpp:250-356 | the three-buffer recurrence yields the four-stage scheme with the combined coefficients, the ghost cells of every stage filled over those of the combination it starts from |
| Rk4Stepper.Rk4Determined | src/evolution/evolve.cpp:250-356 | the scheme with its fills leaves no cell open |
| Rk4Stepper.OrderConditions | src/evolution/evolve.cpp:283-338 | the combined coefficients meet the eight fourth-order conditions and consistency to 3e-15 |
| HaloKeys.KeyLessIsStrictTotal | src/amr/amr_ghosts_construct_buffers.cpp:121-140 | key_cmp is a strict total order on the identifying fields |
| HaloKeys.OrderMatchesEquality | src/amr/amr_ghosts_construct_buffers.cpp:92-98 | equivalence under key_cmp is operator== |
| HaloKeys.HaloAgreement | src/amr/amr_ghosts_construct_buffers.cpp:287-337 | for every pair of ranks and every section, mirror and halo numbering agree on counts and on every element |
| HaloKeys.NumbersAscend | src/amr/amr_ghosts_construct_buffers.cpp:121-140 | in a section, numbers ascend with quadrant, element and the coarse-buffer mark |
| HaloKeys.SectionContents | src/amr/amr_ghosts_construct_buffers.cpp:287-337 | over the neighbour links: the normal sections of a message hold exactly what is sent from normal buffers, the coarse-buffer sections what finer elements and coarse-buffer exchanges send |
| HaloKeys.NumberDeterminesElement | src/amr/amr_ghosts_construct_buffers.cpp:313-321 | one number in a section is one element of one quadrant |
| HaloBuilder.Builder.AppendKeys | src/amr/amr_ghosts_construct_buffers.cpp:287-337 | a key keeps the slot of its first insertion and collects every descriptor |
| HaloBuilder.Builder.NumberKeys | src/amr/amr_ghosts_construct_buffers.cpp:191-224 | each key gets its number in its section and each of its descriptors receives it in the cell of the key's slot |
| HaloSlots.MeshCellsApart | src/amr/amr_ghosts_construct_buffers.cpp:142-167 | different keys never write one buffer-id cell |
| HaloSlots.Dedup | src/amr/amr_ghosts_construct_buffers.cpp:676-693 | one kernel per element and rank survives, with the first child |
| HaloSlots.BuildSends | src/amr/amr_ghosts_construct_buffers.cpp:421-433 | there is one packing kernel for every coarse element and every other rank with a finer neighbour of it, and for nothing else; it finds, in the cell of its own child, the number its element is sent under |
| HaloSlots.PackedWhereRead | src/amr/amr_ghosts_construct_buffers.cpp:421-433 | that number is the one under which the receiving rank reads the element |
| HaloBuffers.ComputeOffsets | src/amr/amr_ghosts_construct_buffers.cpp:762-850 | sizes and offsets are those of consecutive sections in consecutive messages |
| HaloBuffers.ElementsDisjoint | src/amr/amr_ghosts_construct_buffers.cpp:796-845 | no buffer position belongs to two elements |
| HaloBuffers.ElementsCover | src/amr/amr_ghosts_construct_buffers.cpp:796-854 | every buffer position belongs to an element |
| HaloBuffers.SamePlaceInMessage | src/amr/amr_ghosts_construct_buffers.cpp:800-809 | with equal counts an element stands at the same place in the message on both sides |
| Fofc.FlagCells | src/evolution/evolve.cpp:553-730 | a face is tagged exactly when some tested cell touching it is flagged, for any order of the threads |
| Fofc.TestedIffNearUpdated | src/evolution/evolve.cpp:547-556 | the tested cells are exactly those the flux update advances and the cells next to them |
| Fofc.PushedIffBothTested | src/evolution/evolve.cpp:746-775 | the faces that compaction looks at are exactly those between two tested cells |
| Fofc.UpdateFacesPushed | src/evolution/evolve.cpp:750-775 | every face whose flux the update of a cell reads is among them, in all directions |
| Fofc.TaggedIffAdjacentFlagged | src/evolution/evolve.cpp:746-775 | in the update range that means one of its two adjacent cells |
| Fofc.SharedFacesAgree | src/evolution/evolve.cpp:547-556 | for two same-level quadrants with mirrored states in the cells both hold, and any cell test whose stencil fits the ghost zones, the copies of a shared face have flagged cells alike |
| FofcLists.NeverOverflows | src/evolution/evolve.cpp:755-760 | in every reachable state no more slots are claimed than faces are tagged |
| FofcLists.CapacityIsEnough | src/data_structures/variables.cpp:181-184 | the allocated capacity is never exceeded under any interleaving |
| FofcLists.ListIsExact | src/evolution/evolve.cpp:750-778 | when all threads are through, the list holds every tagged face exactly once, without gaps |
| FofcLists.ListedIffFlagged | src/evolution/evolve.cpp:553-778 | a face is listed exactly when it is in that range and one of its two cells was flagged |
| FofcLists.TagsLeft | src/evolution/evolve.cpp:553-778 | the tags the tagging kernel leaves are those compaction starts from |
| FofcLists.SharedFacesListed | src/evolution/evolve.cpp:547-556 | the two copies of a face shared by same-level quadrants with mirrored states, on one rank or two, are both in range and listed alike |
| Distribution.DistributionPlan.constructor | src/particles/particle_distributor.cpp:94-144 | counts, offsets and permutation are those of a stable grouping by destination |
| Distribution.SlotsOrdered | src/particles/particle_distributor.cpp:133-142 | slots are ordered by destination and, within one, by index, so they are distinct |
| Distribution.SlotsCover | src/particles/particle_distributor.cpp:133-142 | every place of the send buffer is some particle's |
| Distribution.Pack | src/particles/particle_distributor.cpp:167-177 | in any order the send buffer becomes the messages to rank 0, 1, ... in original order |
| Exchange.ExchangeDelivers | src/particles/particle_distributor.cpp:181-193 | each rank ends up with what every rank packed for it, source by source |
| Exchange.ExchangeConserves | src/particles/particle_distributor.cpp:181-193 | together the ranks receive exactly the validly addressed particles |
| Exchange.ArrivalsOrdered | src/particles/particle_distributor.cpp:181-193 | arrivals are ordered by source rank and index |
| Exchange.FieldsStayTogether | src/particles/particle_rebalance.cpp:137-140 | fields migrated one by one with one plan stay together |
| Tracers.TracerContainer.Compact | src/particles/particle_compact.cpp:18-105 | the container becomes the stable filter of the live particles with all fields, and the id counter stays |
| Tracers.TracerContainer.Append | src/particles/particle_compact.cpp:107-149 | new particles follow the old ones with consecutive ids; an abort changes nothing; the reserve is the count modulo 2^32 |
| Tracers.TracerContainer.NextIdRange | include/grace/particles/particle_storage.hh:168-178 | a range that does not fit the 32-bit counter aborts, otherwise it is reserved |
| Tracers.MakeIdSmall | src/particles/particle_compact.cpp:136-137 | below 2^32 the or-ed id is the rank in the high word and the serial number in the low one |
| ParticleIds.AppendKeeps | src/particles/particle_compact.cpp:107-149 | from a sound world, appending keeps the invariant (ids distinct and below their rank's counter) exactly when fewer than 2^32 particles are appended |
| ParticleIds.AppendExact | src/particles/particle_compact.cpp:116-142 | in terms of ids, with room left in the counter: fewer than 2^32 are appended exactly when ids are distinct and no next append of fewer than 2^32 can repeat one |
| ParticleIds.LargeAppendCollides | src/particles/particle_compact.cpp:116-142 | after any append of 2^32 or more, a next append (of one particle while the counter has room) makes an id that exists |
| ParticleIds.LargeAppendCanCollide | src/particles/particle_compact.cpp:116-142 | a run of two appends in which two particles get one id |
| ParticleIds.UniqueIsAppendSafe | src/particles/particle_compact.cpp:107-149 | for distinct ids the invariant says exactly that no next append of fewer than 2^32 repeats an id |
| ParticleIds.AppendOn | src/particles/particle_compact.cpp:107-149 | the container's append is the append step of a run, or changes nothing when it aborts |
| ParticleIds.CompactKeeps | src/particles/particle_compact.cpp:37-41 | compaction keeps ids unique |
| ParticleIds.CompactOn | src/particles/particle_compact.cpp:18-105 | the container's compaction is the compaction step of a run |
| ParticleIds.MigrateKeeps | src/particles/particle_rebalance.cpp:120-140 | migration to arbitrary destinations keeps ids unique |
| ParticleIds.RestartKeeps | src/particles/particle_checkpoint.cpp:340-351 | a restart on as many ranks keeps ids unique |
| ParticleIds.RestoreCounter | src/particles/particle_checkpoint.cpp:352-377 | the scans reduce to one counter just above the largest own-tag low word |
| ParticleIds.RestartOnKeeps | src/particles/particle_checkpoint.cpp:352-378 | a restart on another number of ranks keeps the invariant exactly when, per rank, the own-tag maximum of its slice bounds every saved id of that rank and one more fits |
| ParticleIds.RestartOnExact | src/particles/particle_checkpoint.cpp:352-378 | in terms of ids: a restart leaves ids distinct, and that condition holds exactly when no next append of fewer than 2^32 can repeat one |
| ParticleIds.UncoveredCollides | src/particles/particle_checkpoint.cpp:352-378 | where it fails, some rank has a next append that repeats a saved id |
| ParticleIds.RestartCanCollide | src/particles/particle_checkpoint.cpp:336-339 | a run whose restart leads to two particles of one id |
| ParticleIds.RunsKeepIdsUnique | src/particles/particle_checkpoint.cpp:336-378 | in every state of every run of sound steps all ids of all ranks are distinct |
| Checkpoint.EqualSlice | src/particles/particle_checkpoint.cpp:39-47 | slices differ in size by at most one |
| Checkpoint.SlicesTile | src/particles/particle_checkpoint.cpp:39-47 | slices start at 0, follow each other and end at the total |
| Checkpoint.CountsNeverIncrease | src/particles/particle_checkpoint.cpp:39-47 | the ranks with one element more come first |
| Checkpoint.SliceIsNotTheDocumentedOne | src/particles/particle_checkpoint.cpp:36-38 | the documented formula gives another partition |
| Checkpoint.SavedAt | src/particles/particle_checkpoint.cpp:173-178 | particle i of rank a stands on file at the number of particles on the ranks before a, plus i |
| Checkpoint.SavedLength | src/particles/particle_checkpoint.cpp:173-178 | and nothing else is on file |
| Checkpoint.SaveLoadRoundTrip | src/particles/particle_checkpoint.cpp:313-335 | what any number of ranks saves is read back in the same global order by any number of ranks |
| Checkpoint.ComesBackAt | src/particles/particle_checkpoint.cpp:313-335 | each particle is read by the rank whose slice covers its place on file, at its place in that slice |
| PointOwnership.OneLeaf | src/particles/particle_owner_search.cpp:86-90 | every point of the box lies in exactly one leaf |
| PointOwnership.ZOrderIsOrdered | src/particles/particle_owner_search.cpp:67-97 | what the pruning needs of the distribution follows from leaves going to ranks in z-order |
| PointOwnership.SearchPartition | src/particles/particle_owner_search.cpp:67-97 | the pruned descent finds the rank of that leaf |
| PointOwnership.SearchLocal | src/particles/particle_owner_search.cpp:105-136 | on the owner the local search finds the same leaf's index, elsewhere it finds nothing |
| PointOwnership.FindOwner | src/particles/particle_owner_search.cpp:218-245 | owner and local index of the leaf containing the point; minus one outside the domain |
| PointOwnership.WithinIsContains | src/particles/particle_owner_search.cpp:40-58 | without halo the cells of a tabulated box reach exactly as far as the box, and their widths add up to its size |
| PointOwnership.CellsTileBox | src/particles/particle_owner_search.cpp:40-58 | a point of the box is in exactly one of its nx cells per axis, any other point in none |
| PointOwnership.LeafBoxSize | src/particles/particle_owner_search.cpp:46-46 | the size of a leaf is that of its tree divided by two to its level |
| PointOwnership.OwnerStencil | src/particles/particle_owner_search.cpp:176-203 | the geometry tabulated for the owning leaf cuts its box into nx cells per axis and gives a stencil that reconstructs the point and reads the cell the point is in |
| PointOwnership.StencilFacts | src/particles/particle_owner_search.cpp:293-315 | weights lie in [0,1) and reconstruct the position, and the base index is bounded by quadrant and halo |
| PointOwnership.FastPathCheck | src/particles/particle_owner_search.cpp:267-283 | succeeds exactly within the halo of a known quadrant, with a stencil that reconstructs the point in reach |

## Left out

- Physics: fluxes, EMFs, sources, the flux-correction predicate and the implicit solver are arbitrary inputs; their kernels are not part of this model.
- Floating-point rounding, launch bounds, layouts and device copies: reals and exact arrays instead.
- MPI and HDF5: messages and files are exact copies; deadlock, failure and asynchrony are not modelled.
- Steppers: buffers are flat sequences of cells; constraint enforcement and auxiliary quantities after a substep are not modelled, and the boundary fill may write ghost cells only. The cell-centred Euler, rk2 and imex1 branches are the same pattern with fewer stages.
- StaggeredRuns: a boundary fill may write any face outside the range of the update and no other; what it writes there is arbitrary.
- Ghost cells after the explicit operator: the operator may read any cell, the schemes are stated on interior cells.
- FluxCorrection.CorrectFluxes: the optional averaging of same-level fluxes under GRACE_SAME_LEVEL_FACE_AVERAGE is not modelled; conservation assumes same-level fluxes equal instead.
- EdgeKeys.Collect: one method with a flag stands for the loops over edges with and without fine sides, and so does EdgeKeys.Build.
- EmfBuffers.FillFaceEmfs: one method with a flag stands for the kernels of fine and of same-level faces, and EmfBuffers.FillEdgeEmfs for those of both edge kinds.
- EmfEdges.ComputeCorrections: one method with a flag stands for the kernels of both edge kinds; the kernel of edges without fine sides has no child loop.
- EmfCorrection.CorrectedEmfsMatch: the correction works on EMF arrays indexed by global quadrant number; `EmfArrival.Renumbered` ties them to the local numbers that packing uses.
- EmfCorrection.CorrectedEmfsMatch: that the rim lines of coarse-fine and same-level faces belong to registered edges is part of the iterator's input (`EdgesCover`, `RimsCover`); for the middle lines it is proved from the tables (VirtualEdges.VirtualEdgeJoins).
- HaloBuilder.Builder.AppendKeys: keeps the send side; the receive side repeats it with the halo key. Element coordinates come from the neighbour descriptors as links; which coarse-buffer exchanges a quadrant requests is input, assumed symmetric.
- HaloSlots.BuildSends: the lists of the other packing and unpacking kernels, and the removal of repeats from the coarse-buffer ones, are not modelled.
- Fofc.FlagCells: the diagnostic error bits and the legacy edge tags under GRACE_FOFC_CORRECT_EMF are not modelled.
- Fofc.SharedFacesAgree: that the ghost zones of the two quadrants mirror each other's cells is input; which of their cells the exchange fills is not part of this lemma.
- Tracers.TracerContainer.Compact: the live count is unbounded; the source keeps it in a 32-bit int. The eleven sampled quantities are one record per particle.
- Distribution.Pack: elements are copied whole instead of byte by byte, and byte counts are not limited to 32 bits; the handle of the pending exchange is not modelled.
- ParticleIds: owner ranks, local quadrants and samples are refilled after a migration and carry no ids.
- PointOwnership: coordinates of the octree are exact halvings; the forest library's search order inside a tree is the order of children.
- Spherical connectivity, task execution, lookups of quadrant tables, output and configuration: not part of this model.

# Pencil array: a verification model

A global N-dimensional array is cut by floor partition over an M-dimensional process grid. Each
rank owns one box and stores it in a permuted row-major order, once per extra group. The model
states and proves what the program that moves such arrays is for: transposes, affine remaps and
gathers take every element to the place where the other layout expects it, on all ranks together;
ranks agree before they communicate; and an array that was written halfway is never read as valid.
From the transform crate it covers three kernels whose difficulty is indexing and aliasing.

Loops over mutable buffers are methods on arrays, proved against functions of the inputs. What
those functions mean for all ranks is proved in lemmas about a world: one sequence per rank. Rank N,
extents, grids, permutations and extra counts are unbounded. A `usize` is a natural number up to
`2^64 - 1`, and every assignment to one carries a proof that it fits; MPI's `Count` ends at `2^31 - 1`.

| file | content |
|---|---|
| MachineInts, Counting, MixedRadix, Axis | checked integers, pigeonhole counting, row-major encoding, permutations |
| Geometry, Pencil | floor partition, boxes and storage offsets of a distribution |
| RegionWalk, RegionCopy, RegionCheck | strided region copying and the corner check |
| Segments, Plan, Transpose, TransposeWorld | transpose regions, packing, execution on all ranks |
| PointToPoint, PointToPointWorld | the message protocol as steps, and the transpose that uses it |
| Affine, RemapRoutes, RemapPayload, RemapWorld | spatial remap: routes, payloads, execution on all ranks |
| Preflight, Gates, Agreement, Outcome, Descriptor | collective agreement as programs of calls; what they return; descriptors |
| Gather | the gather to one root |
| LocalTranspose, Registry, ArrayRun, ManyArray | reordering in place, and runs of calls on the array that can be poisoned |
| ArrayWorld, CallbackWorld | runs of calls on the arrays of all ranks; callbacks, agreement and array state |
| Broadcast, Pointwise | broadcast traversal |
| Norm | the scaled norm |
| Complex, C2cNd, C2cPlan, C2cBuild | multidimensional complex transforms |
| R2c, R2cPlan, R2cForms | packed real transforms in place and out of place |
| Dht, DhtInverse, RootOfUnity | Hartley lines from complex transforms, and their inverse |

The main results are, in this order: `TransposeWorlds.TransposeKeepsGlobalArray`, with
`PointToPointWorlds.PointToPointTransposeKeepsGlobalArray` and `PointToPointMatchesAllToAllV`;
`RemapWorlds.PreparedRemapRealisesAffineMap`; `Outcomes.RanksAgree`; `ArrayWorlds.ValueHasOrigin`,
`GlobalArrayKept` and `LastOverwriteHeld`; `CallbackWorlds.CallEndsAlike`; `PointToPoint.Progress`,
`CanFinish`, `MeasureDecreases`, `ReceivedIsFinal` and `OutcomeIsUnique`; `Gathers.GatherIsGlobal`;
`ArrayRuns.ValidLayoutHoldsLastWrite` and `PoisonedExactlyWhileSpoiled`; `C2cNd.InverseRestores`;
`R2cForms.ForwardBothWays` and `InverseBothWays`; `Dhts.LocalDhtPlan.OneValue` with
`RootsOfUnity.InverseRestoresBatch`; `Norms.NormIsIndependent`.

## Model

| member | source | states |
|---|---|---|
| TransposeWorlds.TransposeKeepsGlobalArray | crates/pencil-array/src/alltoallv_transpose.rs:204-254 | After pack, exchange and unpack on all ranks, every destination value equals the source value at the same global coordinate and extra group, for every grid, shape, pair of permutations, extra count and pair of decompositions that differ at one position, with the own message sent or copied |
| TransposeWorlds.AllToAllVTransposeKeepsGlobalArray | crates/pencil-array/src/alltoallv_transpose.rs:324-367 | The same when the exchange is one Alltoallv on every line of ranks |
| TransposeWorlds.SelfCopyPathAgrees | crates/pencil-array/src/point_to_point_transpose.rs:185-241 | Packing without the own message, copying the own region and then unpacking the other segments over it leaves every destination cell as the full path does |
| TransposeWorlds.ExchangesConsistent | crates/pencil-array/src/alltoallv_transpose.rs:324-367 | What the ranks of one line pass to Alltoallv meets MPI's conditions: equal counts at both ends of every pair, segments inside the buffers, receive segments apart |
| TransposeWorlds.AllToAllVDelivers | crates/pencil-array/src/alltoallv_transpose.rs:324-367 | Alltoallv on every line delivers every segment of every rank to the place its peer reads |
| TransposeWorlds.SelfRegionKept | crates/pencil-array/src/point_to_point_transpose.rs:185-241 | Unpacking the other peers after the self copy leaves the copied region in place |
| TransposeWorlds.AssembledInPlace | crates/pencil-array/src/point_to_point_transpose.rs:185-241 | Copy first, unpack afterwards: at the end every segment and the own region are in place on every rank |
| TransposeWorlds.GlobalArrayFixesStorage | crates/pencil-array/src/view.rs:58-72 | Every cell below the local length holds some global index, so two worlds with one global array are equal cell by cell |
| TransposeWorlds.SegmentArrives | crates/pencil-array/src/alltoallv_transpose.rs:324-367 | A nonempty receive segment of a consistent Alltoallv holds what the peer's send segment held |
| Transposes.PrepareCommon | crates/pencil-array/src/transpose.rs:447-517 | Local preparation decides exactly three things, in this order: counts fit `Count`, the workspace is long enough, storage has the layouts' lengths; no other check can fail for a valid plan |
| Transposes.BuildPeerMetadata | crates/pencil-array/src/transpose.rs:601-656 | Succeeds for every valid plan and rank; each peer has its two intersected regions, their sizes, and displacements that are running sums |
| Transposes.WorkspaceRequirements | crates/pencil-array/src/transpose.rs:684-721 | For every extra count: the two local lengths times the extra count exactly if all counts, and with Alltoallv all displacements, fit `Count`; else a count overflow |
| Transposes.NextAccepted | crates/pencil-array/src/transpose.rs:684-721 | Once the segments before it fit, a segment that fits `Count` passes every checked product and sum, because at most `Count` many counts stay below a machine word |
| Transposes.PrepareExchangeCounts | crates/pencil-array/src/transpose.rs:723-791 | For every extra count: counts and displacements of all peers times the extra count, exactly when they fit; point-to-point does not limit displacements |
| Transposes.CheckedSegment | crates/pencil-array/src/transpose.rs:793-822 | One side of one peer is accepted exactly if both products and their sum fit `usize` and the count, and with Alltoallv the displacement, fit `Count` |
| Transposes.ValidatePeers | crates/pencil-array/src/transpose.rs:490-515 | The region scan of every peer accepts every valid plan |
| Transposes.PlacedIsAccepted | crates/pencil-array/src/transpose.rs:841-882 | A nonempty region inside the box passes the scan for storage that holds every extra group |
| Transposes.TotalIs | crates/pencil-array/src/transpose.rs:447-517 | The checked sum of the counts is the expected length |
| Transposes.PackSource | crates/pencil-array/src/transpose.rs:1181-1217 | Every peer's region, in global row-major order and for every extra group, is in the send buffer, except the skipped one's |
| Transposes.UnpackDestination | crates/pencil-array/src/transpose.rs:1286-1318 | Every received segment is in its region of storage; a tail beyond the layout and the skipped region stay |
| Plans.ValidatePlanLayout | crates/pencil-array/src/transpose.rs:579-599 | Accepts exactly equal topologies and shapes with decompositions that differ at one position, names that position, and reports the first failed condition |
| Plans.RegionsAgree | crates/pencil-array/src/transpose.rs:601-656 | What a rank sends to a peer is what that peer receives from it |
| Plans.SendRegionsTile | crates/pencil-array/src/transpose.rs:601-656 | Every index of a rank's source box lies in the send region of exactly one peer, the destination owner's |
| Plans.ReceiveRegionsTile | crates/pencil-array/src/transpose.rs:601-656 | Every index of a rank's destination box lies in the receive region of exactly one peer |
| Plans.IntersectIsBoth | crates/pencil-array/src/transpose.rs:658-671 | An index is in the intersection exactly if it is in both boxes, also when ranges are empty or do not meet |
| Plans.SendTotal | crates/pencil-array/src/transpose.rs:684-721 | Send lengths add up to the local length |
| Plans.SendSegmented | crates/pencil-array/src/transpose.rs:601-656 | Send segments follow one another, fill the local length and lie in the box |
| Plans.ReceiveSegmented | crates/pencil-array/src/transpose.rs:601-656 | The same for receive segments |
| Segments.PackSourceRegions | crates/pencil-array/src/transpose.rs:1129-1179 | Every segment that is not skipped and not empty holds its region in every extra group |
| Segments.UnpackDestinationRegions | crates/pencil-array/src/transpose.rs:1236-1284 | Every region that is not skipped holds its segment, and every cell outside these regions is unchanged |
| Segments.CopySelfRegion | crates/pencil-array/src/transpose.rs:1360-1419 | The own region's values are the same in both storages, in every extra group, and all other destination cells are unchanged |
| Segments.TargetsApart | crates/pencil-array/src/transpose.rs:1236-1284 | Disjoint regions and different extra groups never share a storage cell |
| Segments.StorageCellIs | crates/pencil-array/src/view.rs:58-72 | The cell of a global index in an extra group is the group times the product of the memory extents plus that sum |
| RegionWalks.WalkOf | crates/pencil-array/src/transpose.rs:952-1022 | Builds a walk for every nonempty region inside the local box and rejects every other region, also inverted ones; no stride product or sum overflows on a region it accepts |
| RegionWalks.WalkVisits | crates/pencil-array/src/transpose.rs:952-1032 | Position `k` of the walk is the checked storage offset of the `k`-th index of the region in global row-major order |
| RegionWalks.WalkMaximum | crates/pencil-array/src/transpose.rs:952-1032 | Every visited offset is at most the walk's maximum, which is below the local length |
| RegionWalks.AdvanceRegion | crates/pencil-array/src/transpose.rs:1034-1048 | One odometer step moves counter and offset to the next position; additions and give-back subtractions stay within `usize`, also for length-one axes with large strides |
| RegionCopies.CopyRegionToPayload | crates/pencil-array/src/transpose.rs:1051-1078 | The payload segment holds the region in visiting order and the rest of the payload is unchanged |
| RegionCopies.CopyRegionFromPayload | crates/pencil-array/src/transpose.rs:1081-1108 | The region's cells hold the payload segment and every other storage cell is unchanged |
| RegionCopies.CopyRegionBetween | crates/pencil-array/src/transpose.rs:1321-1358 | Cell by cell the region is copied from one memory order to another, and every other cell is unchanged |
| RegionCopies.WalkIsOver | crates/pencil-array/src/transpose.rs:2000-2020 | The walk visits exactly the element-wise reference offsets: all of them, in order, each once |
| RegionCopies.TargetOfIndex | crates/pencil-array/src/transpose.rs:887-907 | Index `g` of a region is payload element number `PlaceIn(region, g)` and sits at its storage offset |
| RegionCopies.TargetOutside | crates/pencil-array/src/transpose.rs:1081-1108 | The storage cell of an index outside the region is not one the copy touches |
| RegionChecks.ValidateRegionOffsets | crates/pencil-array/src/transpose.rs:841-882 | The two-corner check accepts exactly what the element-by-element scan accepts, for all ranges, storage lengths and overflow cases |
| RegionChecks.RegionSpatialLen | crates/pencil-array/src/transpose.rs:673-682 | The element count, or an error exactly for an inverted axis or a count that does not fit |
| RegionChecks.CornerDecides | crates/pencil-array/src/transpose.rs:841-882 | Inside the ranges, the last corner in the last extra group decides for all elements |
| Geometry.PartitionTiles | crates/pencil-array/src/geometry.rs:9-30 | The parts of an axis tile it in order, for every length and part count |
| Geometry.OwnerIsUnique | crates/pencil-array/src/geometry.rs:9-30 | Position `i` lies in part `k` exactly when `k` is the closed-form owner; empty parts own nothing |
| Geometry.PartitionBalance | crates/pencil-array/src/geometry.rs:9-30 | Every part has the floor or the ceiling of length over parts |
| Geometry.BoundaryFits | crates/pencil-array/src/geometry.rs:9-30 | For every length and position the product fits 128 bits, and up to the number of parts the quotient is at most the length, so narrowing it back loses nothing |
| Geometry.RowMajorOffset | crates/pencil-array/src/geometry.rs:65-87 | Returns the checked row-major offset, error for error |
| Geometry.RowMajorMeaning | crates/pencil-array/src/geometry.rs:65-87 | It succeeds exactly on in-bounds indices whose offset fits, and returns that offset |
| Geometry.CheckedProduct | crates/pencil-array/src/checked.rs:3-11 | The product if it fits; a zero extent anywhere gives zero, whatever the others are |
| Pencil.BoxesTile | crates/pencil-array/src/pencil.rs:251-265 | The boxes of the grid tile the global array: an index lies in the box at `coords` exactly if `coords` is its owner |
| Pencil.BoxIs | crates/pencil-array/src/pencil.rs:251-265 | Along an axis cut into `p` parts the box at coordinate `c` goes from the floor of `length * c / p` to the floor of `length * (c + 1) / p`, and along every other axis it is the whole axis |
| Pencil.LocalRangesFor | crates/pencil-array/src/geometry.rs:33-59 | Narrowing one axis per topology axis gives the box at the coordinates, or the first bad coordinate |
| Pencil.LayoutValid | crates/pencil-array/src/pencil.rs:69-112 | Boxes lie inside the shape and meet every size bound if the global array does |
| Pencil.OffsetRoundTrip | crates/pencil-array/src/view.rs:33-56 | An index of the box has an offset below the local length, and decoding it gives the index |
| Pencil.OffsetIs | crates/pencil-array/src/view.rs:33-56 | The offset of a global index is the sum over the memory axes of its distance from the box start, along the logical axis stored there, times the product of the later memory extents |
| Pencil.MemoryOrder | crates/pencil-array/src/pencil.rs:69-112 | Memory axis `q` has the extent of the box along logical axis `axes[q]` |
| Pencil.LastAxisIsContiguous | crates/pencil-array/src/axis.rs:104-108 | A step along the logical axis that is last in memory moves the offset by one |
| Pencil.IndexOfRoundTrip | crates/pencil-array/src/view.rs:33-56 | Every offset below the local length decodes to an index of the box with that offset |
| Pencil.OwnerInBounds | crates/pencil-array/src/pencil.rs:173-181 | The owner of an in-bounds index is a coordinate of the grid |
| Axis.NewPermutation | crates/pencil-array/src/axis.rs:40-66 | Accepts exactly the permutations of `0..N` and builds the inverse; reports the first axis that is out of range or repeats |
| Axis.CheckAxes | crates/pencil-array/src/axis.rs:40-66 | Accepts exactly distinct axes in range, and reports the first violation |
| Axis.PermuteRoundTrip | crates/pencil-array/src/axis.rs:104-113 | Unpermuting undoes permuting |
| Axis.StridedOffset | crates/pencil-array/src/view.rs:33-56 | The memory offset of a logical index is the dot product with the logical strides |
| MixedRadix.DigitsOfLinear | crates/pencil-array/src/geometry.rs:65-87 | Decoding an encoded index gives the index back |
| MixedRadix.LinearOfDigits | crates/pencil-array/src/local_transpose.rs:301-340 | Encoding a decoded offset gives the offset back |
| MixedRadix.LinearMonotone | crates/pencil-array/src/transpose.rs:841-882 | The encoding is monotone under the pointwise order |
| MixedRadix.LinearIsTotal | crates/pencil-array/src/geometry.rs:65-87 | The encoding is the sum over the axes of the coordinate times the product of the later extents |
| PointToPoint.Progress | crates/pencil-array/src/point_to_point_transpose.rs:685-803 | As long as some rank has not finished, some step is enabled: no interleaving of posts, deliveries and waits gets stuck |
| PointToPoint.MeasureDecreases | crates/pencil-array/src/point_to_point_transpose.rs:685-803 | Every step lowers a natural number, so every run ends |
| PointToPoint.InvStep | crates/pencil-array/src/point_to_point_transpose.rs:685-803 | Every step keeps the invariant: completed messages were posted at both ends, their segments hold what was sent, all other cells hold what they did |
| PointToPoint.RunKeepsInv | crates/pencil-array/src/point_to_point_transpose.rs:685-803 | Every run keeps it, and has as many steps as the measure lost |
| PointToPoint.FinishedIsDone | crates/pencil-array/src/point_to_point_transpose.rs:685-803 | When all ranks have finished, exactly the messages of the exchange have arrived |
| PointToPoint.OutcomeIsUnique | crates/pencil-array/src/point_to_point_transpose.rs:685-803 | Two runs that finish end in the same buffers after the same number of steps |
| PointToPointWorlds.PointToPointTransposeKeepsGlobalArray | crates/pencil-array/src/point_to_point_transpose.rs:185-241 | On all ranks: pack, any run of the message protocol to the end of each rank's receive waits, the self copy if the own message is skipped, and unpacking keep the global array, for every plan, extra count and interleaving |
| PointToPointWorlds.PointToPointMatchesAllToAllV | crates/pencil-array/src/point_to_point_transpose.rs:185-241 | Every destination cell equals the one the Alltoallv transpose of the same source leaves, with or without the own message |
| PointToPointWorlds.MessagesDeliver | crates/pencil-array/src/point_to_point_transpose.rs:685-803 | Once every rank has waited for its receives, every message of every rank is delivered, and every prepared line is a valid one |
| PointToPoint.ReceivesDoneDelivers | crates/pencil-array/src/point_to_point_transpose.rs:685-803 | On one line, as soon as the receive waits of a member are over, every message to it stands where it reads it |
| PointToPoint.ReceivedIsFinal | crates/pencil-array/src/point_to_point_transpose.rs:685-803 | As soon as a member's receive waits are over, no later step of any rank changes its receive buffer |
| PointToPoint.AllArrived | crates/pencil-array/src/point_to_point_transpose.rs:685-803 | By then exactly the messages of the exchange to this member have arrived |
| PointToPoint.CanFinish | crates/pencil-array/src/point_to_point_transpose.rs:685-803 | From every reachable state some run finishes on all ranks |
| PointToPoint.ColumnIsReceive | crates/pencil-array/src/transpose.rs:392-406 | Each nonzero send meets one receive of equal count |
| PointToPoint.LineIsValid | crates/pencil-array/src/point_to_point_transpose.rs:685-803 | The prepared exchange of every valid plan is one whose segments fit and stay apart |
| PointToPoint.PostSegments | crates/pencil-array/src/point_to_point_transpose.rs:697-760 | The posting loop posts one request for every nonempty segment that is not skipped, and splits the buffer past a skipped one |
| RemapWorlds.PreparedRemapRealisesAffineMap | crates/pencil-array/src/spatial_remap.rs:221-404 | From the exchange of requests to the unpacked payload, on all ranks, for arbitrary decompositions and permutations and any order of requests with one owner: the destination value at `g` is, in every extra group, the source value at an index `s` inside the shape with `sign * g + offset = turns * extent + s` on every axis; offsets are the decoded ones and both exchanges are proved consistent |
| RemapWorlds.RemapRealisesAffineMap | crates/pencil-array/src/spatial_remap.rs:349-404 | The same for given offsets of the requests |
| RemapWorlds.EveryElementRequestedOnce | crates/pencil-array/src/spatial_remap.rs:672-740 | Each rank receives exactly as many requests as it has elements, owns all of them, and their offsets are all its offsets, each once |
| RemapWorlds.ReceivedRequestsAccepted | crates/pencil-array/src/spatial_remap.rs:839-907 | What arrives always passes the two checks: a wrong total and a wrong owner are unreachable when all ranks hold matching plans |
| RemapWorlds.RequestsArrive | crates/pencil-array/src/spatial_remap.rs:256-290 | The index exchange delivers the requests to a rank in the order of the senders |
| RemapWorlds.RequestExchangeConsistent | crates/pencil-array/src/spatial_remap.rs:256-290 | The exchange of requests meets MPI's conditions |
| RemapWorlds.PayloadExchangeConsistent | crates/pencil-array/src/spatial_remap.rs:349-404 | The payload exchange meets MPI's conditions: it is the request exchange turned around, times the extra count |
| Affines.AffineIsBijection | crates/pencil-array/src/spatial_remap.rs:769-795 | The affine map is a bijection of the index space, for both signs and every offset |
| Affines.AffineCoordinate | crates/pencil-array/src/spatial_remap.rs:769-795 | On every axis the result lies below the extent and differs from `sign * coordinate + offset` by a whole number of extents, also for negative values; the checked 128-bit computation never overflows and fails exactly for a zero extent or a sign that is not one |
| Affines.ImageIs | crates/pencil-array/src/spatial_remap.rs:769-795 | The only index in bounds that differs from `sign * g + offset` by whole extents on every axis is the image under the map |
| Affines.Turns | crates/pencil-array/src/spatial_remap.rs:769-795 | On every axis the image of an index differs from `sign * g + offset` by a whole number of extents |
| RemapRoutes.PartitionOwner | crates/pencil-array/src/spatial_remap.rs:818-837 | The binary search finds the unique owner, also between empty parts, and fails exactly outside the axis or without parts |
| RemapRoutes.OwnerRank | crates/pencil-array/src/spatial_remap.rs:797-816 | The rank of the unique box that holds the index |
| RemapRoutes.Decode | crates/pencil-array/src/spatial_remap.rs:909-927 | The division loop gives the row-major coordinates |
| RemapRoutes.LocalCoordinate | crates/pencil-array/src/spatial_remap.rs:742-767 | The global-order local coordinate stored at a memory offset |
| RemapRoutes.BuildRoute | crates/pencil-array/src/spatial_remap.rs:672-740 | Owner and linear index of the source of one destination element; none of the checks can fail |
| RemapRoutes.BuildOwnerRoutes | crates/pencil-array/src/spatial_remap.rs:672-740 | One request per destination element, sorted by owner, with counts and displacements of the runs; the only failure is a count or displacement beyond `Count` |
| RemapRoutes.RouteFor | crates/pencil-array/src/spatial_remap.rs:672-740 | Every destination element has exactly one request |
| RemapRoutes.SortUnstableByOwner | crates/pencil-array/src/spatial_remap.rs:672-740 | The order it leaves: sorted by owner, a permutation, ties in any order |
| RemapRoutes.SortedSplit | crates/pencil-array/src/spatial_remap.rs:672-740 | Sorted entries name ranks below `q` exactly up to position `CountBelow(q)` |
| RemapRoutes.CountsOfPermutation | crates/pencil-array/src/spatial_remap.rs:672-740 | Counts do not depend on the tie order |
| RemapRoutes.ValidatePartitionLayout | crates/pencil-array/src/spatial_remap.rs:1051-1082 | Of all signed 32-bit vectors, accepts exactly those whose segments follow one another and fill the buffer; only a negative entry is reported as an overflow |
| RemapPayloads.ReceiveLayout | crates/pencil-array/src/spatial_remap.rs:839-863 | Of all signed 32-bit counts: running sums exactly if none is negative, they fit and the total is the expected one, with the right error otherwise |
| RemapPayloads.IncomingSourceOffsets | crates/pencil-array/src/spatial_remap.rs:886-907 | Offsets of all requests exactly if this rank owns each, else the first foreign one is reported |
| RemapPayloads.PayloadLayout | crates/pencil-array/src/spatial_remap.rs:949-1049 | Request partitions times the extra count, exactly if elements have a size, the vectors are partitions of both layouts, and all counts, displacements and byte sizes fit; the error says which kind of check failed |
| RemapPayloads.ScalePartition | crates/pencil-array/src/spatial_remap.rs:949-1049 | A partition times the extra count is a partition of the scaled total |
| RemapPayloads.PackPayload | crates/pencil-array/src/spatial_remap.rs:1196-1217 | Each peer's payload holds, extra group by extra group, the requested elements in request order |
| RemapPayloads.UnpackPayload | crates/pencil-array/src/spatial_remap.rs:1219-1240 | Each received element is in the cell that asked for it |
| Outcomes.RanksAgree | crates/pencil-array/src/transpose.rs:323-366 | For any calls on any inputs and any pattern of local failures, all ranks issue one sequence of collectives with equal lengths and return one result: success exactly if all ask for the same plan, execution, remap or descriptor and every rank is locally fine, and else the error of the first stage that did not go well |
| Outcomes.AllFineMeans | crates/pencil-array/src/transpose.rs:323-366 | All stages go well exactly if all calls carry equal plans, executions, remaps or descriptors, every local step succeeded, every status is zero and all counts fit |
| Outcomes.BodyTells | crates/pencil-array/src/transpose.rs:1609-1659 | Once the earlier stages went well, a gate opens exactly if its stage goes well, equal descriptor words being equal plans, and a closed gate returns the error of the stage on every rank |
| Outcomes.HeadingMeans | crates/pencil-array/src/transpose.rs:323-345 | Equal headers mean the same operation, rank numbers and descriptor length, and conversely |
| Agreement.CallsInStep | crates/pencil-array/src/spatial_remap.rs:415-570 | Any two calls stay in step as long as the gates they share open |
| Agreement.HeadersAgree | crates/pencil-array/src/preflight.rs:42-54 | Equal headers mean the same operation on arrays of the same rank, with descriptors of one length |
| Agreement.BodyGateMatches | crates/pencil-array/src/transpose.rs:1493-1528 | After equal headers, every gate that two calls can both reach is the same call with the same length |
| Agreement.PlanGateMatches | crates/pencil-array/src/spatial_remap.rs:533-570 | The same for the descriptor and payload gates of two remap preparations |
| Gates.GatesAgree | crates/pencil-array/src/preflight.rs:82-97 | A protocol of gates in lockstep runs to its end, and every rank returns success if all gates open and else what the first closed gate refuses with |
| Gates.EndsByStage | crates/pencil-array/src/preflight.rs:82-97 | If, as far as they are reached, the gates of the ranks open exactly when the stages go well, all ranks return the outcome of the stages |
| Gates.PairwiseLockstep | crates/pencil-array/src/preflight.rs:42-97 | Ranks that are pairwise in step are in lockstep together |
| Gates.InStepByIndex | crates/pencil-array/src/preflight.rs:42-97 | Two ranks are in step if each gate that both can reach matches |
| Preflight.MinMaxAgree | crates/pencil-array/src/preflight.rs:64-78 | Minimum and maximum agree exactly where all ranks supplied the same word |
| Preflight.PairedMaxDecides | crates/pencil-array/src/preflight.rs:14-32 | One maximum over words and complements decides equality on all ranks |
| Preflight.ExpandForMax | crates/pencil-array/src/preflight.rs:14-20 | The buffer holds the words and then their complements |
| Preflight.SplitMinMax | crates/pencil-array/src/preflight.rs:26-32 | Maximum and minimum are recovered from the reduced pair |
| Preflight.HeaderRuns | crates/pencil-array/src/preflight.rs:42-54 | Every rank learns from one reduction whether all headers are equal |
| Preflight.ValidRuns | crates/pencil-array/src/transpose.rs:1602-1607 | Every rank learns from one reduction whether all flags are true |
| Preflight.WordsRun | crates/pencil-array/src/preflight.rs:64-78 | Every rank learns, chunk by chunk and with the same number of calls, whether all words are equal |
| Preflight.RunIsUnique | crates/pencil-array/src/preflight.rs:42-97 | The programs of all ranks determine trace and outcome |
| Descriptors.RemapDescriptorInjective | crates/pencil-array/src/spatial_remap.rs:572-622 | Equal remap descriptors mean equal grids, shapes, decompositions, permutations, extra shapes, signs, 128-bit offsets, sizes and type names |
| Descriptors.PlanDescriptorInjective | crates/pencil-array/src/transpose.rs:1430-1451 | The same for transpose plans |
| Descriptors.ExecuteDescriptorInjective | crates/pencil-array/src/transpose.rs:1562-1589 | The same for execution: extra shapes, element size and type name |
| Descriptors.DecodeRoundTrip | crates/pencil-array/src/spatial_remap.rs:572-654 | A decoder that knows only the field forms undoes the builder, whatever words follow |
| Descriptors.OffsetRoundTrip | crates/pencil-array/src/spatial_remap.rs:572-622 | The two words of a 128-bit offset give it back, negative ones included |
| Descriptors.PlanDescriptorLength | crates/pencil-array/src/transpose.rs:1421-1428 | The builder emits exactly the precomputed number of words |
| Descriptors.RemapDescriptorLength | crates/pencil-array/src/spatial_remap.rs:503-531 | The same for remaps |
| Descriptors.BuildRemapDescriptor | crates/pencil-array/src/spatial_remap.rs:572-654 | The appending builder returns exactly the encoded fields, if its length matches |
| Gathers.GatherIsGlobal | crates/pencil-array/src/collectives.rs:2582-2736 | The root's array holds, row-major over global logical indices and extra groups, the value of each index from its owner |
| Gathers.GatherBlocks | crates/pencil-array/src/collectives.rs:2708-2724 | Unpacking the ranks one after the other leaves every block in place |
| Gathers.UnpackBlock | crates/pencil-array/src/collectives.rs:2845-2882 | Each element of a block is copied to its global place and no other cell changes |
| Gathers.CollectBlocks | crates/pencil-array/src/collectives.rs:2753-2832 | Every grid coordinate is visited once and its block filed under its rank; the only failure is a count beyond `Count` |
| Gathers.BuildGatherMetadata | crates/pencil-array/src/collectives.rs:2753-2832 | The total always equals the global count; the result has the largest count and the first rank with elements |
| Gathers.ReductionsMatchSummary | crates/pencil-array/src/collectives.rs:2638-2645 | The largest local count and the least first word of all ranks are the largest count and the first nonempty rank that each rank found alone |
| Gathers.ConfirmMetadata | crates/pencil-array/src/collectives.rs:2637-2653 | The check of both reductions against the metadata never fails: the diverging branch is unreachable |
| Gathers.AdvanceCoordinates | crates/pencil-array/src/collectives.rs:2834-2843 | The row-major successor in place, or a wrap to zero after the last coordinate |
| Gathers.BlocksFillArray | crates/pencil-array/src/collectives.rs:2753-2832 | All blocks together have exactly as many elements as the global array |
| Gathers.GlobalOffsetInjective | crates/pencil-array/src/collectives.rs:2845-2882 | Each global cell comes from one offset of one rank, so it is written once |
| ArrayRuns.ValidLayoutHoldsLastWrite | crates/pencil-array/src/many.rs:215-305 | Over every run of overwrites, local reorderings and distributed transposes, completed, refused, failed or panicked: a valid layout holds, at every index of its box and in every extra group, the value that the last completed overwrite or distributed write put at that index, or the initial one |
| ArrayRuns.PoisonedUntilOverwritten | crates/pencil-array/src/many.rs:215-230 | From a poisoned state on, every in-place operation leaves the array unchanged and it stays poisoned until an overwrite succeeds |
| ArrayRuns.CarriedOver | crates/pencil-array/src/local_transpose.rs:239-255 | A local reordering carries the value of the last completed write to its place in the new layout |
| ArrayRuns.CommitHolds | crates/pencil-array/src/many.rs:272-305 | A call that commits leaves its own values at every index: the written ones, or the received element of the segment that brings the index |
| ArrayRuns.UnpackedValue | crates/pencil-array/src/transpose.rs:556-577 | Unpacked storage has at each index the received element of the segment of its source owner |
| ArrayRuns.PoisonedExactlyWhileSpoiled | crates/pencil-array/src/many.rs:272-305 | An array that starts valid is poisoned after a run exactly if some write was left unfinished and no overwrite has succeeded since; a transpose with a callback is unfinished also when only a peer's callback failed |
| ArrayWorlds.ValueHasOrigin | crates/pencil-array/src/many.rs:215-305 | Over every run of calls on all ranks, in any mix and with any outcomes: what a rank reads at a global index is what was put at that very index by the call found by going back through every move, on the rank that made that call, or what some rank started with |
| ArrayWorlds.GlobalArrayKept | crates/pencil-array/src/transpose.rs:556-577 | As long as no rank completes a write, all layouts that are valid on every rank hold one global array, whatever accepted, refused or panicking reorderings and transposes lie between |
| ArrayWorlds.LastOverwriteHeld | crates/pencil-array/src/many.rs:215-230 | After all ranks overwrote a layout, every layout that is valid on all ranks holds the written global array until a rank completes another write |
| ArrayWorlds.MoveShows | crates/pencil-array/src/transpose.rs:556-577 | An accepted transpose brings every value from the rank that owned its index in the source layout |
| ArrayWorlds.KeptShows | crates/pencil-array/src/local_transpose.rs:239-255 | A call that writes nothing and takes nothing from other ranks leaves what a rank reads |
| ArrayWorlds.CallbacksEndTogether | crates/pencil-array/src/point_to_point_transpose.rs:319-393 | If every rank's callback completed, every array is valid in the destination layout and every call succeeds; if one failed or panicked, every array is poisoned and every rank reports its own panic, a peer's panic, its own error or a peer's error, in this order |
| ArrayWorlds.StatusTellsWorst | crates/pencil-array/src/point_to_point_transpose.rs:665-682 | The greatest status tells every rank what to report: the worst outcome of any callback |
| CallbackWorlds.CallEndsAlike | crates/pencil-array/src/point_to_point_transpose.rs:319-393 | For any inputs, local failures and callback outcomes, all ranks make the same collective calls and end alike: refused with every array unchanged, valid in the destination layout with success everywhere, or poisoned with a failure everywhere |
| CallbackWorlds.SuccessMeans | crates/pencil-array/src/point_to_point_transpose.rs:524-683 | The protocol succeeds on all ranks exactly if all ranks hold one execution, all are prepared and have their requests reserved, and every callback completed |
| CallbackWorlds.AdmittedMeans | crates/pencil-array/src/point_to_point_transpose.rs:524-547 | The gates before the callback open exactly if all ranks hold one execution and all are prepared and have their requests reserved |
| Registries.ValidateRegistry | crates/pencil-array/src/many.rs:307-347 | Passes its checks exactly if the registry is nonempty, the active index is in it, all pencils share topology and shape, and any two differ in decomposition or permutation; then returns the largest length times the extra count or an overflow, and reports a bad index before incompatible pencils |
| Registries.SameLayoutIsEqual | crates/pencil-array/src/pencil.rs:238-240 | Layouts are the same exactly if topology, shape, decomposition and permutation are equal, and then every rank stores them alike |
| ManyArrays.ManyPencilArray.constructor | crates/pencil-array/src/many.rs:59-86 | The active layout starts valid, on the given storage |
| ManyArrays.ManyPencilArray.ActiveIndex | crates/pencil-array/src/many.rs:232-241 | The index exactly in a valid state |
| ManyArrays.ManyPencilArray.FindLayout | crates/pencil-array/src/many.rs:243-247 | The first registered index whose topology, shape, decomposition and permutation are those of the target, if there is one |
| ManyArrays.ManyPencilArray.OverwriteWith | crates/pencil-array/src/many.rs:215-230 | One step of a run: poison, write, and commit only if the writer returned |
| ManyArrays.ManyPencilArray.LocalTransposeInPlace | crates/pencil-array/src/local_transpose.rs:170-193 | One step of a run: refusals and panics before writing change nothing, a panic while writing poisons, success reorders the active values for the destination and keeps the tail |
| ManyArrays.ManyPencilArray.PrepareInPlace | crates/pencil-array/src/transpose.rs:520-554 | The destination index exactly if the array is valid in the source layout and the destination is registered, with the first failed check otherwise |
| ManyArrays.ManyPencilArray.FinishInPlace | crates/pencil-array/src/point_to_point_transpose.rs:352-391 | One step of a run: the received segments are unpacked over the prefix of the destination layout and shown to the callback, the storage tail stays, and the layout becomes valid exactly if the call succeeds: without a callback, or if the callbacks of all ranks succeeded |
| LocalTransposes.ReorderingKeepsValues | crates/pencil-array/src/local_transpose.rs:239-255 | Reordering keeps every logical value, index by index, in every extra group |
| LocalTransposes.LogicalOffsets | crates/pencil-array/src/local_transpose.rs:301-340 | Both storage offsets of a logical position; for a valid pair of layouts the checks cannot fail |
| LocalTransposes.WriteStaged | crates/pencil-array/src/local_transpose.rs:239-255 | The staged values are in destination order and the tail is unchanged |
| LocalTransposes.ExecuteViews | crates/pencil-array/src/local_transpose.rs:85-144 | The destination is exactly the reordered source |
| Pointwises.Pointwise2 | crates/pencil-array/src/pointwise.rs:40-73 | There is a sequence of callback states from the given one to the final one such that every output and the next state are what the callback makes of the state and the two expanded inputs at that position; all layouts are compared before any extents, and mismatches are reported before anything is written |
| Pointwises.Pointwise2InPlace | crates/pencil-array/src/pointwise.rs:102-134 | The same with the left input as output: every call reads the original value of its position |
| Pointwises.PointwiseMany | crates/pencil-array/src/pointwise.rs:320-384 | The same for any number of inputs, each call reading all expanded inputs of its position; no input is an error, and the first that does not fit is reported with its index and its own error |
| Pointwises.Fold2Calls | crates/pencil-array/src/pointwise.rs:40-73 | The calls form a chain: each starts in the state the one before it left |
| Pointwises.RowAtIs | crates/pencil-array/src/pointwise.rs:354-384 | The inputs of a call are the expanded values of all inputs at its position |
| Pointwises.ExpandedMeaning | crates/pencil-array/src/pointwise.rs:195-212 | An expanded input has at each coordinate the input's value at that coordinate with singleton axes zeroed |
| Pointwises.ExpandedSame | crates/pencil-array/src/pointwise.rs:102-134 | Expanding to the own shape changes nothing |
| Broadcasts.BroadcastLinear | crates/pencil-array/src/pointwise.rs:195-212 | The input group of an output group: the row-major offset of its coordinate with singleton axes zeroed, without overflow |
| Broadcasts.SourceInBounds | crates/pencil-array/src/pointwise.rs:195-212 | The group read always exists in the input |
| Broadcasts.Strides | crates/pencil-array/src/pointwise.rs:135-152 | Row-major strides; they always fit when the extents are positive and their product fits |
| Broadcasts.ValidateExtents | crates/pencil-array/src/pointwise.rs:176-193 | Accepts exactly the extents equal to the output's or one, and reports the rank first and then the first misfit |
| Broadcasts.DigitByStride | crates/pencil-array/src/pointwise.rs:195-212 | Dividing by the output stride and reducing by the extent gives the coordinate |
| Norms.OnePassNorm | crates/pencil-array/src/collectives.rs:2149-2176 | One rank pushes its values, contributes its entry to each reduction, and with the reduced values returns the sum of squares of all ranks |
| Norms.TwoPassNormOf | crates/pencil-array/src/collectives.rs:2179-2219 | One rank of the two-pass form does the same |
| Norms.NormIsIndependent | crates/pencil-array/src/collectives.rs:2179-2219 | One pass or two, over any distribution and in any order, the squared norm is the sum of squares of all values |
| Norms.NormState.Push | crates/pencil-array/src/collectives.rs:2127-2147 | After each value, the scale is the maximum, scale squared times `ssq` is the sum of squares, and `ssq` is at most the number of values |
| Norms.MergedNorm | crates/pencil-array/src/collectives.rs:2149-2176 | States merged at the global scale give the sum of squares of all ranks' values |
| Norms.TwoPassNorm | crates/pencil-array/src/collectives.rs:2179-2219 | The two-pass form gives the same number |
| Norms.Rescale | crates/pencil-array/src/collectives.rs:2126-2147 | Bringing a sum to a larger scale uses a ratio in `[0, 1]`, never raises it, and keeps the sum of squares it stands for |
| Norms.SumSquaresUnordered | crates/pencil-array/src/collectives.rs:2179-2219 | The sum of squares depends only on the multiset of values |
| C2cNd.InverseRestores | crates/pencil-fft/src/c2c_nd.rs:184-195 | The inverse restores the data although it visits the axes in the forward order, for every shape, list of distinct axes and mutually inverse linear kernels |
| C2cNd.PassesCommute | crates/pencil-fft/src/c2c_nd.rs:67-91 | Strided line passes along different axes commute |
| C2cNd.PassUndone | crates/pencil-fft/src/c2c_nd.rs:67-91 | A pass with the inverse kernel undoes a pass along the same axis |
| C2cNd.PassThrough | crates/pencil-fft/src/c2c_nd.rs:184-195 | A pass along another axis moves through a whole inverse transform |
| C2cPlans.AxisPlan.Apply | crates/pencil-fft/src/c2c_nd.rs:67-91 | The three nested loops transform every line along the axis, in place, and nothing else |
| C2cPlans.MoveLine | crates/pencil-fft/src/c2c_nd.rs:66-92 | Gather, transform and scatter put the transformed line back into its own cells only |
| C2cPlans.LineDone | crates/pencil-fft/src/c2c_nd.rs:66-92 | After one more line, the lines done hold transforms of the original data and the others are untouched |
| C2cPlans.OnLine | crates/pencil-fft/src/c2c_nd.rs:66-92 | A cell is visited with line `(outer, inner)` exactly if it lies on that line |
| C2cPlans.LocalC2cNdPlan.Apply | crates/pencil-fft/src/c2c_nd.rs:184-195 | A wrong length changes nothing; otherwise all passes are applied in the listed order |
| C2cBuilds.NewColMajor | crates/pencil-fft/src/c2c_nd.rs:100-139 | Accepts exactly nonzero shapes that are addressable and distinct axes in range whose one-dimensional plans can be built, reports the first failed check, and builds valid passes with the axes' strides |
| C2cBuilds.ValidateShape | crates/pencil-fft/src/c2c_nd.rs:198-210 | The element count, or the error of the first failed check |
| C2cBuilds.AxisProducts | crates/pencil-fft/src/c2c_nd.rs:100-139 | Stride and outer count of an axis are the products of the extents before and after it |
| Complexes.SumsCommute | crates/pencil-fft/src/c2c_nd.rs:67-91 | Summing first along lines or first along columns gives the same |
| R2cForms.ForwardBothWays | crates/pencil-fft/src/r2c.rs:525-554 | Run on equal values, the in-place and the out-of-place forward transform end the same way and leave equal spectra |
| R2cForms.InverseBothWays | crates/pencil-fft/src/r2c.rs:585-624 | Run on equal spectra, both inverse forms, normalized or not, end the same way, with the same error at the same row, and leave equal signals |
| R2cRows.BatchRestored | crates/pencil-fft/src/r2c.rs:489-497 | The normalized inverse restores a batch if the backend restores each line |
| R2cRows.RescaledIs | crates/pencil-fft/src/r2c.rs:489-497 | A normalized value times the length is the value before it; without normalization nothing changes |
| R2cPlans.LocalR2cPlan.ForwardInPlace | crates/pencil-fft/src/r2c.rs:525-554 | Refused calls change nothing and report the first failed check; success turns each real row into its spectrum although the longer rows overwrite the storage they are read from; a panic leaves the array poisoned |
| R2cPlans.LocalR2cPlan.ForwardRowInPlace | crates/pencil-fft/src/r2c.rs:533-551 | Back to front, the row written never covers a row that is still to be read |
| R2cPlans.LocalR2cPlan.ExecuteInPlaceInverse | crates/pencil-fft/src/r2c.rs:585-624 | Refused calls change nothing and report the first failed check; success gives the real rows; a backend failure names its row and leaves the array poisoned |
| R2cPlans.LocalR2cPlan.InverseRowInPlace | crates/pencil-fft/src/r2c.rs:594-621 | Front to back, the row written never covers a row that is still to be read |
| R2cPlans.LocalR2cPlan.Forward | crates/pencil-fft/src/r2c.rs:431-458 | Every destination line is the transform of its source line; line buffer tails stay; a refusal is the first failed check |
| R2cPlans.LocalR2cPlan.ExecuteInverse | crates/pencil-fft/src/r2c.rs:626-663 | All endpoints are checked before anything is written, and the first bad one is reported with its row; every destination line is the inverse of its source line |
| R2cPlans.LocalR2cPlan.ValidateInPlace | crates/pencil-fft/src/r2c.rs:687-714 | Succeeds exactly in the expected state with matching plan, workspace, lengths and endpoints, and otherwise reports the first of these that fails |
| R2cPlans.LocalR2cPlan.ValidateLineBuffers | crates/pencil-fft/src/r2c.rs:722-757 | Succeeds exactly if both buffers hold the same number of whole lines and the workspaces are long enough, and otherwise reports the first of these that fails |
| R2cPlans.LocalR2cPlan.CheckedInPlaceLengths | crates/pencil-fft/src/r2c.rs:874-895 | The two value counts exactly if both are addressable |
| R2cPlans.ValidateEndpoints | crates/pencil-fft/src/r2c.rs:803-817 | Succeeds exactly if all constrained endpoints are real, else names the first row and, in it, the first value |
| R2cPlans.BatchCountOf | crates/pencil-fft/src/r2c.rs:850-855 | The number of lines, or an error exactly if there is none |
| Dhts.LocalDhtPlan.OneValue | crates/pencil-fft/src/dht.rs:283-313 | Bins `k` and `n - k` of one complex transform give the Hartley sums of the real and of the imaginary parts, for self bins and mirrored pairs, divided by `n` if asked |
| Dhts.LocalDhtPlan.WriteLine | crates/pencil-fft/src/dht.rs:283-313 | Every value of the line is rebuilt and no other value changes |
| Dhts.LocalDhtPlan.FillAndFft | crates/pencil-fft/src/dht.rs:260-281 | The workspace holds the transform of the line and its tail is unchanged |
| Dhts.LocalDhtPlan.HalfSum | crates/pencil-fft/src/dht.rs:358-364 | Both branches give half the sum |
| Dhts.LocalDhtPlan.ExecuteInPlace | crates/pencil-fft/src/dht.rs:239-258 | Refused calls change nothing; else every line is replaced by its Hartley line |
| Dhts.LocalDhtPlan.ExecuteOutOfPlace | crates/pencil-fft/src/dht.rs:208-237 | Refused calls change nothing; else every destination line is the Hartley line of its source line |
| Dhts.MirrorParts | crates/pencil-fft/src/dht.rs:283-313 | Bins `k` and `n - k` are the four cosine and sine sums with opposite signs |
| Dhts.SelfBin | crates/pencil-fft/src/dht.rs:283-313 | Bin zero and the middle bin already are Hartley sums |
| Dhts.RealStaysReal | crates/pencil-fft/src/r2r.rs:183-189 | A real line has a real result |
| Dhts.LengthOne | crates/pencil-fft/src/dht.rs:208-237 | The length-one transform is the identity, so the shortcut is right |
| RootsOfUnity.InverseRestoresBatch | crates/pencil-fft/src/dht.rs:168-176 | For every length, with cosine and sine the parts of the powers of a primitive root of unity, the normalized inverse restores every line of a batch |
| RootsOfUnity.InverseRestoresLine | crates/pencil-fft/src/dht.rs:168-176 | The same for one line |
| RootsOfUnity.WavesAreValid | crates/pencil-fft/src/dht.rs:283-313 | The waves of a primitive root have the cosine-even, sine-odd symmetry that the reconstruction uses |
| RootsOfUnity.WavesAreOrthogonal | crates/pencil-fft/src/dht.rs:168-176 | Their sums of cosine and sine are orthogonal, by vanishing geometric sums |
| RootsOfUnity.TwiceMultipliesByLength | crates/pencil-fft/src/dht.rs:130-132 | The raw transform applied twice multiplies every value by the length |

## Left out

- MPI itself: Alltoallv is a function of all ranks' buffers under the conditions the standard states (section 5.8 of MPI-3.1), reductions are functions of all ranks' words, and point-to-point transfer is a step that moves one posted message (sections 3.5 and 3.7.4 of MPI-3.1). Communicator duplication, aborts, datatypes and unsafe code are not modelled.
- Topology construction: a grid is given, and ranks are numbered row-major over its coordinates (section 7.2 of MPI-3.1). Where a product of counts must stay in range, a contract states what a topology guarantees: at most `2^31 - 1` ranks along an axis (crates/pencil-array/src/topology.rs:70).
- Allocation failures are flags given to the agreement model; buffers elsewhere exist. Word widths other than 64-bit `usize` and 32-bit `Count` are not modelled.
- The comment at crates/pencil-array/src/transpose.rs:956-957 bounds the strides of a walk by the local storage size alone. That argument is not enough when an extent is zero; the proof uses that regions are nonempty and that the product of the positive global extents fits.
- Transposes: the end-to-end lemmas are about the states that packing, exchange and unpacking leave on all ranks. That each step leaves such a state on one rank is the contract of the corresponding method; no single program runs all ranks.
- RemapRoutes.SortUnstableByOwner: the standard library's sort is known by its contract; the body is an insertion, not the library's algorithm.
- Remap: descriptor agreement, datatype checks and buffer reservation of `prepare` are modelled in the agreement part and not repeated in the data part.
- Agreement: programs make the calls in the source's order and carry the words that decide; the payload of a data exchange is modelled in the transpose and remap parts. The agreement of gather, reductions and file operations is not modelled. Where a rank whose own step failed returns its own error and the others the error for a failed peer, the model has one error (`LocalOrPeer`, and `Reservation` for requests).
- Descriptors: a type name is a list of words, its length and bytes as the builder appends them. The 32-bit word descriptors of crates/pencil-array/src/collectives.rs are not modelled.
- Gather: agreement on root and scalar type and the seed message that initializes the root's buffer are not modelled; the root's array starts with any contents.
- Counters over axes that the source keeps in fixed arrays are sequences that the methods reassign, except the gather odometer, which is an array updated in place.
- Timing variants, debug output, accessors and the owned-array wrappers only pass arguments on.
- Floating point: numbers are exact reals. Infinities, NaN flags, rounding and square roots are left out; the norm is stated squared.
- Norms.NormState.Push: the branches for infinite and NaN magnitudes are not modelled, because the values are reals.
- One-dimensional transforms: a complex kernel is any matrix, a real one any function of the line with an outcome. The backend's planning, scratch contents and threads are not modelled. Why a one-dimensional plan cannot be built is not modelled, only that it cannot.
- Trigonometry: a primitive root of unity of order `n` is a parameter; that the real numbers contain one for every `n` is not proved (`RootsOfUnity.FourthRoot` gives one for 4).
- The FFTW backend of the Hartley transform and the other real-to-real transforms are not modelled.
- In-place transposes: a callback is known by the values it leaves, how it ends on its rank, and the status that all ranks agree on afterwards, the greatest of all ranks' statuses (crates/pencil-array/src/point_to_point_transpose.rs:665-682). In a run of one rank that status is given; in a run of all ranks it is the result of the reduction. A panic of MPI or of the packing step between poisoning and unpacking is not modelled.
- Runs of all ranks: every rank makes one call at each step, and a call that a rank makes alone while others wait is paired with refused calls that change nothing. A distributed transpose in such a run packs, delivers and unpacks as the transpose theorem says, with either way to communicate.
- Pointwise: three-input forms and the many-input in-place form repeat the loops of the two-input forms. A callback is a total function with a state; its panics are not modelled. Layout equality is equality of an identity that fixes the spatial length.
- Pair and triple folds of crates/pencil-array/src/collectives.rs visit the same broadcast positions and are not repeated.
- Catalog and file operations are not modelled.

# Verified model of the discrete kernels of the DGtal practical programs

This project models, in Dafny, the integer-valued logic of three programs. The
rest of those programs is rendering or floating-point geometry.

- **Homotopic thinning.** The program builds a 26/6 digital object from a
  binary voxel grid (`makeObjectFromImage`). `oneStep` runs one peeling round:
  - it queues every point that is simple at the start of the round;
  - it pops each queued point and removes it, from the point set and from the
    shared `binary_image`, if it is still simple for the current set;
  - it reports "finished" when nothing was removed.

  The GUI buttons run rounds: once, 10 times, 100 times, or until finished.
  `criticalKernels` chooses the cellular space, the isthmus table and the
  thinning scheme, and then projects the thinned set back onto the grid.
- **Volume filtering.**
  - 6-neighbour gray-scale dilation and erosion.
  - The "Select lungs" step: a closing by `closing_radius` dilations and
    erosions, then masking of the output image.
  - The seeded flood fill `fillSurface`: barrier voxels hold 1 and filled
    voxels hold 255.
  - Strict thresholding.
  - Selection of connected components by size.
- **Slice meshes** (`buildInitialSlice` / `updateSlice`, present in both the
  filtering program and the viewer). The model covers how the vertex, face and
  colour vectors are indexed.

Modules:

- `Lattice` holds the points, the bytes and the image arrays.
- `HomotopicThinning` holds the digital object (a `class` whose point set the
  methods update) and the thinning methods.
- `Morphology` specifies the filters on image *values* (`Volume`, read off an
  array by `Contents`). It proves the in-place methods against that
  specification, and proves the order-theoretic facts about the specification:
  - dilation is extensive and erosion anti-extensive;
  - both are monotone;
  - dilation and erosion form an adjunction;
  - hence the closing is extensive.
- `FloodFill` holds the seeding and the breadth-first flood on an `array3`. A
  ghost record of the pushed voxels, and of the voxel each one was reached
  from, carries the proof that the flood spreads only between 6-neighbours.
- `SurfaceExtraction` holds the thresholding, the sort by decreasing size, and
  the filtering and labelling of components.
- `SliceMesh` holds the slice index arithmetic, with the row-major `Grid` of a
  cell function as its specification.

Images are `array3` values indexed from 0: voxel `a[x, y, z]` stands for the
domain point `lo + (x, y, z)`. Slice vertices have real coordinates ending in
`.5` along the slice axis, so they are stored doubled (`2 * pos + 1`, `2 * x`,
`2 * y`).

The scheme choice follows the code. `persistence == 0` selects DGtal's
asymmetric thinning scheme, and any other value selects the persistence
scheme with that persistence. `oneStep` is never selected by this choice.

Two notes on the face and colour indexing:

- **Face indices.** The face loop computes `t[i] * y + x` from absolute
  coordinates, while the vertex loop stores corner `(x, y)` at slot
  `t[i] * (y - lo[j]) + (x - lo[i])`. The face indices therefore name the right
  vertices exactly when the in-plane lower bounds are 0, which holds for the
  images these programs load. `FaceCornersAreShiftedVertexSlots` states the
  general offset and `FacesAreQuadsAtOrigin` the case `lo = 0`.
- **Mask evaluation order.** The mask assignment of "Select lungs" reads the
  output voxel before it advances the iterator, since C++17 evaluates the
  right operand of `=` first. The model therefore keeps the voxel's own value.

## Model

| member | source | states |
|---|---|---|
| `Lattice.ArrayDomain` | practical-homotopic-thinning/homotopic-thinning.cpp:131 | the domain box of a stored image contains exactly its voxels |
| `Lattice.CopyImage` | practical-homotopic-thinning/homotopic-thinning.cpp:202 | the image copy constructor: a fresh array of the same shape holding the same values |
| `HomotopicThinning.DigitalObject.constructor` | practical-homotopic-thinning/homotopic-thinning.cpp:56-57 | the object holds the given voxel set and the given simplicity table |
| `HomotopicThinning.CollectForeground` | practical-homotopic-thinning/homotopic-thinning.cpp:51-54 | `voxel_set` holds exactly the points of the domain of `image` at which the global `binary_image` is true |
| `HomotopicThinning.MakeObjectFromImage` | practical-homotopic-thinning/homotopic-thinning.cpp:47-59 | the object's set is that foreground and its oracle the table; built from `binary_image` itself, grid and set agree |
| `HomotopicThinning.PeelShrinks` | practical-homotopic-thinning/homotopic-thinning.cpp:102-112 | popping a queue only shrinks the set, and only queued points disappear |
| `HomotopicThinning.PoppedIsMember` | practical-homotopic-thinning/homotopic-thinning.cpp:102-106 | with a queue of distinct members, each point is still a member when it is popped |
| `HomotopicThinning.PeelCountIsShrinkage` | practical-homotopic-thinning/homotopic-thinning.cpp:101-112 | `nb_simple` equals the old size minus the new size |
| `HomotopicThinning.PeelCountGrows` | practical-homotopic-thinning/homotopic-thinning.cpp:101-112 | the removal count over a prefix of the queue is at most the count over the whole queue |
| `HomotopicThinning.NoCountNoChange` | practical-homotopic-thinning/homotopic-thinning.cpp:101-117 | a round that counted no removal left the set as it was |
| `HomotopicThinning.FinishedIffNoSimplePoint` | practical-homotopic-thinning/homotopic-thinning.cpp:96-117 | when the queue holds exactly the simple members, no removal happens if and only if no member is simple, and then the set is unchanged |
| `HomotopicThinning.QueueSimplePoints` | practical-homotopic-thinning/homotopic-thinning.cpp:97-100 | the queue holds each member that is simple for the set at the start of the round, exactly once |
| `HomotopicThinning.DrainQueue` | practical-homotopic-thinning/homotopic-thinning.cpp:101-112 | the new set is the queue peeled against the current set, `nb_simple` is the number of removals, and the grid loses exactly the removed points |
| `HomotopicThinning.OneStep` | practical-homotopic-thinning/homotopic-thinning.cpp:94-118 | the queue holds each member simple at the start exactly once; the new set is the queue peeled against the current set; the count `nb_simple` equals the removals counted along the queue and the old size minus the new size; "finished" holds iff the count is 0 iff no member was simple iff the queue is empty iff the set is unchanged; the grid loses exactly the removed points, so it stays consistent with the set |
| `HomotopicThinning.ValidRoundsExtend` | practical-homotopic-thinning/homotopic-thinning.cpp:206-235 | appending a round whose queue holds the simple members of the current set keeps the round history valid, and the new set is that round's peel of the old one |
| `HomotopicThinning.RunSteps` | practical-homotopic-thinning/homotopic-thinning.cpp:206-224 | exactly `count` rounds run, each peeling the simple members of the set the previous round left; the set shrinks strictly when it had a simple point and `count > 0`; exactly the removed voxels are cleared and grid and set stay consistent |
| `HomotopicThinning.RunUntilFinished` | practical-homotopic-thinning/homotopic-thinning.cpp:225-235 | rounds run, each peeling the simple members of the set the previous round left, until one finds no simple point (its queue is empty); the loop terminates, because every round that is not finished removes a point; at the end no member is simple, and consistency is kept |
| `HomotopicThinning.Reset` | practical-homotopic-thinning/homotopic-thinning.cpp:200-205 | `binary_image` becomes a copy of the original, and the rebuilt object agrees with it and uses the given simplicity table |
| `HomotopicThinning.CellularSpaceIsOneVoxelHalo` | practical-homotopic-thinning/homotopic-thinning.cpp:129-131 | the cellular space holds exactly the domain voxels and their 26-neighbours |
| `HomotopicThinning.CriticalKernelSetup` | practical-homotopic-thinning/homotopic-thinning.cpp:129-181 | the space is the domain enlarged by one voxel; the one-isthmus table is chosen iff `OneIsthmus`; the asymmetric scheme is chosen iff `persistence == 0`, and otherwise the persistence scheme with that persistence |
| `HomotopicThinning.CriticalKernels` | practical-homotopic-thinning/homotopic-thinning.cpp:120-195 | exactly the points of the set missing from the thinned set are cleared in the grid; all other voxels keep their value; the point set is unchanged; a consistent grid ends as set ∩ thinned set |
| `Morphology.Filter` | practical-filtering/vol-filter.cpp:271-280 | the filtered volume has the same domain, and every voxel holds the running extremum of the neighbour loop at that voxel |
| `Morphology.NeighbourhoodUpToGrows` | practical-filtering/vol-filter.cpp:274-278 | the running value only moves up (max) or down (min) from axis to axis |
| `Morphology.NeighbourhoodUpToAttained` | practical-filtering/vol-filter.cpp:274-278 | the running value is the value of the voxel itself or of an in-domain 6-neighbour |
| `Morphology.AxisStep` | practical-filtering/vol-filter.cpp:276-277 | one axis either keeps the running value or takes the value of a visited in-domain neighbour |
| `Morphology.AxisVisitsNeighbour` | practical-filtering/vol-filter.cpp:276-277 | after axis `i`, the running value dominates both in-domain neighbours along `i` |
| `Morphology.FilterAtDominates` | practical-filtering/vol-filter.cpp:271-280 | the new value dominates the voxel and each of its in-domain 6-neighbours |
| `Morphology.FilterAtAttained` | practical-filtering/vol-filter.cpp:271-280 | the new value is the value of one of them, so it is their maximum (minimum) |
| `Morphology.DilationExtensiveErosionAntiExtensive` | practical-filtering/vol-filter.cpp:260-306 | dilation never lowers a voxel and erosion never raises one |
| `Morphology.FilterMonotone` | practical-filtering/vol-filter.cpp:260-306 | both filters preserve the pointwise order of images |
| `Morphology.Adjunction` | practical-filtering/vol-filter.cpp:260-306 | if `Dilate(f) <= g` then `f <= Erode(g)` |
| `Morphology.IterateFirst` | practical-filtering/vol-filter.cpp:354-357 | filtering once and then `k` times is filtering `k + 1` times |
| `Morphology.IteratedAdjunction` | practical-filtering/vol-filter.cpp:354-357 | if `f` dilated `k` times lies below `g`, then `f` lies below `g` eroded `k` times |
| `Morphology.ClosingExtensive` | practical-filtering/vol-filter.cpp:354-357 | `closing_radius` dilations followed by as many erosions never lower a voxel |
| `Morphology.NeighbourhoodValue` | practical-filtering/vol-filter.cpp:273-278 | the neighbour loop at `p` computes the specified filtered value at `p` |
| `Morphology.FilterLine` | practical-filtering/vol-filter.cpp:271-280 | one line of the domain loop writes the filtered values of that line and nothing else |
| `Morphology.FilterPlane` | practical-filtering/vol-filter.cpp:271-280 | one plane of the domain loop writes the filtered values of that plane and nothing else |
| `Morphology.FilterImage` | practical-filtering/vol-filter.cpp:263-281 | the cloned output holds exactly the filtered input, with all reads taken from the unmodified input |
| `Morphology.MakeDilation` | practical-filtering/vol-filter.cpp:260-282 | a fresh image of the same domain holding the dilation of the input |
| `Morphology.MakeErosion` | practical-filtering/vol-filter.cpp:284-306 | a fresh image of the same domain holding the erosion of the input |
| `Morphology.RepeatFilter` | practical-filtering/vol-filter.cpp:354-357 | `k` successive filterings, with the input itself returned when `k <= 0` |
| `Morphology.CloseImage` | practical-filtering/vol-filter.cpp:354-357 | the result is the closing of the lung image by `closing_radius` |
| `Morphology.MaskImage` | practical-filtering/vol-filter.cpp:359-362 | each output voxel keeps its value where the mask exceeds 128 and becomes 0 elsewhere |
| `Morphology.SelectLungs` | practical-filtering/vol-filter.cpp:352-364 | the new lung image is the closing of the old one, and the output is masked by it; no output voxel inside the filled lungs (old value > 128) is cleared |
| `FloodFill.Interiors` | practical-filtering/vol-filter.cpp:146-153 | the queue after seeding holds the interior voxels in seed order |
| `FloodFill.SeedValue` | practical-filtering/vol-filter.cpp:146-156 | after seeding, every voxel holds 0, 1 or 255, and a 255 voxel is queued |
| `FloodFill.SeedValueZeroIffUnwritten` | practical-filtering/vol-filter.cpp:143-156 | a voxel stays 0 after seeding if and only if no seed writes it |
| `FloodFill.SeedValueIsLastWrite` | practical-filtering/vol-filter.cpp:146-156 | the last seed to write a voxel decides its value: 255 for its interior voxel, 1 for its exterior voxel only |
| `FloodFill.PlantSeed` | practical-filtering/vol-filter.cpp:148-155 | one seed writes 1 at the exterior voxel, then 255 at the interior voxel, and nothing else |
| `FloodFill.PlantSeeds` | practical-filtering/vol-filter.cpp:140-156 | a fresh image over the domain holding the seed values, and the queue of interior voxels |
| `FloodFill.PaintIfZero` | practical-filtering/vol-filter.cpp:167-171 | a voxel is painted 255 exactly when it held 0; nothing else changes |
| `FloodFill.VisitAxis` | practical-filtering/vol-filter.cpp:166-177 | both in-domain neighbours along the axis end nonzero; the pushed voxels are distinct, in the domain, held 0 before, are `p - dv[i]` or `p + dv[i]`, and are exactly the ones turned to 255 |
| `FloodFill.Visit` | practical-filtering/vol-filter.cpp:164-178 | every in-domain 6-neighbour of the popped voxel ends nonzero; only 0 voxels that are 6-neighbours of the popped voxel are pushed, each once, and they become 255 |
| `FloodFill.ReachedExtend` | practical-filtering/vol-filter.cpp:159-179 | pushing 6-neighbours of a voxel that was queued initially or pushed keeps every push a 6-neighbour of an earlier queued voxel |
| `FloodFill.FloodStep` | practical-filtering/vol-filter.cpp:159-179 | one pop removes the front voxel and appends the voxels it painted, all 6-neighbours of it, to the queue and to the pushes; it keeps the flood invariant, and either lowers the number of zero voxels or shortens the queue |
| `FloodFill.Flood` | practical-filtering/vol-filter.cpp:157-179 | the flood terminates; it changes only 0 voxels, to 255, pushing each at most once, and each push is a 6-neighbour of an initially queued voxel or of an earlier push; afterwards no 255 voxel and no seed voxel has an in-domain 6-neighbour holding 0 |
| `FloodFill.SealedRegionNotReached` | practical-filtering/vol-filter.cpp:157-179 | a region holding no initially queued voxel, whose in-domain outer border holds no queued or pushed voxel, contains no pushed voxel |
| `FloodFill.FillSurface` | practical-filtering/vol-filter.cpp:136-181 | every value is 0, 1 or 255; each voxel holds its seed value, or was 0 after seeding and is now 255; the pushed voxels are exactly the latter, each once, each a 6-neighbour of an interior seed voxel or of an earlier push; no 255 voxel has a 0 neighbour in the domain; a region separated from every interior seed voxel by voxels nonzero after seeding keeps its seeded values, so its 0 voxels stay 0 |
| `SurfaceExtraction.Threshold` | practical-filtering/vol-filter.cpp:203-207 | `binary(p)` holds iff `image(p) > t`, strictly, over the same domain (the viewer's copy at volViewer.cpp lines 130-134 is the same map) |
| `SurfaceExtraction.InsertBySize` | practical-filtering/vol-filter.cpp:211-213 | inserting into a list sorted by decreasing size keeps it sorted and adds exactly that component |
| `SurfaceExtraction.SortBySize` | practical-filtering/vol-filter.cpp:211-213 | the sort yields a permutation of the components with sizes in decreasing order |
| `SurfaceExtraction.LabelsMatchSurfels` | practical-filtering/vol-filter.cpp:215-228 | one label per surfel; labels are in `0..n-1` and non-decreasing; each surfel belongs to the component its label names |
| `SurfaceExtraction.FilterComponents` | practical-filtering/vol-filter.cpp:215-229 | the loop stops at the first component smaller than `minimum_size`; the surfels and labels are those of the kept prefix |
| `SurfaceExtraction.KeptIffLargeEnough` | practical-filtering/vol-filter.cpp:218-220 | on sorted components, component `k` is kept iff its size reaches the minimum |
| `SurfaceExtraction.KeptAreTheLargeComponents` | practical-filtering/vol-filter.cpp:211-229 | a component is kept iff its size reaches the minimum; the kept ones are a sorted sub-multiset; the first kept one is a largest component |
| `SurfaceExtraction.SelectComponents` | practical-filtering/vol-filter.cpp:210-257 | kept components, surfels, labels and the main surface as above; the main surface is a largest component |
| `SurfaceExtraction.ExtractDigitalSurface` | practical-filtering/vol-filter.cpp:199-258 | the strict threshold of the image, and the component selection |
| `SliceMesh.InPlaneAxes` | volViewer.cpp:60-61 | `i < j`, and `i`, `j` and `axis` are a permutation of `{0, 1, 2}` |
| `SliceMesh.Place` | volViewer.cpp:64-70 | the placed point has the given coordinates along `axis`, `i` and `j` |
| `SliceMesh.SliceCounts` | volViewer.cpp:52-58 | since `s[axis] == 1`, `nb_faces == s[i] * s[j]` and `nb_vertices == 2 * t[i] * t[j]` |
| `SliceMesh.SliceVertexList` | volViewer.cpp:58-59 | the vertex vector (grid corners, then zero vertices) has `nb_vertices` entries |
| `SliceMesh.StoreCorners` | volViewer.cpp:62-73 | the vertex loop writes the grid corners row by row (`j` outer, `i` inner) at the front, and the remaining slots keep their zero value |
| `SliceMesh.SliceVertices` | volViewer.cpp:52-73 | the vertex vector is the `t[i] x t[j]` grid corners of the slice, row by row, followed by zero vertices up to `nb_vertices` |
| `SliceMesh.VertexAtSlot` | volViewer.cpp:65-73 | corner `(x, y)` lies at slot `t[i] * (y - lo[j]) + (x - lo[i])`, which is below `t[i] * t[j] <= nb_vertices` |
| `SliceMesh.FaceCornersAreShiftedVertexSlots` | volViewer.cpp:76-83 | the four face indices are the vertex slots of the face's corners, counter-clockwise, shifted by `t[i] * lo[j] + lo[i]` |
| `SliceMesh.FacesAreQuadsAtOrigin` | volViewer.cpp:76-83 | with in-plane lower bounds 0, every face index is below `nb_vertices` and names the vertices at `(x, y)`, `(x + 1, y)`, `(x + 1, y + 1)` and `(x, y + 1)` |
| `SliceMesh.StoreFaces` | volViewer.cpp:74-83 | the face loop fills all `nb_faces` slots, one per cell, row by row |
| `SliceMesh.SliceFaces` | volViewer.cpp:52-83 | `nb_faces` faces: the faces of the `s[i] x s[j]` cells, row by row |
| `SliceMesh.BuildInitialSlice` | practical-filtering/vol-filter.cpp:59-95 | the vertices of the slice at `lo[axis]`, and its faces, one per cell in row order (the viewer's copy is volViewer.cpp lines 49-85) |
| `SliceMesh.SliceVoxelInDomain` | volViewer.cpp:92-96 | every voxel of the slice at `pos` lies in the image domain |
| `SliceMesh.SliceVoxelsInDomain` | volViewer.cpp:92-119 | the slice domain has exactly `nb_faces` voxels, all in the image domain |
| `SliceMesh.FaceColoredByItsVoxel` | volViewer.cpp:76-119 | face `k` and colour `k` belong to the same cell `(x, y)` |
| `SliceMesh.StoreColors` | volViewer.cpp:115-119 | the colour loop fills every slot once, with the image value of the slice voxel at that rank |
| `SliceMesh.UpdateSlice` | practical-filtering/vol-filter.cpp:97-134 | the vertices of the slice at `pos`, and one colour per face: the image value of its voxel (the viewer's copy is volViewer.cpp lines 87-124) |

## Left out

- The simple-point table (`tableSimple26_6`) is not modelled. Simplicity is a deterministic oracle `isSimple(S, p)`, given to the object as a function value.
- DGtal's voxel complex and thinning schemes (`construct`, `asymetricThinningScheme`, `persistenceAsymetricThinningScheme`) are foreign code, and so are the isthmus tables, `skelWithTable`, `selectMaxValue` and the L3 distance transformation. Thinning is a parameter `thinning`, applied to the chosen setup and the point set. Only the dispatch and the final projection are modelled.
- The traversal order of the `DigitalSet` in `oneStep` is left open. The model picks members in an unspecified order, and the ghost `queue` records that order.
- PlantSeeds, FillSurface: require `SeedsInside`, that both voxels of every seed lie in the domain `[lo, up]`. `fillSurface` never checks this (vol-filter.cpp lines 146-155). The Khalimsky space is built closed (`"closed", 1` at vol-filter.cpp line 417, `getKSpace` at line 421), so a boundary surfel on the border of the domain has an incident voxel outside it; the write of 1 or 255 to such a voxel, and the flood's later reads and writes around it, are not modelled.
- Khalimsky-space surfel operations in `fillSurface` (`sOrthDir`, `sDirectIncident`, `sIndirectIncident`, `sCoords`) are not modelled. A seed is given as the pair of voxels its surfel separates.
- The connected surfaces are an input of `ExtractDigitalSurface`. Computing them from the binary image (`makeLightDigitalSurfaces`) is library code.
- Surfels are opaque values (coordinates and sign). `getSurfelRange` is taken to give the component's own sequence.
- SortBySize: `std::sort` leaves the order of components of equal size open. The model fixes one order (an insertion sort) and proves only what the comparator guarantees: sorted by decreasing size and a permutation.
- SelectComponents: requires that some component reaches `minimum_size`. Otherwise the source reads `vec_surfs[0]` of an empty vector, a crash rather than a result.
- The comparison `surf->size() < minimum_size` converts `minimum_size` to `size_t`, modelled as `minimum_size mod 2^64`. The 32-bit counter `n` and the `int` labels in `V` are unbounded integers: they cannot overflow for fewer than 2^31 components.
- `nb_faces`, `nb_vertices` and the slice indices are unbounded integers, without the 32-bit `int` overflow a huge domain would cause.
- StoreFaces, SliceFaces, BuildInitialSlice: require in-plane lower bounds `>= 0`. A negative lower bound makes the face loop's `size_t` counter start from a wrapped value, and the bound it is compared with is converted to `size_t` too. When the matching upper bound is `>= 0`, the loop writes nothing. When the upper bound is negative as well, wrapped values are compared, so the loop runs and writes faces whose indices are wrapped values; with an upper bound of `-1` it never ends. None of these cases is modelled.
- Slice vertex coordinates are doubled integers, not the source's `double` values.
- Mesh registration and update (`registerSurfaceMesh`, `updateVertexPositions`, `addFaceScalarQuantity`) are not modelled, and neither is surface and isosurface extraction for display (`registerDigitalSurface`, `extractIsosurface`, the mesh assembly of `extractDigitalSurface`). The same goes for polyscope, ImGui, screenshots, VOL input/output, command-line parsing, `trace`/`cout` logging (including the progress print of the flood) and `std::chrono` timing.
- The colour vector of `updateSlice` is `double`. It holds image bytes, modelled as `Byte`.
- `CountedPtr` sharing between `gray_scale_image`, `lung_image` and `output_image` is not modelled. Images are separate arrays, and "Select lungs" requires the lung image and the output image to be distinct. The in-place writes through a shared pointer (the "Dilation" and "Erosion" buttons) are outside the model.
- The GUI state (`current_image`, the sliders, the image choice) is not modelled. The operations take their images and parameters as arguments.
- The practical-3D-estimation and utils programs are floating-point estimation over libraries and are not part of this model.

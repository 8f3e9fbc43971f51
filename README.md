# Wall (inset) computation of a slicer, modelled in Dafny

This project models `WallsComputation` of the CuraEngine slicer. For one layer
it decides:

- how many concentric walls (insets) each slice part gets;
- which polygons and which offset distance each inset is computed from;
- what the part's print outline (the outline that bounds its infill) becomes;
- which parts are removed from the layer because they produced no wall.

The polygon geometry is not modelled. Offsetting, simplification,
degenerate-vertex removal and the wavy-wall halftoner are arbitrary total
functions carried by the `Geometry.Kernel` and `Geometry.Halftoner` values.
Every property below therefore holds whatever those functions compute.

Files:

- `geometry.dfy` (module `Geometry`): the `Polygons` value and its emptiness
  test (`size() < 1`), the join styles, and the kernel and halftoner as
  function values.
- `cint.dfy` (module `CInt`): C++ integer semantics the code relies on.
  `Half` is `int / 2`, truncating toward zero. `Inc` and `Dec` are
  `unsigned int` increment and decrement, which wrap modulo 2^32.
- `slice_data.dfy` (module `SliceData`): `SliceLayerPart` and `SliceLayer`
  as classes whose fields are updated in place. It also holds `Filter`,
  `SwapRemove` (the vector's move-last-into-the-hole-then-pop), and the
  `Compacting` invariant of the removal loop with its step lemmas.
- `walls_computation.dfy` (module `Walls`): the class `WallsComputation`.
  `GeneratePartInsets` and `GenerateLayerInsets` model the two
  `generateInsets` overloads; `AppendInset`, `GenerateEveryPart`,
  `SwapRemovePart` and `RemovePartsWithoutInsets` are their steps. The
  functions beside them specify what those methods produce.

The per-part method is proved against `InsetsFor` and `PrintOutline`:

- `InsetChain(outline, k)` is what `k` rounds of the loop keep.
- `IsInsetSequence` describes that result independently. It says each kept
  inset is the candidate computed from the one before it, no kept inset is
  empty, and a shorter-than-requested list ends because the next candidate
  was empty.
- `InsetChainIsInsetSequence` and `InsetSequenceUnique` connect the two.

When `remove_parts_with_no_insets` is set, the layer method is proved to keep
exactly the parts that have insets, each as often as it occurred, in an order
it does not preserve. Otherwise the vector and its order are unchanged.

Two points of C++ semantics are modelled explicitly:

- `-line_width_0 / 2` negates first and then divides with truncation. It is
  written `Half(-lineWidth0)`.
- The removal loop's `part_idx -= 1` wraps an `unsigned int` from 0 to
  `UINT_MAX`, and the loop's `++` wraps it back to 0. The loop runs
  `partIdx := Inc(Dec(partIdx))` on a 32-bit subset type.

The inward offset distances at src/WallsComputation.cpp:41 and :48 add up
to `2 * (w0 / 2) + wx / 2` for the second wall (inset 1), and `wall_0_inset`
cancels out of that sum (`DepthOfWalls`).

## Model

| member | source | states |
|---|---|---|
| `CInt.Half` | src/WallsComputation.cpp:41 | C++ `a / 2` truncates toward zero: the remainder `a - 2q` lies in [0, 1] for non-negative `a` and in [-1, 0] for negative `a` |
| `CInt.HalfOfNegation` | src/WallsComputation.cpp:48 | `-w / 2` (negate, then divide) equals `-(w / 2)` under truncating division |
| `CInt.Inc` | src/WallsComputation.cpp:91 | `part_idx++` on an `unsigned int` is `(x + 1) mod 2^32`, so `UINT_MAX` wraps to 0 |
| `CInt.Dec` | src/WallsComputation.cpp:100 | `part_idx -= 1` on an `unsigned int` is `(x - 1) mod 2^32`, so 0 wraps to `UINT_MAX` |
| `CInt.IncAfterDec` | src/WallsComputation.cpp:91-100 | decrementing the index (wrapping 0 to `UINT_MAX`) and then incrementing it returns to the same slot, so the slot just filled is checked again |
| `Walls.WallsComputation.InsetDistance` | src/WallsComputation.cpp:41-51 | the signed distance of round 0 is minus (half the outer width plus `wall_0_inset`); of round 1, minus (half the outer width minus `wall_0_inset` plus half the inner width); of every later round, minus the inner width; halves truncate as in C++ |
| `Walls.WallsComputation.PrintOutline` | src/WallsComputation.cpp:29-67 | with no wall requested, or with recomputation off, the print outline is the part's outline; with a negative count the loop never runs and it keeps its previous value (the recomputed case is `PrintOutlineFromOuterWall`) |
| `Walls.WallsComputation.InsetChain` | src/WallsComputation.cpp:36-73 | `k` rounds of generation keep at most `k` insets |
| `Walls.WallsComputation.InsetChainIsInsetSequence` | src/WallsComputation.cpp:36-73 | the insets kept after `k` rounds are derived one from the previous, are all non-empty, and number fewer than `k` only when the next candidate was empty |
| `Walls.WallsComputation.DerivedAt` | src/WallsComputation.cpp:39-56 | in a derived inset list, inset `i` is the candidate built from the insets before it, and it is non-empty |
| `Walls.WallsComputation.DerivedSnoc` | src/WallsComputation.cpp:38-72 | proof step (the definition of `Derived` read backwards): appending the next candidate, when it is not empty, to a derived inset list keeps it derived |
| `Walls.WallsComputation.InsetsFor` | src/WallsComputation.cpp:29-36 | with `insetCount == 0` the one inset is the outline itself; with a negative count there is none; otherwise there are at most `insetCount` |
| `Walls.WallsComputation.DerivedAgree` | src/WallsComputation.cpp:39-56 | two derived inset lists agree on their common prefix |
| `Walls.WallsComputation.InsetSequenceUnique` | src/WallsComputation.cpp:36-73 | only one inset list satisfies the description of what the loop keeps |
| `Walls.WallsComputation.InsetChainPrefix` | src/WallsComputation.cpp:36-73 | asking for more walls never changes the walls already kept: fewer rounds give a prefix |
| `Walls.WallsComputation.InsetChainStep` | src/WallsComputation.cpp:38-72 | proof step (the definition of `InsetChain` at `k + 1`): one more round appends the next candidate, unless it is empty, in which case nothing is appended |
| `Walls.WallsComputation.InsetChainStops` | src/WallsComputation.cpp:68-72 | once a candidate is empty, further rounds add nothing: no later index is computed |
| `Walls.WallsComputation.InsetProvenance` | src/WallsComputation.cpp:39-56 | each kept inset `i` is `Candidate(i, ·)` of the outline (for `i == 0`) or of inset `i-1`, and unfolds as follows: inset 0 is the outline offset by `-w0/2 - wall_0_inset`, halftoned for layer `layer_nr` exactly when wavy walls are on; inset 1 is inset 0 offset by `-w0/2 + wall_0_inset - wx/2`; inset `i >= 2` is inset `i-1` offset by `-wx`; each is then simplified and stripped of degenerate vertices |
| `Walls.WallsComputation.RetainedInsetsNonEmpty` | src/WallsComputation.cpp:68-72 | every kept inset is non-empty, and a list shorter than `insetCount` ends because the next candidate was empty |
| `Walls.WallsComputation.PrintOutlineFromOuterWall` | src/WallsComputation.cpp:57-62 | with recomputation on, the print outline is the outer candidate grown by `w0/2` with square joins; it is set even when that candidate is empty and then discarded, and it depends on the outline only through the outer wall |
| `Walls.WallsComputation.DepthOfWalls` | src/WallsComputation.cpp:41-51 | the inward offset distances of the first round sum to `w0/2 + wall_0_inset`; those of the first `k >= 2` rounds sum to `2*(w0/2) + wx/2 + (k-2)*wx`, so `wall_0_inset` cancels out of the sum from the second round on |
| `Walls.WallsComputation.AppendInset` | src/WallsComputation.cpp:38-56 | one round appends exactly the next candidate, computed from the outline or the previous inset and cleaned up in place |
| `Walls.WallsComputation.GeneratePartInsets` | src/WallsComputation.cpp:27-74 | starting from no insets, the part's insets become `InsetsFor(outline)` and its print outline becomes `PrintOutline(outline, previous)`; only those two fields change, so the outline is never modified |
| `Walls.WallsComputation.GenerateEveryPart` | src/WallsComputation.cpp:84-87 | every part of the layer is generated exactly once; the vector itself is unchanged |
| `Walls.WallsComputation.SwapRemovePart` | src/WallsComputation.cpp:95-99 | moving the last part into slot `i` (unless `i` is last) and popping is `SwapRemove` of the vector |
| `Walls.WallsComputation.RemovePartsWithoutInsets` | src/WallsComputation.cpp:89-102 | without the removal flag the vector is unchanged; with it, the parts left are exactly those with insets, as a multiset equal to the original parts with insets |
| `Walls.WallsComputation.GenerateLayerInsets` | src/WallsComputation.cpp:82-103 | every part gets its insets and print outline and keeps its outline; without removal the vector and its order are unchanged; with removal exactly the parts with at least one inset remain, each once, in unspecified order |
| `SliceData.Filter` | src/WallsComputation.cpp:89-102 | the filtered vector is no longer than the original, and is the original when every element is kept |
| `SliceData.FilterMembers` | src/WallsComputation.cpp:89-102 | an element is in the filtered vector exactly when it is in the original and kept |
| `SliceData.FilterConcat` | src/WallsComputation.cpp:89-102 | filtering distributes over concatenation |
| `SliceData.SwapRemove` | src/WallsComputation.cpp:95-99 | a swap-remove shortens the vector by one, keeps the slots before `i` and after `i`, puts the last element in slot `i`, and removes exactly one copy of element `i` |
| `SliceData.SwapRemoveInPlace` | src/WallsComputation.cpp:95-99 | `SwapRemove` is the vector's own steps: assign the last element to slot `i` when `i` is not last, then pop |
| `SliceData.FilterSwapRemove` | src/WallsComputation.cpp:93-100 | swap-removing an element that is not kept leaves the kept elements unchanged up to order, and adds no new element |
| `SliceData.FilterPopLast` | src/WallsComputation.cpp:99 | popping a last element that is not kept leaves the kept elements unchanged |
| `SliceData.FilterMoveLast` | src/WallsComputation.cpp:95-99 | moving the last element into the slot of an element that is not kept, then popping, leaves the kept elements unchanged up to order |
| `SliceData.FilterDrop` | src/WallsComputation.cpp:93-99 | an element that is not kept disappears from the filtered vector |
| `SliceData.FilterRotate` | src/WallsComputation.cpp:97 | moving an element from the back to the front does not change which elements are kept, up to order |
| `SliceData.SwapRemoveSplit` | src/WallsComputation.cpp:95-99 | proof step (the definition of `SwapRemove`, reassociated): how a swap-remove of a slot other than the last rearranges the vector |
| `SliceData.CompactingStart` | src/WallsComputation.cpp:91 | the removal loop's invariant holds before any slot is checked |
| `SliceData.CompactingSkip` | src/WallsComputation.cpp:91-93 | checking a slot that holds a part with insets keeps the invariant at the next slot |
| `SliceData.CompactingRemove` | src/WallsComputation.cpp:93-100 | removing a part without insets keeps the invariant at the same slot and shortens the vector |
| `SliceData.CompactingDone` | src/WallsComputation.cpp:91-102 | when every slot is checked, what is left is exactly the kept parts of the original, as a multiset |

## Left out

- The polygon geometry (`Polygons::offset`, `simplify`, `removeDegenerateVerts`, the ClipperLib join types) is an external kernel. It is modelled as arbitrary functions. No geometric property is stated: no containment between walls, no exact offset distance, no idempotence of the clean-up.
- The default join type of `Polygons::offset` is defined in `polygon.h`, which is not part of this model. It appears as the abstract `DefaultJoin`.
- `makeHalftoned` is a deterministic function of the layer number and the polygons. The halftoning algorithm is not part of this model.
- The constructor reads `wavy_walls` from the mesh settings, and the halftoner is built from the mesh. Both are plain constructor parameters here.
- The per-layer parallel execution (data-race freedom across layers) is not modelled. One layer is processed at a time.
- Walls.WallsComputation.GeneratePartInsets: requires the part to have no insets on entry, because the code writes `insets[0]`, `insets[1]` and `insets[i]` as if the list started empty.
- Walls.WallsComputation.GenerateLayerInsets: requires distinct part objects, because `std::vector<SliceLayerPart>` holds values and cannot alias. It also requires at most `UINT_MAX` parts, because with more the `unsigned int` index could never reach the size. It also requires that no part has insets yet, as for `GeneratePartInsets`; the same three preconditions apply to `GenerateEveryPart`.
- Walls.WallsComputation.GeneratePartInsets: `insetCount` is a C++ `int`. For a negative count the loop never runs, the insets stay empty and the print outline keeps its previous value. The model does the same.
- Walls.WallsComputation.RemovePartsWithoutInsets: the C++ code does this removal inline in `generateInsets(SliceLayer*)`. Here it is a separate method that the layer method calls after generating every part. The same applies to `GenerateEveryPart` and `AppendInset`.
- C++ `int` width is not modelled. `wall_0_inset`, `line_width_0`, `line_width_x`, `insetCount` and the distance passed to `offset` are unbounded integers here. Signed overflow, which is undefined behaviour in C++, is therefore outside the model. It can occur in `-line_width_0 / 2 - wall_0_inset` (src/WallsComputation.cpp:41), in `... - line_width_x / 2` (src/WallsComputation.cpp:48) and in `-line_width_x` (src/WallsComputation.cpp:51), for example at `INT_MIN`.
- The move in `std::move(layer->parts.back())` is modelled as copying the reference. The moved-from last element is popped straight after, so nothing can observe the difference.

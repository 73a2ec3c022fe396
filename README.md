# Position tracker, FixedMatrix, Range and Point in Dafny

This project models the multi-target position tracker of ICL's blob
library (`PositionTracker<int>`) and three value types it sits beside:
`FixedMatrix<T,COLS,ROWS>` over integers, `Range<Type>` and `Point`.
It proves what each operation guarantees.

**The tracker.** Each call to `pushData` takes one unordered batch of 2D
points and gives every point a persistent id. The tracker keeps:
- a sliding history of three frames per axis;
- one id per tracked slot;
- one freshness count per slot.

A tick predicts each slot's next position from the history and builds a
square cost matrix of predictions against observations. An assignment
solver then returns a permutation, and the batch is stored, re-ordered, as
the newest frame. If the batch has fewer points than there are slots
(shrink), the batch is padded with `BLIND_VALUE = 9999`; the slots matched
to the padding are deleted. If it has more (grow), the history is padded,
new slots are backfilled, and the smallest unused ids are handed out.

The model has two layers:
- `TrackerModel` states one tick as a function of the old state
  (`FirstStep`, `EqualStep`, `ShrinkStep`, `GrowStep`, `Tick`), and its
  lemmas say what each path does.
- `TrackerReadable` proves which history entries a tick can read at all:
  states that agree on them stay indistinguishable through any number of
  later ticks, so the grow path's backfill is never read.
- The class `PositionTrackers.PositionTracker` holds the same fields and
  performs the same loops step by step. Each of its methods is proved to
  reach exactly the state the step function describes.

Two collaborators have no code in this model:
- `Extrapolator<int,int>::predict`, with two and with three samples;
- `HungarianAlgorithm<int>::apply`.

Together with the Euclidean distance, they are parameters of the tracker
(`TrackerPrediction.Collaborators`). The solver's only assumed property is
that it returns a permutation of `0..dim-1` for every square matrix.

**FixedMatrix** is a COLS x ROWS buffer stored row by row; element
`(col, row)` sits at index `col + COLS*row`. The value operations are
functions on `FixedMatrices.Matrix`:
- the element-wise and scalar operators;
- the product, `transp`, `id` and `trace`;
- the translation builders.

The loops the header uses for the product, `transp`, `id` and `trace` are
methods proved equal to those functions. The assigning operators write an
`array` in place in the class `FixedMatrices.FixedMatrix`.

**Range** is a value with inclusive membership. **Point** is a value
datatype, plus the class `PointVar` for the in-place `+=` and `-=`.

Integers are unbounded. Signed overflow is undefined behaviour in C++, so
every run that is defined agrees with the model.

## Model

| member | source | states |
|---|---|---|
| TrackerVectors.RemoveElemsFromVector | ICLBlob/src/PositionTracker.cpp:47-62 | the index-walking loop computes `Removed(v, rows)`; for strictly ascending in-range rows the result has `|v|-|rows|` entries and is `v` picked at the kept indices |
| TrackerVectors.RemovedKeepsOthersInOrder | ICLBlob/src/PositionTracker.cpp:47-62 | for sorted in-range rows: the kept indices are exactly those not in `rows`, strictly ascending, and the result is `v` at those indices in order |
| TrackerVectors.RemovedMultiset | ICLBlob/src/PositionTracker.cpp:47-62 | nothing is lost: the removed entries and the remaining ones together are `v` as a multiset |
| PositionTrackers.PositionTracker.RemoveRowsFromDataMatrix | ICLBlob/src/PositionTracker.cpp:66-89 | all three frames of both axes have the same rows removed; ids, counts and assignment are unchanged |
| TrackerPrediction.Predict | ICLBlob/src/PositionTracker.cpp:118-132 | exactly `dim` predictions; count 1 holds frame 2, count 2 extrapolates frames 1 and 2, any other count uses all three frames |
| TrackerPrediction.PredictionReadsOnlyFreshFrames | ICLBlob/src/PositionTracker.cpp:118-132 | a slot's prediction depends on the older frames only as far as its count allows |
| TrackerPrediction.CreateDistMat | ICLBlob/src/PositionTracker.cpp:100-114 | for equally many predictions and observations: a dim x dim matrix whose entry `[i][j]` is the cost of prediction j against observation i |
| TrackerVectors.GetNNewIds | ICLBlob/src/PositionTracker.cpp:136-137 | the loop returns `NewIds`: n ids, strictly ascending, non-negative, none among the current ids |
| TrackerVectors.NewIdsAreSmallestFree | ICLBlob/src/PositionTracker.cpp:136-137 | every free non-negative value below a returned id is itself returned earlier: the ids are the smallest free ones |
| TrackerVectors.Arrange | ICLBlob/src/PositionTracker.cpp:140-144 | the re-ordering loop builds `Arranged`; for a permutation, slot `a[i]` receives `v[i]` and the frame is a permutation of the batch |
| TrackerVectors.ArrangedIsPermuted | ICLBlob/src/PositionTracker.cpp:140-144 | for a permutation: slot `a[i]` holds `v[i]` and the arranged frame has the batch's multiset |
| PositionTrackers.PositionTracker.PushAndRearrange | ICLBlob/src/PositionTracker.cpp:140-144 | the arranged batch is pushed as the newest frame of both axes and the oldest frame dropped; nothing else changes |
| TrackerModel.PushFrameOfThree | ICLBlob/src/PositionTracker.cpp:144 | with three frames, push_back and pop_front give `[h1, h2, new]` |
| PositionTrackers.PositionTracker.EqualIntern | ICLBlob/src/PositionTracker.cpp:146-153 | the equal-size path reaches exactly `EqualStep` of the old state |
| TrackerModel.EqualStepEffects | ICLBlob/src/PositionTracker.cpp:146-153 | for any permutation: ids unchanged, every count +1, slot count kept, frames shifted, observation i stored in slot `a[i]`, newest frame is the batch as a multiset |
| PositionTrackers.PositionTracker.IncrementGood | ICLBlob/src/PositionTracker.cpp:153 | the `good[i]++` loop adds 1 to every count and changes nothing else |
| PositionTrackers.PadNewData | ICLBlob/src/PositionTracker.cpp:163 | the batch followed by DIFF copies of `BLIND_VALUE` |
| PositionTrackers.DeletedRows | ICLBlob/src/PositionTracker.cpp:163 | the rows `assignment[dim-1-i]`, sorted; for a permutation they are DIFF strictly ascending in-range slots |
| TrackerModel.DelRowsArePaddedMatches | ICLBlob/src/PositionTracker.cpp:157-163 | the deleted rows are DIFF distinct slots, each matched to one of the padded rows |
| TrackerModel.PaddedMatchesAreDeleted | ICLBlob/src/PositionTracker.cpp:157-163 | every slot matched to a padded row is deleted |
| TrackerModel.DeletedSlotsHoldPadding | ICLBlob/src/PositionTracker.cpp:157-163 | in the arranged padded frame the deleted slots hold exactly the `BLIND_VALUE` entries |
| TrackerModel.ShrinkFramesEffects | ICLBlob/src/PositionTracker.cpp:157-163 | the three frames after a shrink: surviving slots of the former frames 1 and 2 in order, and the arranged batch without padding |
| PositionTrackers.PositionTracker.ShrinkIntern | ICLBlob/src/PositionTracker.cpp:156-163 | the shrink path reaches exactly `ShrinkStep` of the old state |
| TrackerModel.ShrinkStepKeepsSurvivors | ICLBlob/src/PositionTracker.cpp:156-163 | for any permutation: the tracker is valid with the batch's length; survivors are the non-deleted slots in their original order, keep their ids and older frames, counts +1 |
| TrackerModel.ShrinkStepStoresBatch | ICLBlob/src/PositionTracker.cpp:156-163 | surviving slot k holds, on both axes, the observation matched to it |
| TrackerModel.ShrinkStepDropsPadding | ICLBlob/src/PositionTracker.cpp:156-163 | the newest frame holds exactly the batch's values: no padding entry survives |
| PositionTrackers.PositionTracker.PadDataMatrix | ICLBlob/src/PositionTracker.cpp:174-180 | every frame of both axes grows by DIFF `BLIND_VALUE` entries |
| PositionTrackers.PositionTracker.GrowMatch | ICLBlob/src/PositionTracker.cpp:174-193 | pads the history, predicts with DIFF temporary counts of 1, restores `good` to its old length and stores the solver's permutation |
| PositionTrackers.NewDataColumns | ICLBlob/src/PositionTracker.cpp:197-203 | the values `newData[assignment[x]]` for the rows x with `assignment[x] >= dim-DIFF`; for a permutation exactly DIFF of them |
| TrackerModel.HitsOfPermutation | ICLBlob/src/PositionTracker.cpp:198-206 | for a permutation exactly `dim-lo` rows are selected, so the warning at line 204 cannot fire |
| PositionTrackers.PositionTracker.Backfill | ICLBlob/src/PositionTracker.cpp:210-217 | slots dim-DIFF.. of all three frames get the selected values; the new ids and DIFF counts of 0 are appended |
| PositionTrackers.PositionTracker.GrowFill | ICLBlob/src/PositionTracker.cpp:197-223 | from the padded state, the rest of the grow path reaches exactly `GrowWith` |
| PositionTrackers.PositionTracker.GrowIntern | ICLBlob/src/PositionTracker.cpp:165-225 | the grow path reaches exactly `GrowStep` of the old state |
| TrackerModel.GrowStepSlots | ICLBlob/src/PositionTracker.cpp:165-225 | for any permutation: the tracker is valid with the batch's length, and DIFF rows are selected |
| TrackerModel.GrowStepIds | ICLBlob/src/PositionTracker.cpp:208-215 | old ids stay in place, the DIFF new ids are appended, and all ids are distinct and non-negative |
| TrackerModel.GrowStepCounts | ICLBlob/src/PositionTracker.cpp:184-221 | old counts +1, new slots' counts are 1 |
| TrackerModel.GrowStepFrames | ICLBlob/src/PositionTracker.cpp:197-223 | the old slots' frames shift down; the newest frame holds observation i in slot `a[i]`, exactly the batch |
| TrackerReadable.AgreeingFramesMatchAlike | ICLBlob/src/PositionTracker.cpp:118-132 | histories that agree on every entry the counts allow a prediction to read, on both axes, give the same matching |
| TrackerReadable.PadFramesAgree | ICLBlob/src/PositionTracker.cpp:175-187 | padding all frames with BLIND_VALUE and counting the new slots as seen once keeps that agreement |
| TrackerReadable.EqualStepAgree | ICLBlob/src/PositionTracker.cpp:146-153 | an equal-size tick on two agreeing states computes the same matching and leaves agreeing states |
| TrackerReadable.ShrinkStepAgree | ICLBlob/src/PositionTracker.cpp:156-163 | the same for a shrinking tick: same matching, same deleted slots, agreeing survivors |
| TrackerReadable.SurvivorsAgree | ICLBlob/src/PositionTracker.cpp:47-62 | keeping the surviving slots of the older frames, shifted down, with counts +1, keeps the agreement |
| TrackerReadable.GrowStepAgree | ICLBlob/src/PositionTracker.cpp:165-225 | the same for a growing tick: same matching, same new ids and backfill, agreeing frames |
| TrackerReadable.TickAgree | ICLBlob/src/PositionTracker.cpp:240-242 | any tick, on any path or for a rejected batch, keeps the agreement and computes the same matching |
| TrackerReadable.TicksAgree | ICLBlob/src/PositionTracker.cpp:240-242 | agreeing states compute the same matching at every one of any number of later ticks and stay agreeing |
| TrackerReadable.IdFromAgree | ICLBlob/src/PositionTracker.cpp:246-248 | getID gives the same answer on agreeing states |
| TrackerReadable.GrowBackfillIsUnread | ICLBlob/src/PositionTracker.cpp:200-216 | whatever replaces the values backfilled into the new slots' frames 0 and 1, on both axes, the state agrees with the real one, so every later tick computes the same matching until those entries are popped |
| PositionTrackers.PositionTracker.FirstStepIntern | ICLBlob/src/PositionTracker.cpp:229-235 | the first batch reaches exactly `FirstStep` |
| TrackerModel.FirstStepEffects | ICLBlob/src/PositionTracker.cpp:229-235 | three identical frames equal to the batch, ids `0..n-1`, every count 1 |
| PositionTrackers.PositionTracker.PushData | ICLBlob/src/PositionTracker.cpp:240-242 | one tick: the state becomes `Tick` of the old state, and the invariant is kept |
| TrackerModel.TickKeepsInvariant | ICLBlob/src/PositionTracker.cpp:240-242 | every tick keeps the invariant (3 frames, parallel lengths, distinct non-negative ids, counts >= 1); an accepted batch gives every array its length; an empty or uneven batch changes nothing |
| PositionTrackers.PositionTracker.PushDataInterleaved | ICLBlob/src/PositionTracker.cpp:95-97 | the interleaved overload is a tick on the de-interleaved coordinates |
| PositionTrackers.Deinterleave | ICLBlob/src/PositionTracker.cpp:95-97 | the loop gives `x[i] = xys[2i]` and `y[i] = xys[2i+1]` |
| PositionTrackers.DeinterleaveRoundTrip | ICLBlob/src/PositionTracker.cpp:95-97 | de-interleaving undoes interleaving, and interleaving the result gives back the first 2n inputs |
| PositionTrackers.PositionTracker.GetID | ICLBlob/src/PositionTracker.cpp:246-248 | the scan returns `IdOf` of the current state |
| TrackerModel.IdFromFindsFirst | ICLBlob/src/PositionTracker.cpp:246-248 | -1 exactly when no slot's newest position is (x, y), otherwise the id of the first such slot |
| TrackerModel.IdOfUniquePosition | ICLBlob/src/PositionTracker.cpp:246-248 | when exactly one slot is at (x, y), its id is returned |
| TrackerModel.EqualStepIdLookup | ICLBlob/src/PositionTracker.cpp:146-153 | after an equal-size tick, a point whose position is unique in the batch is looked up as the id of the slot it was assigned to |
| FixedMatrices.LayoutIsBijective | ICLUtils/src/iclFixedMatrix.h:281-312 | every buffer index belongs to exactly one in-range (col, row), and `operator()` and `operator[]` read the same entry there |
| FixedMatrices.SetAt | ICLUtils/src/iclFixedMatrix.h:281-288 | writing (col, row) sets that element and leaves every other element unchanged |
| FixedMatrices.At | ICLUtils/src/iclFixedMatrix.h:290-299 | `InvalidIndexException` exactly when `col >= COLS` or `row >= ROWS`, otherwise the element `operator()` reads |
| FixedMatrices.FixedMatrix.CheckedRead | ICLUtils/src/iclFixedMatrix.h:290-299 | reading through `at` on the object gives `At` of its value |
| FixedMatrices.FixedMatrix.Read | ICLUtils/src/iclFixedMatrix.h:280-288 | reads element (col, row) of the buffer |
| FixedMatrices.FixedMatrix.Write | ICLUtils/src/iclFixedMatrix.h:280-283 | a write through `operator()` changes the buffer as `SetAt` does |
| FixedMatrices.FixedMatrix.ReadLinear | ICLUtils/src/iclFixedMatrix.h:303-312 | reads entry idx of the buffer |
| FixedMatrices.FixedMatrix.WriteLinear | ICLUtils/src/iclFixedMatrix.h:303-306 | a write through `operator[]` changes exactly entry idx |
| FixedMatrices.Filled | ICLUtils/src/iclFixedMatrix.h:50-53 | all DIM entries hold the given value (null() is the value 0) |
| FixedMatrices.FixedMatrix.constructor | ICLUtils/src/iclFixedMatrix.h:80-82 | a fresh buffer of DIM entries, all equal to the initial value |
| FixedMatrices.FixedMatrix.Fill | ICLUtils/src/iclFixedMatrix.h:160-163 | every entry of the buffer becomes t |
| FixedMatrices.Add | ICLUtils/src/iclFixedMatrix.h:246-250 | element-wise sum |
| FixedMatrices.Sub | ICLUtils/src/iclFixedMatrix.h:259-263 | element-wise difference |
| FixedMatrices.Neg | ICLUtils/src/iclFixedMatrix.h:273-277 | every element negated |
| FixedMatrices.AddScalar | ICLUtils/src/iclFixedMatrix.h:219-223 | the scalar is added to every element |
| FixedMatrices.SubScalar | ICLUtils/src/iclFixedMatrix.h:232-237 | the scalar is subtracted from every element |
| FixedMatrices.Scale | ICLUtils/src/iclFixedMatrix.h:196-200 | every element is multiplied by the scalar |
| FixedMatrices.AddNegIsNull | ICLUtils/src/iclFixedMatrix.h:270-277 | `M + (-M)` is the null matrix |
| FixedMatrices.SubUndoesAdd | ICLUtils/src/iclFixedMatrix.h:246-263 | `(A + B) - B == A` and `(A - B) + B == A` |
| FixedMatrices.ScaleIsLinear | ICLUtils/src/iclFixedMatrix.h:196-250 | scaling by 1 is the identity and scaling distributes over `+` |
| FixedMatrices.SubScalarUndoesAddScalar | ICLUtils/src/iclFixedMatrix.h:219-237 | adding a scalar and then subtracting it gives back the matrix |
| FixedMatrices.FixedMatrix.AddAssign | ICLUtils/src/iclFixedMatrix.h:253-256 | the buffer becomes old this + old m, also when m is this matrix |
| FixedMatrices.FixedMatrix.SubAssign | ICLUtils/src/iclFixedMatrix.h:265-268 | the buffer becomes old this - old m, also when m is this matrix |
| FixedMatrices.FixedMatrix.AddScalarAssign | ICLUtils/src/iclFixedMatrix.h:226-229 | the buffer becomes `AddScalar` of its old value |
| FixedMatrices.FixedMatrix.SubScalarAssign | ICLUtils/src/iclFixedMatrix.h:240-243 | the buffer becomes `SubScalar` of its old value |
| FixedMatrices.FixedMatrix.ScaleAssign | ICLUtils/src/iclFixedMatrix.h:203-206 | the buffer becomes `Scale` of its old value |
| FixedMatrices.Mul | ICLUtils/src/iclFixedMatrix.h:540-555 | a COLS x ROWS matrix times an MCOLS x COLS matrix is MCOLS x ROWS with `d(c,r) = sum over k of A(k,r) * B(c,k)` |
| FixedMatrices.Multiply | ICLUtils/src/iclFixedMatrix.h:540-555 | the nested loops with the inner product compute `Mul` |
| FixedMatrices.MulIdentity | ICLUtils/src/iclFixedMatrix.h:540-555 | the identity is neutral for the product on both sides |
| FixedMatrices.FixedMatrix.MulAssign | ICLUtils/src/iclFixedMatrix.h:645-652 | `v *= m` leaves `m * v` (old values) in v, also when m is v |
| FixedMatrices.Transp | ICLUtils/src/iclFixedMatrix.h:590-597 | a ROWS x COLS matrix with `d(k,i) = this(i,k)` |
| FixedMatrices.Transpose | ICLUtils/src/iclFixedMatrix.h:590-597 | the column-to-row copy loop computes `Transp` |
| FixedMatrices.TransposeTwice | ICLUtils/src/iclFixedMatrix.h:590-597 | transposing twice gives back the matrix |
| FixedMatrices.Identity | ICLUtils/src/iclFixedMatrix.h:619-630 | 1 at (i,i) for `i < min(cols, rows)`, 0 elsewhere |
| FixedMatrices.MakeIdentity | ICLUtils/src/iclFixedMatrix.h:619-630 | the null matrix with the diagonal loop computes `Identity` |
| FixedMatrices.Trace | ICLUtils/src/iclFixedMatrix.h:704-712 | the column vector of the diagonal, `t[i] = m(i,i)`, not a sum |
| FixedMatrices.MakeTrace | ICLUtils/src/iclFixedMatrix.h:704-712 | the loop computes `Trace` |
| FixedMatrices.HomTrans3IsTranslation | ICLUtils/src/iclFixedMatrix.h:676-682 | create_hom_3x3_trans is the identity with (2,0) = dx and (2,1) = dy, a translation by (dx, dy) |
| FixedMatrices.HomTrans3Translates | ICLUtils/src/iclFixedMatrix.h:676-682 | it maps (x, y, 1) to (x+dx, y+dy, 1) |
| FixedMatrices.HomTrans4AsWrittenIsTranslation | ICLUtils/src/iclFixedMatrix.h:695-702 | create_hom_4x4_trans as written is the translation by (dx, dy, dy) |
| FixedMatrices.HomTrans4AsWrittenTranslates | ICLUtils/src/iclFixedMatrix.h:695-702 | as written it maps (x, y, z, 1) to (x+dx, y+dy, z+dy, 1) |
| FixedMatrices.HomTrans4AsWrittenMisplacesZ | ICLUtils/src/iclFixedMatrix.h:695-702 | whenever dy != dz, the as-written and the intended matrices map every point differently |
| FixedMatrices.HomTrans4IsTranslation | ICLUtils/src/iclFixedMatrix.h:695-702 | the corrected matrix is the translation by (dx, dy, dz) |
| FixedMatrices.HomTrans4Translates | ICLUtils/src/iclFixedMatrix.h:695-702 | the corrected matrix maps (x, y, z, 1) to (x+dx, y+dy, z+dz, 1) |
| Ranges.DefaultRange | ICLCore/src/iclRange.h:11-12 | `minVal == maxVal == 0`, so its length is 0 |
| Ranges.DegenerateRangeHoldsOneValue | ICLCore/src/iclRange.h:11-33 | a range with `minVal == maxVal`, the default one included, contains that value and no other |
| Ranges.GetLength | ICLCore/src/iclRange.h:23-24 | the length is `maxVal - minVal`: `minVal + length == maxVal`, and it is non-negative exactly for an ordered range |
| Ranges.In | ICLCore/src/iclRange.h:32-33 | `in(v)` holds exactly when `minVal <= v <= maxVal`, i.e. when `0 <= v - minVal <= getLength()` |
| Ranges.EndsAreInside | ICLCore/src/iclRange.h:32-33 | an ordered range contains both ends; an inverted range contains nothing |
| Ranges.MemberCount | ICLCore/src/iclRange.h:23-33 | an ordered range holds exactly `minVal..maxVal`, `getLength() + 1` values |
| Points.DefaultPoint | ICLUtils/src/iclPoint.h:29-33 | the default point is null, (0, 0) |
| Points.Copy | ICLUtils/src/iclPoint.h:32-33 | the copy constructor yields an equal point |
| Points.Plus | ICLUtils/src/iclPoint.h:50-51 | coordinate-wise sum |
| Points.Minus | ICLUtils/src/iclPoint.h:53-54 | coordinate-wise difference |
| Points.Equals | ICLUtils/src/iclPoint.h:44-45 | `==` holds exactly when both coordinates agree, i.e. when the points are equal values |
| Points.NotEquals | ICLUtils/src/iclPoint.h:47-48 | `!=` holds exactly when `==` does not |
| Points.IsNull | ICLUtils/src/iclPoint.h:41-42 | `isNull()` holds exactly when `x == 0 && y == 0` |
| Points.MinusUndoesPlus | ICLUtils/src/iclPoint.h:50-54 | `(p + q) - q == p` and `(p - q) + q == p` |
| Points.PlusIsAGroup | ICLUtils/src/iclPoint.h:50-54 | `+` is commutative and associative, null is neutral, and `p - p` is null |
| Points.PointVar.constructor | ICLUtils/src/iclPoint.h:38-39 | the point (x, y) |
| Points.PointVar.AddAssign | ICLUtils/src/iclPoint.h:59-60 | the variable becomes old p + old s and the variable itself is returned, also for `p += p` |
| Points.PointVar.SubAssign | ICLUtils/src/iclPoint.h:62-63 | the variable becomes old p - old s and the variable itself is returned, also for `p -= p` |

## Left out

- Extrapolator and HungarianAlgorithm: their headers are not part of this model. They are parameters. Only the solver's permutation property is assumed; the optimality of the matching is not.
- The cost `(int)sqrt(pow(..)+pow(..))` is floating point. It is an arbitrary non-negative function of a prediction and an observation.
- TrackerModel.IdOf, PositionTrackers.PositionTracker.GetID: the source indexes the newest frame without a check, so a fresh tracker is excluded by the precondition. The code is followed here; the documented behaviour of returning -1 on a fresh tracker is not what the code does.
- Output only, and not modelled: the `printf` of the grow-path warning, `show_vec` and `showDataMatrix`; the error logged by `ICLASSERT_RETURN` in `pushData` (PositionTracker.cpp:242) when a batch is empty or uneven, where the model only returns the unchanged state; and the error logged by `ICLASSERT` in `createDistMat` (PositionTracker.cpp:104) on unequal sizes, which the model's precondition rules out and the callers never violate. The lemma `HitsOfPermutation` shows the warning's condition cannot hold.
- The old implementation kept as a comment in PositionTracker.cpp is not modelled.
- 32-bit wrap-around is not modelled for `int` coordinates, ids, counts and matrix entries. Signed overflow is undefined in C++.
- FixedMatrix `inv`, `det` and matrix `/` delegate to DynMatrix, which is not part of this model. `length` and scalar `/` are floating point.
- FixedMatrix pointer-ownership modes (`deepcopy`, `shallowcopy`, `takeownership`), the pointer constructors, the iterator-range constructor and assignment, `col_iterator`/row iterators, `data()` and stream output are not modelled.
- FixedMatrix's converting `operator=` and copy constructor through `clipped_cast` are not modelled. The 16-value initializer constructor is not modelled.
- FixedMatrices.FixedMatrix.MulAssign: `v = (m*v)` uses the compiler-generated assignment, which copies the buffer pointer of the temporary; the model copies the values, so it does not capture pointer sharing or the leaked old buffer.
- Writing through the reference returned by `at` is modelled as `CheckedRead` followed by `Write`; the exception's message is not modelled.
- `Range::castTo` depends on `Cast`, which is not part of this model. `in` is virtual; subclasses that override it are not modelled.
- Point `*`, `*=`, `transform` and `distanceTo` are floating point. The Point32f constructor and the stream operators are not modelled.

## Findings

| source | as written | input that shows it | evidently intended | confidence | as-written member | corrected member |
|---|---|---|---|---|---|---|
| ICLUtils/src/iclFixedMatrix.h:700 | `create_hom_4x4_trans` writes `dy` into (3,2), so `dz` is never used and z is shifted by dy | dx = 0, dy = 1, dz = 0 moves the origin (0,0,0) to (0,1,1) | write `dz` into (3,2), which moves the origin to (0,1,0) | not executed | FixedMatrices.HomTrans4AsWrittenMisplacesZ | FixedMatrices.HomTrans4Translates |

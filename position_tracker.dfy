/** PositionTracker<int> (ICLBlob/src/PositionTracker.cpp) as a class whose
    fields are the tracker's frames, ids, freshness counts and last
    assignment. Every method changes them step by step as the source does and
    is proved to reach the state the tick functions of TrackerModel
    describe. */
module PositionTrackers {
  import opened Sequences
  import opened TrackerVectors
  import opened TrackerPrediction
  import opened TrackerModel

  /** The coordinates of pushData(xys, n): x_i at 2i and y_i at 2i+1. */
  function Deinterleaved(xys: seq<int>, n: nat): (seq<int>, seq<int>)
    requires 2 * n <= |xys|
  {
    (seq(n, i requires 0 <= i < n => xys[2 * i]), seq(n, i requires 0 <= i < n => xys[2 * i + 1]))
  }

  /** The buffer layout pushData(xys, n) expects: x and y alternating. */
  function Interleaved(xs: seq<int>, ys: seq<int>): (r: seq<int>)
    requires |xs| == |ys|
    ensures |r| == 2 * |xs|
  {
    seq(2 * |xs|, k requires 0 <= k < 2 * |xs| => if k % 2 == 0 then xs[k / 2] else ys[k / 2])
  }

  /** Splitting an interleaved buffer recovers the two coordinate lists, and
      interleaving them again gives back the first 2n entries of the buffer. */
  lemma DeinterleaveRoundTrip(xs: seq<int>, ys: seq<int>, xys: seq<int>, n: nat)
    requires |xs| == |ys| && 2 * n <= |xys|
    ensures Deinterleaved(Interleaved(xs, ys), |xs|) == (xs, ys)
    ensures Interleaved(Deinterleaved(xys, n).0, Deinterleaved(xys, n).1) == xys[..2 * n]
  {
    var b := Interleaved(xs, ys);
    var r := Deinterleaved(b, |xs|);
    forall i | 0 <= i < |xs| ensures r.0[i] == xs[i] && r.1[i] == ys[i] {
      assert (2 * i) % 2 == 0 && (2 * i) / 2 == i;
      assert (2 * i + 1) % 2 == 1 && (2 * i + 1) / 2 == i;
    }
    assert r.0 == xs && r.1 == ys;
    var d := Deinterleaved(xys, n);
    var c := Interleaved(d.0, d.1);
    forall k | 0 <= k < 2 * n ensures c[k] == xys[k] {
      if k % 2 == 0 {
        assert 2 * (k / 2) == k;
      } else {
        assert 2 * (k / 2) + 1 == k;
      }
    }
  }

  /** The copying loop of pushData(xys, n). */
  method Deinterleave(xys: seq<int>, n: nat) returns (xs: seq<int>, ys: seq<int>)
    requires 2 * n <= |xys|
    ensures (xs, ys) == Deinterleaved(xys, n)
  {
    xs, ys := Repeat(0, n), Repeat(0, n);
    for i := 0 to n
      invariant |xs| == n && |ys| == n
      invariant forall k :: 0 <= k < i ==> xs[k] == xys[2 * k] && ys[k] == xys[2 * k + 1]
    {
      xs := xs[i := xys[2 * i]];
      ys := ys[i := xys[2 * i + 1]];
    }
    assert xs == Deinterleaved(xys, n).0 && ys == Deinterleaved(xys, n).1;
  }

  /** The matching step shared by the three non-first paths: predict both
      axes, build the distance matrix and run the solver. */
  method Match(dim: nat, hX: seq<seq<int>>, hY: seq<seq<int>>, good: seq<int>,
               obsX: seq<int>, obsY: seq<int>, c: Collaborators) returns (a: seq<int>)
    requires Frames(hX, dim) && Frames(hY, dim) && |good| >= dim
    requires |obsX| == dim && |obsY| == dim
    ensures a == Assignment(dim, hX, hY, good, obsX, obsY, c)
    ensures IsPermutation(a, dim)
  {
    var predX := Predict(dim, hX, good, c.ex);
    var predY := Predict(dim, hY, good, c.ex);
    var m := CreateDistMat(predX, predY, obsX, obsY, c.dist);
    a := c.solve(m);
  }

  /** The loop of push_data_intern_diff_ltz collecting
      `newData[assignment[x]]` for every row x matched to a slot at or above
      `dim - diff`. */
  method NewDataColumns(dim: nat, diff: nat, a: seq<int>, xs: seq<int>, ys: seq<int>)
    returns (colsX: seq<int>, colsY: seq<int>)
    requires IndexMap(a, dim) && diff <= dim && dim <= |xs| && dim <= |ys|
    ensures IndicesIn(Hits(a, dim - diff, dim), dim)
    ensures colsX == Pick(xs, Hits(a, dim - diff, dim)) && colsY == Pick(ys, Hits(a, dim - diff, dim))
    ensures IsPermutation(a, dim) ==> |colsX| == diff && |colsY| == diff
  {
    colsX, colsY := [], [];
    for x := 0 to dim
      invariant IndicesIn(Hits(a, dim - diff, x), dim)
      invariant colsX == Pick(xs, Hits(a, dim - diff, x)) && colsY == Pick(ys, Hits(a, dim - diff, x))
    {
      HitsInRange(a, dim - diff, dim, x + 1);
      if a[x] >= dim - diff {
        colsX := colsX + [xs[a[x]]];
        colsY := colsY + [ys[a[x]]];
      }
    }
    if IsPermutation(a, dim) {
      HitsOfPermutation(a, dim - diff, dim);
    }
  }

  /** A frame of the backfill after i columns: its first n entries, then
      cols[..i], then the rest of the frame. */
  function Filled(base: seq<int>, n: nat, cols: seq<int>, i: nat): (r: seq<int>)
    requires n + i <= |base| && i <= |cols|
    ensures |r| == |base|
  {
    base[..n] + cols[..i] + base[n + i..]
  }

  /** Writing cols[i] at row n+i extends the backfill by one column. */
  lemma WriteColumn(base: seq<int>, n: nat, cols: seq<int>, i: nat)
    requires n + i < |base| && i < |cols|
    ensures Filled(base, n, cols, i)[n + i := cols[i]] == Filled(base, n, cols, i + 1)
  {
    var lhs := Filled(base, n, cols, i)[n + i := cols[i]];
    var rhs := Filled(base, n, cols, i + 1);
    forall k | 0 <= k < |lhs| ensures lhs[k] == rhs[k] {
      if k < n {
      } else if k < n + i {
        assert lhs[k] == cols[..i][k - n] && rhs[k] == cols[..i + 1][k - n];
      } else if k == n + i {
      } else {
        assert lhs[k] == base[n + i..][k - n - i] && rhs[k] == base[n + i + 1..][k - n - i - 1];
      }
    }
  }

  lemma AppendBlind(v: seq<int>, j: nat)
    ensures v + Repeat(BLIND_VALUE, j) + [BLIND_VALUE] == v + Repeat(BLIND_VALUE, j + 1)
  {
    assert Repeat(BLIND_VALUE, j) + [BLIND_VALUE] == Repeat(BLIND_VALUE, j + 1);
  }

  /** The loop of push_data_intern_diff_gtz padding the batch with
      BLIND_VALUE `diff` times on both axes. */
  method PadNewData(xs: seq<int>, ys: seq<int>, diff: nat) returns (padX: seq<int>, padY: seq<int>)
    ensures padX == Padded(xs, |xs| + diff) && padY == Padded(ys, |ys| + diff)
    ensures |padX| == |xs| + diff && padX[..|xs|] == xs
    ensures forall i :: |xs| <= i < |padX| ==> padX[i] == BLIND_VALUE
  {
    padX, padY := xs, ys;
    for i := 0 to diff
      invariant padX == xs + Repeat(BLIND_VALUE, i) && padY == ys + Repeat(BLIND_VALUE, i)
    {
      assert Repeat(BLIND_VALUE, i) + [BLIND_VALUE] == Repeat(BLIND_VALUE, i + 1);
      padX := padX + [BLIND_VALUE];
      padY := padY + [BLIND_VALUE];
    }
  }

  /** The rows push_data_intern_diff_gtz deletes: assignment[dim-1-i] for
      i < diff, collected by a loop and sorted. */
  method DeletedRows(a: seq<int>, dim: nat, diff: nat) returns (delRows: seq<int>)
    requires diff <= dim <= |a|
    ensures delRows == DelRows(a, dim, diff)
    ensures IsPermutation(a[..dim], dim) ==> RowsToDelete(delRows, dim) && |delRows| == diff
  {
    delRows := [];
    for i := 0 to diff
      invariant delRows == seq(i, k requires 0 <= k < i => a[dim - 1 - k])
    {
      delRows := delRows + [a[dim - 1 - i]];
    }
    delRows := SortAsc(delRows);
    if IsPermutation(a[..dim], dim) {
      DelRowsArePaddedMatches(a[..dim], dim, diff);
      assert DelRows(a[..dim], dim, diff) == delRows by {
        assert seq(diff, k requires 0 <= k < diff => a[..dim][dim - 1 - k]) == seq(diff, k requires 0 <= k < diff => a[dim - 1 - k]);
      }
    }
  }

  /** The grow path's matching is the one GrowStep matches with. */
  lemma GrowStepIs(s: State, xs: seq<int>, ys: seq<int>, c: Collaborators, d: nat, a: seq<int>)
    requires Valid(s) && !IsFresh(s) && |xs| == |ys| > |s.dataX[0]| && d == |xs| - |s.dataX[0]|
    requires a == Assignment(|xs|, PadFrames(s.dataX, d), PadFrames(s.dataY, d), s.good + Repeat(1, d), xs, ys, c)
    ensures GrowStep(s, xs, ys, c) == GrowWith(s, xs, ys, a)
  {
  }

  /** GrowWith spelled out frame by frame, given the collected columns and
      the fresh ids. */
  lemma GrowWithIs(s: State, xs: seq<int>, ys: seq<int>, a: seq<int>,
                   colsX: seq<int>, colsY: seq<int>, newIds: seq<int>)
    requires Valid(s) && !IsFresh(s) && |xs| == |ys| > |s.dataX[0]| && IsPermutation(a, |xs|)
    requires IndicesIn(Hits(a, |s.dataX[0]|, |xs|), |xs|)
    requires colsX == Pick(xs, Hits(a, |s.dataX[0]|, |xs|)) && colsY == Pick(ys, Hits(a, |s.dataX[0]|, |xs|))
    requires newIds == NewIds(s.ids, |xs| - |s.dataX[0]|)
    ensures GrowWith(s, xs, ys, a) ==
              State([s.dataX[1] + colsX, s.dataX[2] + colsX, Arranged(|xs|, a, xs)],
                    [s.dataY[1] + colsY, s.dataY[2] + colsY, Arranged(|xs|, a, ys)],
                    s.ids + newIds, Incremented(s.good + Repeat(0, |xs| - |s.dataX[0]|)), a)
  {
    var n := |s.dataX[0]|;
    GrowFramesEffects(s.dataX, colsX, Arranged(|xs|, a, xs));
    GrowFramesEffects(s.dataY, colsY, Arranged(|xs|, a, ys));
  }

  /** The padded frames after the backfill: the original frames followed by
      the collected columns. */
  lemma BackfilledFrames(h: seq<seq<int>>, d: nat, cols: seq<int>, r: seq<seq<int>>)
    requires |h| == 3 && |h[1]| == |h[0]| && |h[2]| == |h[0]| && |cols| == d && |r| == 3
    requires forall k :: 0 <= k < 3 ==> r[k] == PadFrames(h, d)[k][..|h[0]|] + cols[..d]
    ensures r == [h[0] + cols, h[1] + cols, h[2] + cols]
  {
    assert r[0] == (h[0] + Repeat(BLIND_VALUE, d))[..|h[0]|] + cols[..d];
    assert r[1] == (h[1] + Repeat(BLIND_VALUE, d))[..|h[0]|] + cols[..d];
    assert r[2] == (h[2] + Repeat(BLIND_VALUE, d))[..|h[0]|] + cols[..d];
    assert cols[..d] == cols;
    assert (h[0] + Repeat(BLIND_VALUE, d))[..|h[0]|] == h[0];
    assert (h[1] + Repeat(BLIND_VALUE, d))[..|h[0]|] == h[1];
    assert (h[2] + Repeat(BLIND_VALUE, d))[..|h[0]|] == h[2];
  }

  /** The shrink path's assignment is the one ShrinkStep matches with. */
  lemma ShrinkStepIs(s: State, xs: seq<int>, ys: seq<int>, c: Collaborators, a: seq<int>)
    requires Valid(s) && !IsFresh(s) && |xs| == |ys| < |s.dataX[0]|
    requires var dim := |s.dataX[0]|;
             a == Assignment(dim, s.dataX, s.dataY, s.good, Padded(xs, dim), Padded(ys, dim), c)
    ensures ShrinkStep(s, xs, ys, c) == ShrinkWith(s, xs, ys, a)
  {
  }

  /** ShrinkWith spelled out, given the padded batch and the deleted rows. */
  lemma ShrinkWithIs(s: State, xs: seq<int>, ys: seq<int>, a: seq<int>,
                     padX: seq<int>, padY: seq<int>, del: seq<int>)
    requires Valid(s) && !IsFresh(s) && |xs| == |ys| < |s.dataX[0]| && IsPermutation(a, |s.dataX[0]|)
    requires padX == Padded(xs, |s.dataX[0]|) && padY == Padded(ys, |s.dataX[0]|)
    requires del == DelRows(a, |s.dataX[0]|, |s.dataX[0]| - |xs|)
    ensures ShrinkWith(s, xs, ys, a) ==
              State(RemovedFrames(PushFrame(s.dataX, Arranged(|s.dataX[0]|, a, padX)), del),
                    RemovedFrames(PushFrame(s.dataY, Arranged(|s.dataX[0]|, a, padY)), del),
                    Removed(s.ids, del), Incremented(Removed(s.good, del)), a)
  {
  }

  class PositionTracker {
    /** The extrapolator, distance and assignment solver the tracker uses. */
    const collab: Collaborators
    /** m_matData[X] and m_matData[Y]: the frames, oldest first. */
    var dataX: seq<seq<int>>
    var dataY: seq<seq<int>>
    /** m_vecIDs, m_vecGoodDataCount and m_vecCurrentAssignment. */
    var ids: seq<int>
    var good: seq<int>
    var assignment: seq<int>

    function Model(): State
      reads this
    {
      State(dataX, dataY, ids, good, assignment)
    }

    ghost predicate Valid()
      reads this
    {
      TrackerModel.Valid(Model())
    }

    constructor(c: Collaborators)
      ensures Valid() && Model() == Initial && collab == c
    {
      collab := c;
      dataX, dataY := [], [];
      ids, good, assignment := [], [], [];
    }

    /** PositionTracker::pushData(dataXs, dataYs). */
    method PushData(xs: seq<int>, ys: seq<int>)
      requires Valid()
      modifies this
      ensures Valid()
      ensures Model() == Tick(old(Model()), xs, ys, collab)
    {
      TickKeepsInvariant(Model(), xs, ys, collab);
      if |xs| == 0 || |xs| != |ys| {
        return;
      }
      if |dataX| == 0 {
        FirstStepIntern(xs, ys);
        return;
      }
      var diff := |dataX[0]| - |xs|;
      if diff < 0 {
        GrowIntern(xs, ys);
      } else if diff > 0 {
        ShrinkIntern(xs, ys);
      } else {
        EqualIntern(xs, ys);
      }
    }

    /** PositionTracker::pushData(xys, n): split the buffer, then push. */
    method PushDataInterleaved(xys: seq<int>, n: nat)
      requires Valid() && 2 * n <= |xys|
      modifies this
      ensures Valid()
      ensures Model() == Tick(old(Model()), Deinterleaved(xys, n).0, Deinterleaved(xys, n).1, collab)
    {
      var xs, ys := Deinterleave(xys, n);
      PushData(xs, ys);
    }

    /** PositionTracker::getID: the id of the first slot whose newest position
        is (x, y), or -1. */
    method GetID(x: int, y: int) returns (id: int)
      requires Valid() && !IsFresh(Model())
      ensures id == IdOf(Model(), x, y)
    {
      var rX, rY := dataX[2], dataY[2];
      for i := 0 to |rX|
        invariant IdOf(Model(), x, y) == IdFrom(Model(), x, y, i)
      {
        if rX[i] == x && rY[i] == y {
          return ids[i];
        }
      }
      return -1;
    }

    /** push_data_intern_first_step. */
    method FirstStepIntern(xs: seq<int>, ys: seq<int>)
      requires Valid() && IsFresh(Model())
      modifies this
      ensures Model() == FirstStep(old(Model()), xs, ys)
    {
      for i := 0 to 3
        invariant dataX == old(dataX) + seq(i, _ => xs) && dataY == old(dataY) + seq(i, _ => ys)
        invariant ids == old(ids) && good == old(good) && assignment == old(assignment)
      {
        assert seq(i, _ => xs) + [xs] == seq(i + 1, _ => xs);
        assert seq(i, _ => ys) + [ys] == seq(i + 1, _ => ys);
        dataX := dataX + [xs];
        dataY := dataY + [ys];
      }
      assert seq(3, _ => xs) == [xs, xs, xs] && seq(3, _ => ys) == [ys, ys, ys];
      ids := Repeat(0, |xs|);
      for i := 0 to |xs|
        invariant |ids| == |xs|
        invariant forall k :: 0 <= k < i ==> ids[k] == k
        invariant good == old(good) + Repeat(1, i)
        invariant dataX == old(dataX) + [xs, xs, xs] && dataY == old(dataY) + [ys, ys, ys]
        invariant assignment == old(assignment)
      {
        assert Repeat(1, i) + [1] == Repeat(1, i + 1);
        ids := ids[i := i];
        good := good + [1];
      }
      assert ids == Iota(|xs|);
    }

    /** push_data_intern_diff_zero. */
    method EqualIntern(xs: seq<int>, ys: seq<int>)
      requires Valid() && !IsFresh(Model()) && |xs| == |ys| == |dataX[0]|
      modifies this
      ensures Model() == EqualStep(old(Model()), xs, ys, collab)
    {
      var dim := |dataX[0]|;
      var a := Match(dim, dataX, dataY, good, xs, ys, collab);
      assignment := a;
      PushAndRearrange(dim, a, xs, ys);
      IncrementGood();
    }

    /** push_data_intern_diff_gtz. */
    method ShrinkIntern(xs: seq<int>, ys: seq<int>)
      requires Valid() && !IsFresh(Model()) && |xs| == |ys| < |dataX[0]|
      modifies this
      ensures Model() == ShrinkStep(old(Model()), xs, ys, collab)
    {
      ghost var s := Model();
      var diff := |dataX[0]| - |xs|;
      var padX, padY := PadNewData(xs, ys, diff);
      var dim := |dataX[0]|;
      var a := Match(dim, dataX, dataY, good, padX, padY, collab);
      ShrinkStepIs(s, xs, ys, collab, a);
      assignment := a;
      PushAndRearrange(dim, a, padX, padY);
      var delRows := DeletedRows(a, dim, diff);
      assert a[..dim] == a;
      ShrinkWithIs(s, xs, ys, a, padX, padY, delRows);
      RemoveRowsFromDataMatrix(delRows);
      ids := RemoveElemsFromVector(ids, delRows);
      good := RemoveElemsFromVector(good, delRows);
      IncrementGood();
    }

    /** push_data_intern_diff_ltz. */
    method GrowIntern(xs: seq<int>, ys: seq<int>)
      requires Valid() && !IsFresh(Model()) && |xs| == |ys| > |dataX[0]|
      modifies this
      ensures Model() == GrowStep(old(Model()), xs, ys, collab)
    {
      ghost var s := Model();
      var diff := |xs| - |dataX[0]|;
      var a := GrowMatch(xs, ys, diff, s);
      GrowStepIs(s, xs, ys, collab, diff, a);
      GrowFill(xs, ys, a, diff, s);
    }

    /** The second half of push_data_intern_diff_ltz: collect the columns of
        the new slots, give them fresh ids and a count of 0, backfill the
        stored frames, increment the counts and push the arranged batch. */
    method GrowFill(xs: seq<int>, ys: seq<int>, a: seq<int>, diff: nat, ghost s: State)
      requires TrackerModel.Valid(s) && !IsFresh(s) && |xs| == |ys| > |s.dataX[0]| && IsPermutation(a, |xs|)
      requires diff == |xs| - |s.dataX[0]|
      requires dataX == PadFrames(s.dataX, diff) && dataY == PadFrames(s.dataY, diff)
      requires ids == s.ids && good == s.good && assignment == a
      modifies this
      ensures Model() == GrowWith(s, xs, ys, a)
    {
      var dim := |dataX[0]|;
      var colsX, colsY := NewDataColumns(dim, diff, a, xs, ys);
      var newIds := GetNNewIds(ids, diff);
      GrowWithIs(s, xs, ys, a, colsX, colsY, newIds);
      Backfill(dim - diff, diff, colsX, colsY, newIds);
      BackfilledFrames(s.dataX, diff, colsX, dataX);
      BackfilledFrames(s.dataY, diff, colsY, dataY);
      assert newIds[..diff] == newIds;
      PushFrameOfThree(dataX, Arranged(dim, a, xs));
      PushFrameOfThree(dataY, Arranged(dim, a, ys));
      IncrementGood();
      PushAndRearrange(dim, a, xs, ys);
      assert dataX == [s.dataX[1] + colsX, s.dataX[2] + colsX, Arranged(dim, a, xs)];
      assert dataY == [s.dataY[1] + colsY, s.dataY[2] + colsY, Arranged(dim, a, ys)];
      assert ids == s.ids + newIds && good == Incremented(s.good + Repeat(0, diff));
    }

    /** The first half of push_data_intern_diff_ltz: pad every frame with
        BLIND_VALUE, give the new slots a count of 1 for the prediction,
        match, drop the temporary counts and record the assignment. */
    method GrowMatch(xs: seq<int>, ys: seq<int>, diff: nat, ghost s: State) returns (a: seq<int>)
      requires Valid() && !IsFresh(Model()) && |xs| == |ys| > |dataX[0]|
      requires s == Model() && diff == |xs| - |s.dataX[0]|
      modifies this
      ensures a == Assignment(|xs|, PadFrames(s.dataX, diff), PadFrames(s.dataY, diff), s.good + Repeat(1, diff), xs, ys, collab)
      ensures IsPermutation(a, |xs|)
      ensures dataX == PadFrames(s.dataX, diff) && dataY == PadFrames(s.dataY, diff)
      ensures ids == s.ids && good == s.good && assignment == a
    {
      PadDataMatrix(diff);
      var dim := |dataX[0]|;
      for i := 0 to diff
        invariant good == s.good + Repeat(1, i)
        invariant dataX == PadFrames(s.dataX, diff) && dataY == PadFrames(s.dataY, diff)
        invariant ids == s.ids && assignment == s.assignment
      {
        assert Repeat(1, i) + [1] == Repeat(1, i + 1);
        good := good + [1];
      }
      a := Match(dim, dataX, dataY, good, xs, ys, collab);
      good := good[..|good| - diff];
      assert good == s.good;
      assignment := a;
    }

    /** push_and_rearrange_data: push the batch arranged by `a` as the newest
        frame of both axes and drop the oldest. */
    method PushAndRearrange(dim: nat, a: seq<int>, newX: seq<int>, newY: seq<int>)
      requires IndexMap(a, dim) && dim <= |newX| && dim <= |newY|
      modifies this
      ensures dataX == PushFrame(old(dataX), Arranged(dim, a, newX))
      ensures dataY == PushFrame(old(dataY), Arranged(dim, a, newY))
      ensures ids == old(ids) && good == old(good) && assignment == old(assignment)
    {
      var arrangedX := Arrange(dim, a, newX);
      var arrangedY := Arrange(dim, a, newY);
      dataX := dataX + [arrangedX];
      dataY := dataY + [arrangedY];
      dataX := dataX[1..];
      dataY := dataY[1..];
    }

    /** The `good[i]++` loop ending every non-first path. */
    method IncrementGood()
      modifies this
      ensures good == Incremented(old(good))
      ensures dataX == old(dataX) && dataY == old(dataY) && ids == old(ids) && assignment == old(assignment)
    {
      for i := 0 to |good|
        invariant |good| == |old(good)|
        invariant forall k :: 0 <= k < i ==> good[k] == old(good)[k] + 1
        invariant forall k :: i <= k < |good| ==> good[k] == old(good)[k]
        invariant dataX == old(dataX) && dataY == old(dataY) && ids == old(ids) && assignment == old(assignment)
      {
        good := good[i := good[i] + 1];
      }
    }

    /** removeRowsFromDataMatrix: remove `rows` from the three frames of both
        axes. */
    method RemoveRowsFromDataMatrix(rows: seq<int>)
      requires |dataX| == 3 && |dataY| == 3
      modifies this
      ensures dataX == RemovedFrames(old(dataX), rows) && dataY == RemovedFrames(old(dataY), rows)
      ensures ids == old(ids) && good == old(good) && assignment == old(assignment)
    {
      for axis := 0 to 2
        invariant |dataX| == 3 && |dataY| == 3
        invariant dataX == if axis == 0 then old(dataX) else RemovedFrames(old(dataX), rows)
        invariant dataY == if axis < 2 then old(dataY) else RemovedFrames(old(dataY), rows)
        invariant ids == old(ids) && good == old(good) && assignment == old(assignment)
      {
        var md := if axis == 0 then dataX else dataY;
        ghost var orig := md;
        ghost var before := Model();
        for x := 0 to 3
          invariant |md| == 3
          invariant forall k :: 0 <= k < x ==> md[k] == Removed(orig[k], rows)
          invariant forall k :: x <= k < 3 ==> md[k] == orig[k]
          invariant Model() == before
        {
          var v := RemoveElemsFromVector(md[x], rows);
          md := md[x := v];
        }
        assert md == RemovedFrames(orig, rows);
        if axis == 0 {
          dataX := md;
        } else {
          dataY := md;
        }
      }
    }

    /** The loops of push_data_intern_diff_ltz appending BLIND_VALUE `diff`
        times to each of the three frames of both axes. */
    method PadDataMatrix(diff: nat)
      requires |dataX| == 3 && |dataY| == 3
      modifies this
      ensures dataX == PadFrames(old(dataX), diff) && dataY == PadFrames(old(dataY), diff)
      ensures ids == old(ids) && good == old(good) && assignment == old(assignment)
    {
      assert dataX == PadFrames(dataX, 0) && dataY == PadFrames(dataY, 0) by {
        assert dataX[0] + [] == dataX[0] && dataX[1] + [] == dataX[1] && dataX[2] + [] == dataX[2];
        assert dataY[0] + [] == dataY[0] && dataY[1] + [] == dataY[1] && dataY[2] + [] == dataY[2];
      }
      for j := 0 to diff
        invariant dataX == PadFrames(old(dataX), j) && dataY == PadFrames(old(dataY), j)
        invariant ids == old(ids) && good == old(good) && assignment == old(assignment)
      {
        ghost var before := (dataX, dataY);
        for i := 0 to 3
          invariant |dataX| == 3 && |dataY| == 3
          invariant forall k :: 0 <= k < i ==> dataX[k] == before.0[k] + [BLIND_VALUE] && dataY[k] == before.1[k] + [BLIND_VALUE]
          invariant forall k :: i <= k < 3 ==> dataX[k] == before.0[k] && dataY[k] == before.1[k]
          invariant ids == old(ids) && good == old(good) && assignment == old(assignment)
        {
          dataX := dataX[i := dataX[i] + [BLIND_VALUE]];
          dataY := dataY[i := dataY[i] + [BLIND_VALUE]];
        }
        assert Repeat(BLIND_VALUE, j) + [BLIND_VALUE] == Repeat(BLIND_VALUE, j + 1);
        assert dataX == PadFrames(old(dataX), j + 1) by {
          AppendBlind(old(dataX)[0], j);
          AppendBlind(old(dataX)[1], j);
          AppendBlind(old(dataX)[2], j);
        }
        assert dataY == PadFrames(old(dataY), j + 1) by {
          AppendBlind(old(dataY)[0], j);
          AppendBlind(old(dataY)[1], j);
          AppendBlind(old(dataY)[2], j);
        }
      }
    }

    /** The inner loop of the backfill: row `row` of each of the three frames
        set to `vx` on the X axis and `vy` on the Y axis. */
    method WriteRow(row: nat, vx: int, vy: int)
      requires |dataX| == 3 && |dataY| == 3
      requires forall k :: 0 <= k < 3 ==> row < |dataX[k]| && row < |dataY[k]|
      modifies this
      ensures |dataX| == 3 && |dataY| == 3
      ensures forall k :: 0 <= k < 3 ==> dataX[k] == old(dataX)[k][row := vx] && dataY[k] == old(dataY)[k][row := vy]
      ensures ids == old(ids) && good == old(good) && assignment == old(assignment)
    {
      for j := 0 to 3
        invariant |dataX| == 3 && |dataY| == 3
        invariant forall k :: 0 <= k < j ==> dataX[k] == old(dataX)[k][row := vx] && dataY[k] == old(dataY)[k][row := vy]
        invariant forall k :: j <= k < 3 ==> dataX[k] == old(dataX)[k] && dataY[k] == old(dataY)[k]
        invariant ids == old(ids) && good == old(good) && assignment == old(assignment)
      {
        dataX := dataX[j := dataX[j][row := vx]];
        dataY := dataY[j := dataY[j][row := vy]];
      }
    }

    /** The loop of push_data_intern_diff_ltz writing column i of the new
        slots (row n+i of every frame) and appending the new id and a count
        of 0, for i < diff. */
    method Backfill(n: nat, diff: nat, colsX: seq<int>, colsY: seq<int>, newIds: seq<int>)
      requires |dataX| == 3 && |dataY| == 3
      requires forall k :: 0 <= k < 3 ==> |dataX[k]| == n + diff && |dataY[k]| == n + diff
      requires |colsX| >= diff && |colsY| >= diff && |newIds| >= diff
      modifies this
      ensures |dataX| == 3 && |dataY| == 3
      ensures forall k :: 0 <= k < 3 ==> dataX[k] == old(dataX)[k][..n] + colsX[..diff] && dataY[k] == old(dataY)[k][..n] + colsY[..diff]
      ensures ids == old(ids) + newIds[..diff] && good == old(good) + Repeat(0, diff)
      ensures assignment == old(assignment)
    {
      for i := 0 to diff
        invariant |dataX| == 3 && |dataY| == 3
        invariant forall k :: 0 <= k < 3 ==>
                    dataX[k] == Filled(old(dataX)[k], n, colsX, i) && dataY[k] == Filled(old(dataY)[k], n, colsY, i)
        invariant ids == old(ids) + newIds[..i] && good == old(good) + Repeat(0, i)
        invariant assignment == old(assignment)
      {
        WriteRow(n + i, colsX[i], colsY[i]);
        forall k | 0 <= k < 3
          ensures dataX[k] == Filled(old(dataX)[k], n, colsX, i + 1) && dataY[k] == Filled(old(dataY)[k], n, colsY, i + 1)
        {
          WriteColumn(old(dataX)[k], n, colsX, i);
          WriteColumn(old(dataY)[k], n, colsY, i);
        }
        assert newIds[..i] + [newIds[i]] == newIds[..i + 1];
        assert Repeat(0, i) + [0] == Repeat(0, i + 1);
        ids := ids + [newIds[i]];
        good := good + [0];
      }
      forall k | 0 <= k < 3
        ensures dataX[k] == old(dataX)[k][..n] + colsX[..diff] && dataY[k] == old(dataY)[k][..n] + colsY[..diff]
      {
        assert old(dataX)[k][n + diff..] == [] && old(dataY)[k][n + diff..] == [];
      }
    }
  }
}

/** The state of PositionTracker<int> (ICLBlob/src/PositionTracker.cpp) as a
    value, and one tick of pushData as a function of the old state and the new
    batch, path by path. The class in position_tracker.dfy performs the same
    ticks step by step and is proved to reach exactly these states; the lemmas
    here say what the ticks do. */
module TrackerModel {
  import opened Sequences
  import opened TrackerVectors
  import opened TrackerPrediction

  /** The padding coordinate of positiontracker::BLIND_VALUE. */
  const BLIND_VALUE: int := 9999

  /** The fields of the tracker: m_matData[X] and m_matData[Y] (each a deque of
      frames, oldest first), m_vecIDs, m_vecGoodDataCount and
      m_vecCurrentAssignment. */
  datatype State = State(dataX: seq<seq<int>>, dataY: seq<seq<int>>, ids: seq<int>, good: seq<int>, assignment: seq<int>)

  /** The state of a tracker that has not been given data yet. */
  const Initial: State := State([], [], [], [], [])

  /** The test pushData makes before anything else: `!m_matData[X].size()`. */
  predicate IsFresh(s: State)
  {
    |s.dataX| == 0
  }

  /** Three frames per axis, and every frame and the id and freshness vectors
      hold one entry per slot. */
  ghost predicate Shaped(s: State, n: nat)
  {
    && |s.dataX| == 3 && |s.dataY| == 3
    && |s.ids| == n && |s.good| == n
    && |s.dataX[0]| == n && |s.dataX[1]| == n && |s.dataX[2]| == n
    && |s.dataY[0]| == n && |s.dataY[1]| == n && |s.dataY[2]| == n
  }

  /** The tracker's invariant: either nothing has been pushed yet, or there
      are n > 0 slots with parallel arrays of length n, pairwise distinct
      non-negative ids and freshness counts of at least 1. */
  ghost predicate Valid(s: State)
  {
    if IsFresh(s) then
      |s.dataY| == 0 && s.ids == [] && s.good == []
    else
      && Shaped(s, |s.ids|) && |s.ids| > 0
      && Distinct(s.ids)
      && (forall i :: 0 <= i < |s.ids| ==> s.ids[i] >= 0)
      && (forall i :: 0 <= i < |s.good| ==> s.good[i] >= 1)
  }

  /** deque::push_back of a new newest frame followed by pop_front. */
  function PushFrame(h: seq<seq<int>>, frame: seq<int>): seq<seq<int>>
  {
    (h + [frame])[1..]
  }

  /** The `good[i]++` loop. */
  function Incremented(s: seq<int>): (r: seq<int>)
    ensures |r| == |s|
  {
    seq(|s|, i requires 0 <= i < |s| => s[i] + 1)
  }

  /** The first three frames of `h`, each extended by `d` padding values. */
  function PadFrames(h: seq<seq<int>>, d: nat): (r: seq<seq<int>>)
    requires |h| >= 3
    ensures |r| == 3 && |r[0]| == |h[0]| + d && |r[1]| == |h[1]| + d && |r[2]| == |h[2]| + d
  {
    [h[0] + Repeat(BLIND_VALUE, d), h[1] + Repeat(BLIND_VALUE, d), h[2] + Repeat(BLIND_VALUE, d)]
  }

  /** The rows the shrink path deletes: assignment[dim-1-i] for i < DIFF,
      sorted ascending. */
  function DelRows(a: seq<int>, dim: nat, d: nat): seq<int>
    requires d <= dim <= |a|
  {
    SortAsc(seq(d, i requires 0 <= i < d => a[dim - 1 - i]))
  }

  /** The slots `a[x]` with `a[x] >= lo`, in the order of `x < count`. */
  function Hits(a: seq<int>, lo: int, count: nat): seq<int>
    requires count <= |a|
  {
    if count == 0 then []
    else Hits(a, lo, count - 1) + (if a[count - 1] >= lo then [a[count - 1]] else [])
  }

  /** The matching every non-first tick computes: predict each slot on both
      axes, build the distance matrix of observations (rows) against
      predictions (columns), and let the solver assign observation i to slot
      a[i]. */
  function Assignment(dim: nat, hX: seq<seq<int>>, hY: seq<seq<int>>, good: seq<int>,
                      obsX: seq<int>, obsY: seq<int>, c: Collaborators): (a: seq<int>)
    requires Frames(hX, dim) && Frames(hY, dim) && |good| >= dim
    requires |obsX| == dim && |obsY| == dim
    ensures IsPermutation(a, dim)
  {
    var predX := Prediction(dim, hX, good, c.ex);
    var predY := Prediction(dim, hY, good, c.ex);
    c.solve(DistMat(predX, predY, obsX, obsY, c.dist))
  }

  /** The shrink path's frames: push the arranged padded batch, then remove
      the deleted rows from each of the three frames. */
  function ShrinkFrames(h: seq<seq<int>>, a: seq<int>, pad: seq<int>, del: seq<int>): seq<seq<int>>
    requires |h| >= 3 && IndexMap(a, |pad|)
  {
    RemovedFrames(PushFrame(h, Arranged(|pad|, a, pad)), del)
  }

  /** removeRowsFromDataMatrix on one axis: `rows` removed from each of the
      three frames. */
  function RemovedFrames(h: seq<seq<int>>, rows: seq<int>): seq<seq<int>>
    requires |h| >= 3
  {
    seq(3, k requires 0 <= k < 3 => Removed(h[k], rows))
  }

  /** The grow path's frames: the backfill columns appended to each frame,
      then the arranged batch pushed. */
  function GrowFrames(h: seq<seq<int>>, cols: seq<int>, newest: seq<int>): seq<seq<int>>
    requires |h| >= 3
  {
    PushFrame(seq(3, k requires 0 <= k < 3 => h[k] + cols), newest)
  }

  lemma PushFrameOfThree(h: seq<seq<int>>, f: seq<int>)
    requires |h| == 3
    ensures PushFrame(h, f) == [h[1], h[2], f]
  {
  }


  /** Every slot `Hits` collects is an index of the permutation's range. */
  lemma {:induction false} HitsInRange(a: seq<int>, lo: int, dim: nat, count: nat)
    requires IndexMap(a, dim) && count <= dim
    ensures IndicesIn(Hits(a, lo, count), dim)
  {
    if count > 0 {
      HitsInRange(a, lo, dim, count - 1);
    }
  }

  // ---------------------------------------------------------------------------
  // The four paths of a tick
  // ---------------------------------------------------------------------------

  /** push_data_intern_first_step: three identical frames holding the batch,
      ids 0..n-1 and a freshness count of 1 per point. */
  function FirstStep(s: State, xs: seq<int>, ys: seq<int>): State
  {
    s.(dataX := s.dataX + [xs, xs, xs],
       dataY := s.dataY + [ys, ys, ys],
       ids := Iota(|xs|),
       good := s.good + Repeat(1, |xs|))
  }

  /** push_data_intern_diff_zero: as many points as slots. */
  function EqualStep(s: State, xs: seq<int>, ys: seq<int>, c: Collaborators): State
    requires Valid(s) && !IsFresh(s)
    requires |xs| == |ys| == |s.dataX[0]|
  {
    EqualWith(s, xs, ys, Assignment(|xs|, s.dataX, s.dataY, s.good, xs, ys, c))
  }

  /** The equal-size tick once the matching `a` is known: the arranged batch
      is pushed and every count incremented. */
  function EqualWith(s: State, xs: seq<int>, ys: seq<int>, a: seq<int>): State
    requires Valid(s) && !IsFresh(s)
    requires |xs| == |ys| == |s.dataX[0]| && IsPermutation(a, |xs|)
  {
    s.(dataX := PushFrame(s.dataX, Arranged(|xs|, a, xs)),
       dataY := PushFrame(s.dataY, Arranged(|xs|, a, ys)),
       good := Incremented(s.good),
       assignment := a)
  }

  /** A batch padded with BLIND_VALUE up to `dim` entries. */
  function Padded(v: seq<int>, dim: nat): (r: seq<int>)
    requires |v| <= dim
    ensures |r| == dim
  {
    v + Repeat(BLIND_VALUE, dim - |v|)
  }

  /** push_data_intern_diff_gtz: fewer points than slots. The batch is padded
      with BLIND_VALUE up to the slot count and matched. */
  function ShrinkStep(s: State, xs: seq<int>, ys: seq<int>, c: Collaborators): State
    requires Valid(s) && !IsFresh(s)
    requires |xs| == |ys| < |s.dataX[0]|
  {
    var dim := |s.dataX[0]|;
    ShrinkWith(s, xs, ys, Assignment(dim, s.dataX, s.dataY, s.good, Padded(xs, dim), Padded(ys, dim), c))
  }

  /** The shrinking tick once the matching `a` is known: the arranged padded
      batch is pushed; then the slots that received padding are deleted from
      every frame and from the id and freshness vectors, and the counts are
      incremented. */
  function ShrinkWith(s: State, xs: seq<int>, ys: seq<int>, a: seq<int>): State
    requires Valid(s) && !IsFresh(s)
    requires |xs| == |ys| < |s.dataX[0]| && IsPermutation(a, |s.dataX[0]|)
  {
    var dim := |s.dataX[0]|;
    var del := DelRows(a, dim, dim - |xs|);
    State(ShrinkFrames(s.dataX, a, Padded(xs, dim), del),
          ShrinkFrames(s.dataY, a, Padded(ys, dim), del),
          Removed(s.ids, del),
          Incremented(Removed(s.good, del)),
          a)
  }

  /** push_data_intern_diff_ltz: more points than slots. Every frame is padded
      with BLIND_VALUE and the new slots count as seen once, for the
      prediction only; the matching is computed on those padded frames. */
  function GrowStep(s: State, xs: seq<int>, ys: seq<int>, c: Collaborators): State
    requires Valid(s) && !IsFresh(s)
    requires |xs| == |ys| > |s.dataX[0]|
  {
    GrowWith(s, xs, ys, Assignment(|xs|, PadFrames(s.dataX, |xs| - |s.dataX[0]|), PadFrames(s.dataY, |xs| - |s.dataX[0]|),
                                   s.good + Repeat(1, |xs| - |s.dataX[0]|), xs, ys, c))
  }

  /** The growing tick once the matching `a` is known. The entries of the new
      slots in the stored frames are backfilled with `newData[assignment[x]]`
      for each row x matched to a new slot (the batch indexed by a slot
      number, as the source does). The new slots get fresh ids and a count
      of 0, every count is incremented, and the arranged batch is pushed. */
  function GrowWith(s: State, xs: seq<int>, ys: seq<int>, a: seq<int>): State
    requires Valid(s) && !IsFresh(s)
    requires |xs| == |ys| > |s.dataX[0]| && IsPermutation(a, |xs|)
  {
    var n := |s.dataX[0]|;
    var dim := |xs|;
    var hits := Hits(a, n, dim);
    HitsInRange(a, n, dim, dim);
    State(GrowFrames(s.dataX, Pick(xs, hits), Arranged(dim, a, xs)),
          GrowFrames(s.dataY, Pick(ys, hits), Arranged(dim, a, ys)),
          s.ids + NewIds(s.ids, dim - n),
          Incremented(s.good + Repeat(0, dim - n)),
          a)
  }

  /** PositionTracker::pushData(xs, ys): an empty batch or one with unequal
      coordinate counts is ignored; the first accepted batch initialises the
      tracker; later batches take the path their size calls for. */
  function Tick(s: State, xs: seq<int>, ys: seq<int>, c: Collaborators): State
    requires Valid(s)
  {
    if |xs| == 0 || |xs| != |ys| then s
    else if IsFresh(s) then FirstStep(s, xs, ys)
    else
      var diff := |s.dataX[0]| - |xs|;
      if diff < 0 then GrowStep(s, xs, ys, c)
      else if diff > 0 then ShrinkStep(s, xs, ys, c)
      else EqualStep(s, xs, ys, c)
  }

  /** PositionTracker::getID: the id of the first slot, from slot `i` on,
      whose newest position is (x, y); -1 when there is none. */
  function IdFrom(s: State, x: int, y: int, i: nat): int
    requires Valid(s) && !IsFresh(s) && i <= |s.ids|
    decreases |s.ids| - i
  {
    if i == |s.ids| then -1
    else if s.dataX[2][i] == x && s.dataY[2][i] == y then s.ids[i]
    else IdFrom(s, x, y, i + 1)
  }

  function IdOf(s: State, x: int, y: int): int
    requires Valid(s) && !IsFresh(s)
  {
    IdFrom(s, x, y, 0)
  }

  // ---------------------------------------------------------------------------
  // What the ticks do
  // ---------------------------------------------------------------------------

  /** The first accepted batch yields three identical frames equal to the
      batch, ids 0..n-1 and every freshness count 1. */
  lemma FirstStepEffects(s: State, xs: seq<int>, ys: seq<int>)
    requires Valid(s) && IsFresh(s) && 0 < |xs| == |ys|
    ensures Valid(FirstStep(s, xs, ys)) && Shaped(FirstStep(s, xs, ys), |xs|)
    ensures FirstStep(s, xs, ys).dataX == [xs, xs, xs] && FirstStep(s, xs, ys).dataY == [ys, ys, ys]
    ensures forall i :: 0 <= i < |xs| ==> FirstStep(s, xs, ys).ids[i] == i && FirstStep(s, xs, ys).good[i] == 1
  {
  }

  /** Whatever permutation the solver returns, the equal-size tick keeps the
      ids and the slot count, adds exactly 1 to every freshness count, shifts
      frames 1 and 2 down, and stores observation i in slot a[i] of the new
      newest frame on both axes, so that frame holds exactly the batch. */
  lemma EqualStepEffects(s: State, xs: seq<int>, ys: seq<int>, a: seq<int>)
    requires Valid(s) && !IsFresh(s) && |xs| == |ys| == |s.dataX[0]| && IsPermutation(a, |xs|)
    ensures var t := EqualWith(s, xs, ys, a);
      && Valid(t) && Shaped(t, |xs|)
      && t.ids == s.ids && t.assignment == a
      && (forall i :: 0 <= i < |t.good| ==> t.good[i] == s.good[i] + 1)
      && t.dataX[0] == s.dataX[1] && t.dataX[1] == s.dataX[2]
      && t.dataY[0] == s.dataY[1] && t.dataY[1] == s.dataY[2]
      && (forall i :: 0 <= i < |xs| ==> t.dataX[2][a[i]] == xs[i] && t.dataY[2][a[i]] == ys[i])
      && multiset(t.dataX[2]) == multiset(xs) && multiset(t.dataY[2]) == multiset(ys)
  {
    var dim := |xs|;
    PushFrameOfThree(s.dataX, Arranged(dim, a, xs));
    PushFrameOfThree(s.dataY, Arranged(dim, a, ys));
    ArrangedIsPermuted(dim, a, xs);
    ArrangedIsPermuted(dim, a, ys);
    assert xs[..dim] == xs && ys[..dim] == ys;
  }

  /** The rows the shrink path deletes are strictly ascending slot numbers,
      DIFF of them, each the slot the assignment matched to one of the padded
      rows dim-DIFF..dim-1. */
  lemma DelRowsArePaddedMatches(a: seq<int>, dim: nat, d: nat)
    requires IsPermutation(a, dim) && d <= dim
    ensures RowsToDelete(DelRows(a, dim, d), dim) && |DelRows(a, dim, d)| == d
    ensures forall k :: 0 <= k < d ==> exists j :: dim - d <= j < dim && a[j] == DelRows(a, dim, d)[k]
  {
    var raw := seq(d, i requires 0 <= i < d => a[dim - 1 - i]);
    var del := DelRows(a, dim, d);
    SortAscSorts(raw);
    assert Distinct(raw) by {
      forall i, j | 0 <= i < j < d ensures raw[i] != raw[j] {
        assert a[dim - 1 - j] != a[dim - 1 - i];
      }
    }
    SortDistinctIsStrict(raw);
    forall k | 0 <= k < d ensures 0 <= del[k] < dim && exists j :: dim - d <= j < dim && a[j] == del[k] {
      assert del[k] in multiset(raw);
      var i :| 0 <= i < d && raw[i] == del[k];
      assert a[dim - 1 - i] == del[k];
    }
  }

  /** Conversely, every slot matched to a padded row is deleted. */
  lemma PaddedMatchesAreDeleted(a: seq<int>, dim: nat, d: nat)
    requires IsPermutation(a, dim) && d <= dim
    ensures forall j :: dim - d <= j < dim ==> a[j] in DelRows(a, dim, d)
  {
    var raw := seq(d, i requires 0 <= i < d => a[dim - 1 - i]);
    SortAscSorts(raw);
    forall j | dim - d <= j < dim ensures a[j] in DelRows(a, dim, d) {
      assert raw[dim - 1 - j] == a[j];
      assert a[j] in multiset(DelRows(a, dim, d));
    }
  }

  /** The observation matched to a surviving slot is a real one, not padding. */
  lemma MatchOfSurvivor(n: nat, m: nat, a: seq<int>, slot: int) returns (j: nat)
    requires IsPermutation(a, n) && m <= n
    requires 0 <= slot < n && slot !in DelRows(a, n, n - m)
    ensures j < m && a[j] == slot
  {
    PaddedMatchesAreDeleted(a, n, n - m);
    assert slot in a;
    var i :| 0 <= i < n && a[i] == slot;
    j := i;
  }

  /** The deleted slots of the arranged padded batch hold only padding. */
  lemma DeletedSlotsHoldPadding(n: nat, m: nat, a: seq<int>, v: seq<int>, pad: seq<int>)
    requires IsPermutation(a, n) && m <= n && |v| == m && pad == v + Repeat(BLIND_VALUE, n - m)
    ensures RowsToDelete(DelRows(a, n, n - m), n)
    ensures Pick(Arranged(n, a, pad), DelRows(a, n, n - m)) == Repeat(BLIND_VALUE, n - m)
  {
    var del := DelRows(a, n, n - m);
    var arr := Arranged(n, a, pad);
    DelRowsArePaddedMatches(a, n, n - m);
    ArrangedIsPermuted(n, a, pad);
    forall k | 0 <= k < n - m ensures Pick(arr, del)[k] == BLIND_VALUE {
      var j :| n - (n - m) <= j < n && a[j] == del[k];
      assert arr[a[j]] == pad[j];
    }
  }

  /** Removing the deleted slots from the arranged padded batch leaves, in
      surviving slot k, the batch entry j matched to it, and exactly the
      batch's values. */
  lemma PaddedNewestFrame(n: nat, m: nat, a: seq<int>, v: seq<int>, pad: seq<int>)
    requires IsPermutation(a, n) && m <= n && |v| == m && pad == v + Repeat(BLIND_VALUE, n - m)
    ensures var del := DelRows(a, n, n - m);
      && RowsToDelete(del, n) && |Kept(n, del)| == m && IndicesIn(Kept(n, del), n)
      && |Removed(Arranged(n, a, pad), del)| == m
      && (forall k, j :: 0 <= k < m && 0 <= j < m && a[j] == Kept(n, del)[k] ==>
            Removed(Arranged(n, a, pad), del)[k] == v[j])
      && multiset(Removed(Arranged(n, a, pad), del)) == multiset(v)
  {
    var del := DelRows(a, n, n - m);
    var arr := Arranged(n, a, pad);
    var kept := Kept(n, del);
    DelRowsArePaddedMatches(a, n, n - m);
    DeletedSlotsHoldPadding(n, m, a, v, pad);
    ArrangedIsPermuted(n, a, pad);
    RemovedKeepsOthersInOrder(arr, del);
    RemovedMultiset(arr, del);
    assert pad[..n] == pad;
    var blind := multiset(Repeat(BLIND_VALUE, n - m));
    assert multiset(pad) == multiset(v) + blind;
    assert multiset(arr) == multiset(Removed(arr, del)) + blind;
    MultisetCancel(multiset(Removed(arr, del)), multiset(v), blind);
    forall k, j | 0 <= k < m && 0 <= j < m && a[j] == kept[k] ensures Removed(arr, del)[k] == v[j] {
      assert arr[a[j]] == pad[j];
    }
  }

  lemma MultisetCancel(x: multiset<int>, y: multiset<int>, z: multiset<int>)
    requires x + z == y + z
    ensures x == y
  {
    assert forall e :: x[e] == (x + z)[e] - z[e] && y[e] == (y + z)[e] - z[e];
  }

  /** Every surviving slot is matched to a real observation. */
  lemma SurvivorsAreMatched(n: nat, m: nat, a: seq<int>, kept: seq<int>)
    requires IsPermutation(a, n) && m <= n && kept == Kept(n, DelRows(a, n, n - m))
    ensures |kept| == m
    ensures forall k :: 0 <= k < m ==> exists j :: 0 <= j < m && a[j] == kept[k]
  {
    var del := DelRows(a, n, n - m);
    DelRowsArePaddedMatches(a, n, n - m);
    RemovedKeepsOthersInOrder(Iota(n), del);
    forall k | 0 <= k < m ensures exists j :: 0 <= j < m && a[j] == kept[k] {
      assert kept[k] in kept;
      var j := MatchOfSurvivor(n, m, a, kept[k]);
    }
  }

  /** The shrink path's three frames: the surviving slots of the former
      frames 1 and 2, in order, and the surviving slots of the arranged padded
      batch. */
  lemma ShrinkFramesEffects(h: seq<seq<int>>, n: nat, m: nat, a: seq<int>, v: seq<int>, pad: seq<int>)
    requires |h| == 3 && |h[0]| == n && |h[1]| == n && |h[2]| == n
    requires IsPermutation(a, n) && m <= n && |v| == m && pad == v + Repeat(BLIND_VALUE, n - m)
    ensures var del := DelRows(a, n, n - m);
            var r := ShrinkFrames(h, a, pad, del);
      && RowsToDelete(del, n) && |Kept(n, del)| == m && IndicesIn(Kept(n, del), n)
      && |r| == 3 && |r[0]| == m && |r[1]| == m && |r[2]| == m
      && r[0] == Pick(h[1], Kept(n, del)) && r[1] == Pick(h[2], Kept(n, del))
      && (forall k, j :: 0 <= k < m && 0 <= j < m && a[j] == Kept(n, del)[k] ==> r[2][k] == v[j])
      && multiset(r[2]) == multiset(v)
  {
    var del := DelRows(a, n, n - m);
    PushFrameOfThree(h, Arranged(n, a, pad));
    DelRowsArePaddedMatches(a, n, n - m);
    RemovedKeepsOthersInOrder(h[1], del);
    RemovedKeepsOthersInOrder(h[2], del);
    PaddedNewestFrame(n, m, a, v, pad);
  }

  /** Whatever permutation the solver returns, after a shrinking tick the
      tracker has one slot per point; the surviving slots are exactly those
      not deleted, in their original order, and keep their ids (still
      distinct) and older frames; each freshness count is the old one plus 1. */
  lemma ShrinkStepKeepsSurvivors(s: State, xs: seq<int>, ys: seq<int>, a: seq<int>)
    requires Valid(s) && !IsFresh(s) && 0 < |xs| == |ys| < |s.dataX[0]| && IsPermutation(a, |s.ids|)
    ensures var t := ShrinkWith(s, xs, ys, a);
            var n := |s.ids|;
            var del := DelRows(a, n, n - |xs|);
            var kept := Kept(n, del);
      && Valid(t) && Shaped(t, |xs|) && t.assignment == a
      && |kept| == |xs| && StrictlyAscending(kept) && IndicesIn(kept, n)
      && (forall i :: 0 <= i < n ==> (i in kept <==> i !in del))
      && t.ids == Pick(s.ids, kept)
      && (forall k :: 0 <= k < |xs| ==> t.good[k] == s.good[kept[k]] + 1)
      && t.dataX[0] == Pick(s.dataX[1], kept) && t.dataX[1] == Pick(s.dataX[2], kept)
      && t.dataY[0] == Pick(s.dataY[1], kept) && t.dataY[1] == Pick(s.dataY[2], kept)
  {
    var t := ShrinkWith(s, xs, ys, a);
    var n := |s.ids|;
    var m := |xs|;
    var del := DelRows(a, n, n - m);
    var kept := Kept(n, del);
    ShrinkFramesEffects(s.dataX, n, m, a, xs, Padded(xs, n));
    ShrinkFramesEffects(s.dataY, n, m, a, ys, Padded(ys, n));
    RemovedKeepsOthersInOrder(s.ids, del);
    RemovedKeepsOthersInOrder(s.good, del);
    assert Shaped(t, m);
    assert Distinct(t.ids) by {
      forall i, j | 0 <= i < j < m ensures t.ids[i] != t.ids[j] {
        assert kept[i] < kept[j];
      }
    }
    assert forall i :: 0 <= i < m ==> t.ids[i] >= 0 && t.good[i] >= 1 by {
      forall i | 0 <= i < m ensures t.ids[i] >= 0 && t.good[i] >= 1 {
        assert t.ids[i] == s.ids[kept[i]];
        assert t.good[i] == s.good[kept[i]] + 1;
      }
    }
  }

  /** Whatever permutation the solver returns, after a shrinking tick the
      newest frame has one entry per point, and surviving slot k holds, on
      both axes, the observation j matched to it. */
  lemma ShrinkStepStoresBatch(s: State, xs: seq<int>, ys: seq<int>, a: seq<int>)
    requires Valid(s) && !IsFresh(s) && 0 < |xs| == |ys| < |s.dataX[0]| && IsPermutation(a, |s.ids|)
    ensures |ShrinkWith(s, xs, ys, a).dataX| == 3 && |ShrinkWith(s, xs, ys, a).dataY| == 3
    ensures |ShrinkWith(s, xs, ys, a).dataX[2]| == |xs| && |ShrinkWith(s, xs, ys, a).dataY[2]| == |xs|
    ensures |Kept(|s.ids|, DelRows(a, |s.ids|, |s.ids| - |xs|))| == |xs|
    ensures forall k, j :: 0 <= k < |xs| && 0 <= j < |xs| && a[j] == Kept(|s.ids|, DelRows(a, |s.ids|, |s.ids| - |xs|))[k] ==>
              ShrinkWith(s, xs, ys, a).dataX[2][k] == xs[j] && ShrinkWith(s, xs, ys, a).dataY[2][k] == ys[j]
  {
    var n := |s.ids|;
    var m := |xs|;
    ShrinkFramesEffects(s.dataX, n, m, a, xs, Padded(xs, n));
    ShrinkFramesEffects(s.dataY, n, m, a, ys, Padded(ys, n));
  }

  /** After a shrinking tick the newest frame holds exactly the batch's
      values on each axis: no padding value is left over. */
  lemma ShrinkStepDropsPadding(s: State, xs: seq<int>, ys: seq<int>, a: seq<int>)
    requires Valid(s) && !IsFresh(s) && 0 < |xs| == |ys| < |s.dataX[0]| && IsPermutation(a, |s.ids|)
    ensures |ShrinkWith(s, xs, ys, a).dataX| == 3 && |ShrinkWith(s, xs, ys, a).dataY| == 3
    ensures multiset(ShrinkWith(s, xs, ys, a).dataX[2]) == multiset(xs)
    ensures multiset(ShrinkWith(s, xs, ys, a).dataY[2]) == multiset(ys)
  {
    var n := |s.ids|;
    ShrinkFramesEffects(s.dataX, n, |xs|, a, xs, Padded(xs, n));
    ShrinkFramesEffects(s.dataY, n, |xs|, a, ys, Padded(ys, n));
  }

  lemma {:induction false} HitsMembers(a: seq<int>, lo: int, dim: nat, count: nat)
    requires IsPermutation(a, dim) && count <= dim
    ensures Distinct(Hits(a, lo, count))
    ensures forall k :: 0 <= k < |Hits(a, lo, count)| ==>
              lo <= Hits(a, lo, count)[k] && exists i :: 0 <= i < count && a[i] == Hits(a, lo, count)[k]
    ensures forall i :: 0 <= i < count && a[i] >= lo ==> a[i] in Hits(a, lo, count)
  {
    if count > 0 {
      HitsMembers(a, lo, dim, count - 1);
      var h := Hits(a, lo, count - 1);
      if a[count - 1] >= lo {
        assert a[count - 1] !in h;
        assert Hits(a, lo, count) == h + [a[count - 1]];
      }
    }
  }

  /** With a permutation of 0..dim-1, exactly dim-lo rows are matched to a
      slot at or above `lo`, and the slots they are matched to are distinct. */
  lemma HitsOfPermutation(a: seq<int>, lo: nat, dim: nat)
    requires IsPermutation(a, dim) && lo <= dim
    ensures |Hits(a, lo, dim)| == dim - lo
    ensures Distinct(Hits(a, lo, dim)) && IndicesIn(Hits(a, lo, dim), dim)
    ensures forall k :: 0 <= k < |Hits(a, lo, dim)| ==> Hits(a, lo, dim)[k] >= lo
  {
    HitsMembers(a, lo, dim, dim);
    HitsInRange(a, lo, dim, dim);
    var h := Hits(a, lo, dim);
    var span := Span(lo, dim);
    forall x | x in span ensures x in h {
      assert x in a;
      var i :| 0 <= i < dim && a[i] == x;
    }
    forall x | x in h ensures x in span {
      var k :| 0 <= k < |h| && h[k] == x;
      assert span[x - lo] == x;
    }
    assert (set x | x in h) == (set x | x in span);
    DistinctCard(h);
    DistinctCard(span);
  }

  /** The grow path's frames: the old slots of the former frames 1 and 2, the
      backfill columns after them, and the arranged batch as newest frame. */
  lemma GrowFramesEffects(h: seq<seq<int>>, cols: seq<int>, newest: seq<int>)
    requires |h| == 3
    ensures GrowFrames(h, cols, newest) == [h[1] + cols, h[2] + cols, newest]
  {
    PushFrameOfThree(seq(3, k requires 0 <= k < 3 => h[k] + cols), newest);
  }

  /** Whatever permutation the solver returns, a growing tick keeps the
      invariant with one slot per point, and exactly DIFF rows were matched
      to new slots (the source's warning about a different number never
      fires). */
  lemma GrowStepSlots(s: State, xs: seq<int>, ys: seq<int>, a: seq<int>)
    requires Valid(s) && !IsFresh(s) && |xs| == |ys| > |s.dataX[0]| && IsPermutation(a, |xs|)
    ensures Valid(GrowWith(s, xs, ys, a)) && Shaped(GrowWith(s, xs, ys, a), |xs|)
    ensures GrowWith(s, xs, ys, a).assignment == a
    ensures |Hits(a, |s.ids|, |xs|)| == |xs| - |s.ids|
  {
    GrowStepFrameShape(s, xs, ys, a);
    GrowStepIds(s, xs, ys, a);
    GrowStepCounts(s, xs, ys, a);
  }

  lemma GrowStepFrameShape(s: State, xs: seq<int>, ys: seq<int>, a: seq<int>)
    requires Valid(s) && !IsFresh(s) && |xs| == |ys| > |s.dataX[0]| && IsPermutation(a, |xs|)
    ensures |Hits(a, |s.ids|, |xs|)| == |xs| - |s.ids|
    ensures var t := GrowWith(s, xs, ys, a);
      && |t.dataX| == 3 && |t.dataX[0]| == |xs| && |t.dataX[1]| == |xs| && |t.dataX[2]| == |xs|
      && |t.dataY| == 3 && |t.dataY[0]| == |xs| && |t.dataY[1]| == |xs| && |t.dataY[2]| == |xs|
  {
    var n := |s.ids|;
    var dim := |xs|;
    var hits := Hits(a, n, dim);
    HitsOfPermutation(a, n, dim);
    GrowWithFrames(s, xs, ys, a, hits);
    GrowFramesShape(s.dataX, Pick(xs, hits), Arranged(dim, a, xs), dim);
    GrowFramesShape(s.dataY, Pick(ys, hits), Arranged(dim, a, ys), dim);
  }

  /** The frames of a growing tick, written out. */
  lemma GrowWithFrames(s: State, xs: seq<int>, ys: seq<int>, a: seq<int>, hits: seq<int>)
    requires Valid(s) && !IsFresh(s) && |xs| == |ys| > |s.dataX[0]| && IsPermutation(a, |xs|)
    requires hits == Hits(a, |s.dataX[0]|, |xs|) && IndicesIn(hits, |xs|)
    ensures GrowWith(s, xs, ys, a).dataX == GrowFrames(s.dataX, Pick(xs, hits), Arranged(|xs|, a, xs))
    ensures GrowWith(s, xs, ys, a).dataY == GrowFrames(s.dataY, Pick(ys, hits), Arranged(|xs|, a, ys))
  {
  }

  lemma GrowFramesShape(h: seq<seq<int>>, cols: seq<int>, newest: seq<int>, dim: nat)
    requires |h| == 3 && |h[1]| + |cols| == dim && |h[2]| + |cols| == dim && |newest| == dim
    ensures var g := GrowFrames(h, cols, newest);
      |g| == 3 && |g[0]| == dim && |g[1]| == dim && |g[2]| == dim
  {
    GrowFramesEffects(h, cols, newest);
  }

  /** After a growing tick old slots keep their ids in place and DIFF fresh
      ids (ascending, unused, the smallest free: see NewIdsAreSmallestFree)
      are appended; all ids stay distinct and non-negative. */
  lemma GrowStepIds(s: State, xs: seq<int>, ys: seq<int>, a: seq<int>)
    requires Valid(s) && !IsFresh(s) && |xs| == |ys| > |s.dataX[0]| && IsPermutation(a, |xs|)
    ensures GrowWith(s, xs, ys, a).ids == s.ids + NewIds(s.ids, |xs| - |s.ids|)
    ensures |GrowWith(s, xs, ys, a).ids| == |xs|
    ensures GrowWith(s, xs, ys, a).ids[..|s.ids|] == s.ids
    ensures GrowWith(s, xs, ys, a).ids[|s.ids|..] == NewIds(s.ids, |xs| - |s.ids|)
    ensures Distinct(GrowWith(s, xs, ys, a).ids)
    ensures forall i :: 0 <= i < |xs| ==> GrowWith(s, xs, ys, a).ids[i] >= 0
  {
    var newIds := NewIds(s.ids, |xs| - |s.ids|);
    NewIdsAreSmallestFree(s.ids, |xs| - |s.ids|);
    AppendFreshIds(s.ids, newIds);
    assert forall i :: 0 <= i < |xs| ==> (s.ids + newIds)[i] >= 0 by {
      forall i | 0 <= i < |xs| ensures (s.ids + newIds)[i] >= 0 {
        if i >= |s.ids| {
          assert (s.ids + newIds)[i] == newIds[i - |s.ids|];
        }
      }
    }
  }

  /** After a growing tick the old slots' counts have gained 1 and the new
      slots count 1. */
  lemma GrowStepCounts(s: State, xs: seq<int>, ys: seq<int>, a: seq<int>)
    requires Valid(s) && !IsFresh(s) && |xs| == |ys| > |s.dataX[0]| && IsPermutation(a, |xs|)
    ensures |GrowWith(s, xs, ys, a).good| == |xs|
    ensures forall k :: 0 <= k < |s.ids| ==> GrowWith(s, xs, ys, a).good[k] == s.good[k] + 1
    ensures forall k :: |s.ids| <= k < |xs| ==> GrowWith(s, xs, ys, a).good[k] == 1
  {
  }

  /** Appending ascending ids that are not yet in use keeps the ids distinct
      and non-negative. */
  lemma AppendFreshIds(ids: seq<int>, newIds: seq<int>)
    requires Distinct(ids) && StrictlyAscending(newIds)
    requires forall k :: 0 <= k < |newIds| ==> newIds[k] >= 0 && newIds[k] !in ids
    ensures Distinct(ids + newIds)
  {
    var all := ids + newIds;
    forall i, j | 0 <= i < j < |all| ensures all[i] != all[j] {
      if j >= |ids| {
        assert all[j] == newIds[j - |ids|];
        if i < |ids| {
          assert all[i] in ids;
        }
      }
    }
  }

  /** Whatever permutation the solver returns, after a growing tick the
      former frames 1 and 2 are frames 0 and 1 for the old slots, and the
      newest frame holds observation i in slot a[i] on both axes, hence
      exactly the batch's values. */
  lemma GrowStepFrames(s: State, xs: seq<int>, ys: seq<int>, a: seq<int>)
    requires Valid(s) && !IsFresh(s) && |xs| == |ys| > |s.dataX[0]| && IsPermutation(a, |xs|)
    ensures var t := GrowWith(s, xs, ys, a);
            var n := |s.ids|;
      && |t.dataX| == 3 && |t.dataY| == 3
      && |t.dataX[0]| >= n && |t.dataX[1]| >= n && |t.dataY[0]| >= n && |t.dataY[1]| >= n
      && t.dataX[0][..n] == s.dataX[1] && t.dataX[1][..n] == s.dataX[2]
      && t.dataY[0][..n] == s.dataY[1] && t.dataY[1][..n] == s.dataY[2]
      && (forall i :: 0 <= i < |xs| ==> t.dataX[2][a[i]] == xs[i] && t.dataY[2][a[i]] == ys[i])
      && multiset(t.dataX[2]) == multiset(xs) && multiset(t.dataY[2]) == multiset(ys)
  {
    var n := |s.ids|;
    var dim := |xs|;
    var hits := Hits(a, n, dim);
    HitsInRange(a, n, dim, dim);
    GrowFramesEffects(s.dataX, Pick(xs, hits), Arranged(dim, a, xs));
    GrowFramesEffects(s.dataY, Pick(ys, hits), Arranged(dim, a, ys));
    ArrangedIsPermuted(dim, a, xs);
    ArrangedIsPermuted(dim, a, ys);
    assert xs[..dim] == xs && ys[..dim] == ys;
    assert (s.dataX[1] + Pick(xs, hits))[..n] == s.dataX[1];
    assert (s.dataX[2] + Pick(xs, hits))[..n] == s.dataX[2];
    assert (s.dataY[1] + Pick(ys, hits))[..n] == s.dataY[1];
    assert (s.dataY[2] + Pick(ys, hits))[..n] == s.dataY[2];
  }

  /** Every tick keeps the invariant; an accepted batch leaves one slot per
      point in every frame and vector, and a rejected batch (empty, or with
      unequal coordinate counts) changes nothing. */
  lemma TickKeepsInvariant(s: State, xs: seq<int>, ys: seq<int>, c: Collaborators)
    requires Valid(s)
    ensures Valid(Tick(s, xs, ys, c))
    ensures 0 < |xs| == |ys| ==> Shaped(Tick(s, xs, ys, c), |xs|)
    ensures |xs| == 0 || |xs| != |ys| ==> Tick(s, xs, ys, c) == s
  {
    if 0 < |xs| == |ys| {
      if IsFresh(s) {
        FirstStepEffects(s, xs, ys);
      } else if |s.dataX[0]| < |xs| {
        var d := |xs| - |s.dataX[0]|;
        GrowStepSlots(s, xs, ys, Assignment(|xs|, PadFrames(s.dataX, d), PadFrames(s.dataY, d), s.good + Repeat(1, d), xs, ys, c));
      } else if |s.dataX[0]| > |xs| {
        var n := |s.dataX[0]|;
        ShrinkStepKeepsSurvivors(s, xs, ys, Assignment(n, s.dataX, s.dataY, s.good, Padded(xs, n), Padded(ys, n), c));
      } else {
        var n := |s.dataX[0]|;
        EqualStepEffects(s, xs, ys, Assignment(n, s.dataX, s.dataY, s.good, xs, ys, c));
      }
    }
  }

  /** getID returns -1 exactly when no slot's newest position is (x, y), and
      otherwise the id of the first such slot. */
  lemma {:induction false} IdFromFindsFirst(s: State, x: int, y: int, i: nat)
    requires Valid(s) && !IsFresh(s) && i <= |s.ids|
    ensures IdFrom(s, x, y, i) == -1 <==>
              forall j :: i <= j < |s.ids| ==> !(s.dataX[2][j] == x && s.dataY[2][j] == y)
    ensures IdFrom(s, x, y, i) != -1 ==>
              exists j :: i <= j < |s.ids| && s.dataX[2][j] == x && s.dataY[2][j] == y && IdFrom(s, x, y, i) == s.ids[j] &&
                forall k :: i <= k < j ==> !(s.dataX[2][k] == x && s.dataY[2][k] == y)
    decreases |s.ids| - i
  {
    if i < |s.ids| && !(s.dataX[2][i] == x && s.dataY[2][i] == y) {
      IdFromFindsFirst(s, x, y, i + 1);
    }
  }

  /** When exactly one slot's newest position is (x, y), getID returns that
      slot's id. */
  lemma IdOfUniquePosition(s: State, x: int, y: int, slot: nat)
    requires Valid(s) && !IsFresh(s) && slot < |s.ids|
    requires s.dataX[2][slot] == x && s.dataY[2][slot] == y
    requires forall i :: 0 <= i < |s.ids| && s.dataX[2][i] == x && s.dataY[2][i] == y ==> i == slot
    ensures IdOf(s, x, y) == s.ids[slot]
  {
    IdFromFindsFirst(s, x, y, 0);
  }

  /** After an equal-size tick, looking up a point of the batch whose
      position occurs once in the batch yields the id of the slot it was
      assigned to. */
  lemma EqualStepIdLookup(s: State, xs: seq<int>, ys: seq<int>, a: seq<int>, j: nat)
    requires Valid(s) && !IsFresh(s) && |xs| == |ys| == |s.dataX[0]| && IsPermutation(a, |xs|) && j < |xs|
    requires forall i :: 0 <= i < |xs| && xs[i] == xs[j] && ys[i] == ys[j] ==> i == j
    ensures Valid(EqualWith(s, xs, ys, a))
    ensures IdOf(EqualWith(s, xs, ys, a), xs[j], ys[j]) == s.ids[a[j]]
  {
    var t := EqualWith(s, xs, ys, a);
    EqualStepEffects(s, xs, ys, a);
    forall i | 0 <= i < |t.ids| && t.dataX[2][i] == xs[j] && t.dataY[2][i] == ys[j] ensures i == a[j] {
      assert i in a;
      var q :| 0 <= q < |xs| && a[q] == i;
    }
    IdOfUniquePosition(t, xs[j], ys[j], a[j]);
  }
}

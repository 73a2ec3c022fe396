/** What a tick of PositionTracker<int> (ICLBlob/src/PositionTracker.cpp)
    actually reads of its history. A slot's prediction reads the newest frame
    always, the middle frame only when its freshness count is not 1, and the
    oldest frame only when its count is neither 1 nor 2. Two states that agree
    on those entries, on both axes, are indistinguishable: every later tick
    computes the same matching and getID gives the same answers. In
    particular the values the grow path backfills into the new slots' older
    frames are never read before they are popped. */
module TrackerReadable {
  import opened Sequences
  import opened TrackerVectors
  import opened TrackerPrediction
  import opened TrackerModel

  /** Two three-frame histories of the same slots agree on every entry a
      prediction under the counts `good` reads. */
  ghost predicate FramesAgree(h: seq<seq<int>>, k: seq<seq<int>>, good: seq<int>)
  {
    && |h| == 3 && |k| == 3
    && |h[0]| == |good| && |h[1]| == |good| && |h[2]| == |good|
    && |k[0]| == |good| && |k[1]| == |good| && |k[2]| == |good|
    && (forall y :: 0 <= y < |good| ==> h[2][y] == k[2][y])
    && (forall y :: 0 <= y < |good| && good[y] != 1 ==> h[1][y] == k[1][y])
    && (forall y :: 0 <= y < |good| && good[y] != 1 && good[y] != 2 ==> h[0][y] == k[0][y])
  }

  /** Two tracker states that differ at most in history entries no
      prediction reads: same ids, counts and last assignment, and frames that
      agree on both axes wherever the counts allow a read. */
  ghost predicate AgreeOnReadable(s: State, t: State)
  {
    && Valid(s) && Valid(t)
    && s.ids == t.ids && s.good == t.good && s.assignment == t.assignment
    && (IsFresh(s) ==> s == t)
    && (!IsFresh(s) ==> FramesAgree(s.dataX, t.dataX, s.good) && FramesAgree(s.dataY, t.dataY, s.good))
  }

  /** One call of pushData(xs, ys). */
  datatype Batch = Batch(xs: seq<int>, ys: seq<int>)

  /** The state after pushing `batches` one after the other. */
  function Ticks(s: State, batches: seq<Batch>, c: Collaborators): (r: State)
    requires Valid(s)
    ensures Valid(r)
    decreases |batches|
  {
    if |batches| == 0 then s
    else
      TickKeepsInvariant(s, batches[0].xs, batches[0].ys, c);
      Ticks(Tick(s, batches[0].xs, batches[0].ys, c), batches[1..], c)
  }

  /** Histories that agree on what the counts allow to be read produce the
      same matching, on both axes. */
  lemma AgreeingFramesMatchAlike(dim: nat, hX: seq<seq<int>>, kX: seq<seq<int>>, hY: seq<seq<int>>, kY: seq<seq<int>>,
                                 good: seq<int>, obsX: seq<int>, obsY: seq<int>, c: Collaborators)
    requires |good| == dim && |obsX| == dim && |obsY| == dim
    requires FramesAgree(hX, kX, good) && FramesAgree(hY, kY, good)
    ensures Assignment(dim, hX, hY, good, obsX, obsY, c) == Assignment(dim, kX, kY, good, obsX, obsY, c)
  {
    PredictionReadsOnlyFreshFrames(dim, hX, kX, good, c.ex);
    PredictionReadsOnlyFreshFrames(dim, hY, kY, good, c.ex);
  }

  /** Padding every frame with BLIND_VALUE, and counting the padded slots as
      seen once, keeps the agreement. */
  lemma PadFramesAgree(h: seq<seq<int>>, k: seq<seq<int>>, good: seq<int>, d: nat)
    requires FramesAgree(h, k, good)
    ensures FramesAgree(PadFrames(h, d), PadFrames(k, d), good + Repeat(1, d))
  {
    var n := |good|;
    var g := good + Repeat(1, d);
    forall y | 0 <= y < n + d
      ensures PadFrames(h, d)[2][y] == PadFrames(k, d)[2][y]
      ensures g[y] != 1 ==> PadFrames(h, d)[1][y] == PadFrames(k, d)[1][y]
      ensures g[y] != 1 && g[y] != 2 ==> PadFrames(h, d)[0][y] == PadFrames(k, d)[0][y]
    {
      if y >= n {
        assert g[y] == 1;
        assert PadFrames(h, d)[2][y] == BLIND_VALUE == PadFrames(k, d)[2][y];
      } else {
        assert g[y] == good[y];
      }
    }
  }

  /** An equal-size tick keeps the agreement and computes the same matching. */
  lemma EqualStepAgree(s: State, t: State, xs: seq<int>, ys: seq<int>, c: Collaborators)
    requires AgreeOnReadable(s, t) && !IsFresh(s) && |xs| == |ys| == |s.dataX[0]|
    ensures !IsFresh(t) && |xs| == |ys| == |t.dataX[0]|
    ensures EqualStep(s, xs, ys, c).assignment == EqualStep(t, xs, ys, c).assignment
    ensures AgreeOnReadable(EqualStep(s, xs, ys, c), EqualStep(t, xs, ys, c))
  {
    var n := |xs|;
    var a := Assignment(n, s.dataX, s.dataY, s.good, xs, ys, c);
    AgreeingFramesMatchAlike(n, s.dataX, t.dataX, s.dataY, t.dataY, s.good, xs, ys, c);
    EqualWithAgree(s, t, xs, ys, a);
  }

  lemma EqualWithAgree(s: State, t: State, xs: seq<int>, ys: seq<int>, a: seq<int>)
    requires AgreeOnReadable(s, t) && !IsFresh(s) && |xs| == |ys| == |s.dataX[0]| && IsPermutation(a, |xs|)
    ensures !IsFresh(t) && |xs| == |ys| == |t.dataX[0]|
    ensures AgreeOnReadable(EqualWith(s, xs, ys, a), EqualWith(t, xs, ys, a))
  {
    var s' := EqualWith(s, xs, ys, a);
    var t' := EqualWith(t, xs, ys, a);
    EqualStepEffects(s, xs, ys, a);
    EqualStepEffects(t, xs, ys, a);
    PushFrameOfThree(s.dataX, Arranged(|xs|, a, xs));
    PushFrameOfThree(t.dataX, Arranged(|xs|, a, xs));
    PushFrameOfThree(s.dataY, Arranged(|xs|, a, ys));
    PushFrameOfThree(t.dataY, Arranged(|xs|, a, ys));
    assert s'.good == t'.good;
  }

  /** A shrinking tick keeps the agreement and computes the same matching. */
  lemma ShrinkStepAgree(s: State, t: State, xs: seq<int>, ys: seq<int>, c: Collaborators)
    requires AgreeOnReadable(s, t) && !IsFresh(s) && 0 < |xs| == |ys| < |s.dataX[0]|
    ensures !IsFresh(t) && |xs| == |ys| < |t.dataX[0]|
    ensures ShrinkStep(s, xs, ys, c).assignment == ShrinkStep(t, xs, ys, c).assignment
    ensures AgreeOnReadable(ShrinkStep(s, xs, ys, c), ShrinkStep(t, xs, ys, c))
  {
    var n := |s.dataX[0]|;
    var a := Assignment(n, s.dataX, s.dataY, s.good, Padded(xs, n), Padded(ys, n), c);
    AgreeingFramesMatchAlike(n, s.dataX, t.dataX, s.dataY, t.dataY, s.good, Padded(xs, n), Padded(ys, n), c);
    ShrinkWithAgree(s, t, xs, ys, a);
  }

  lemma ShrinkWithAgree(s: State, t: State, xs: seq<int>, ys: seq<int>, a: seq<int>)
    requires AgreeOnReadable(s, t) && !IsFresh(s) && 0 < |xs| == |ys| < |s.dataX[0]| && IsPermutation(a, |s.ids|)
    ensures !IsFresh(t) && |xs| == |ys| < |t.dataX[0]|
    ensures AgreeOnReadable(ShrinkWith(s, xs, ys, a), ShrinkWith(t, xs, ys, a))
  {
    var n := |s.ids|;
    var m := |xs|;
    var s' := ShrinkWith(s, xs, ys, a);
    var t' := ShrinkWith(t, xs, ys, a);
    var kept := Kept(n, DelRows(a, n, n - m));
    ShrinkStepKeepsSurvivors(s, xs, ys, a);
    ShrinkStepKeepsSurvivors(t, xs, ys, a);
    ShrinkNewestAlike(s, t, xs, ys, a);
    SurvivorsAgree(s.dataX, t.dataX, s.good, kept, s'.dataX, t'.dataX, s'.good);
    SurvivorsAgree(s.dataY, t.dataY, s.good, kept, s'.dataY, t'.dataY, s'.good);
  }

  /** Keeping the slots `kept` of the two older frames, shifted down one
      frame, with every kept count raised by 1, keeps the agreement. */
  lemma SurvivorsAgree(h: seq<seq<int>>, k: seq<seq<int>>, good: seq<int>, kept: seq<int>,
                       h': seq<seq<int>>, k': seq<seq<int>>, good': seq<int>)
    requires FramesAgree(h, k, good) && IndicesIn(kept, |good|)
    requires |h'| == 3 && |k'| == 3 && |good'| == |kept| && |h'[2]| == |kept| && h'[2] == k'[2]
    requires h'[0] == Pick(h[1], kept) && h'[1] == Pick(h[2], kept)
    requires k'[0] == Pick(k[1], kept) && k'[1] == Pick(k[2], kept)
    requires forall i :: 0 <= i < |kept| ==> good'[i] == good[kept[i]] + 1
    ensures FramesAgree(h', k', good')
  {
    forall i | 0 <= i < |kept|
      ensures h'[1][i] == k'[1][i]
      ensures good'[i] != 1 && good'[i] != 2 ==> h'[0][i] == k'[0][i]
    {
      assert h'[1][i] == h[2][kept[i]] && k'[1][i] == k[2][kept[i]];
      assert h'[0][i] == h[1][kept[i]] && k'[0][i] == k[1][kept[i]];
    }
  }

  /** The newest frame after a shrinking tick depends only on the batch and
      the matching. */
  lemma ShrinkNewestAlike(s: State, t: State, xs: seq<int>, ys: seq<int>, a: seq<int>)
    requires Valid(s) && Valid(t) && !IsFresh(s) && !IsFresh(t)
    requires |xs| == |ys| < |s.dataX[0]| == |t.dataX[0]| && IsPermutation(a, |s.dataX[0]|)
    ensures ShrinkWith(s, xs, ys, a).dataX[2] == ShrinkWith(t, xs, ys, a).dataX[2]
    ensures ShrinkWith(s, xs, ys, a).dataY[2] == ShrinkWith(t, xs, ys, a).dataY[2]
  {
    var n := |s.dataX[0]|;
    var del := DelRows(a, n, n - |xs|);
    PushFrameOfThree(s.dataX, Arranged(n, a, Padded(xs, n)));
    PushFrameOfThree(t.dataX, Arranged(n, a, Padded(xs, n)));
    PushFrameOfThree(s.dataY, Arranged(n, a, Padded(ys, n)));
    PushFrameOfThree(t.dataY, Arranged(n, a, Padded(ys, n)));
  }

  /** A growing tick keeps the agreement and computes the same matching. */
  lemma GrowStepAgree(s: State, t: State, xs: seq<int>, ys: seq<int>, c: Collaborators)
    requires AgreeOnReadable(s, t) && !IsFresh(s) && |xs| == |ys| > |s.dataX[0]|
    ensures !IsFresh(t) && |xs| == |ys| > |t.dataX[0]|
    ensures GrowStep(s, xs, ys, c).assignment == GrowStep(t, xs, ys, c).assignment
    ensures AgreeOnReadable(GrowStep(s, xs, ys, c), GrowStep(t, xs, ys, c))
  {
    var d := |xs| - |s.dataX[0]|;
    var g := s.good + Repeat(1, d);
    var a := Assignment(|xs|, PadFrames(s.dataX, d), PadFrames(s.dataY, d), g, xs, ys, c);
    PadFramesAgree(s.dataX, t.dataX, s.good, d);
    PadFramesAgree(s.dataY, t.dataY, s.good, d);
    AgreeingFramesMatchAlike(|xs|, PadFrames(s.dataX, d), PadFrames(t.dataX, d), PadFrames(s.dataY, d), PadFrames(t.dataY, d),
                             g, xs, ys, c);
    GrowWithAgree(s, t, xs, ys, a);
  }

  lemma GrowWithAgree(s: State, t: State, xs: seq<int>, ys: seq<int>, a: seq<int>)
    requires AgreeOnReadable(s, t) && !IsFresh(s) && |xs| == |ys| > |s.dataX[0]| && IsPermutation(a, |xs|)
    ensures !IsFresh(t) && |xs| == |ys| > |t.dataX[0]|
    ensures AgreeOnReadable(GrowWith(s, xs, ys, a), GrowWith(t, xs, ys, a))
  {
    var n := |s.ids|;
    var dim := |xs|;
    var s' := GrowWith(s, xs, ys, a);
    var t' := GrowWith(t, xs, ys, a);
    var hits := Hits(a, n, dim);
    HitsInRange(a, n, dim, dim);
    GrowStepSlots(s, xs, ys, a);
    GrowStepSlots(t, xs, ys, a);
    GrowStepIds(s, xs, ys, a);
    GrowStepIds(t, xs, ys, a);
    GrowStepCounts(s, xs, ys, a);
    GrowStepCounts(t, xs, ys, a);
    GrowWithFrames(s, xs, ys, a, hits);
    GrowWithFrames(t, xs, ys, a, hits);
    GrowFramesEffects(s.dataX, Pick(xs, hits), Arranged(dim, a, xs));
    GrowFramesEffects(t.dataX, Pick(xs, hits), Arranged(dim, a, xs));
    GrowFramesEffects(s.dataY, Pick(ys, hits), Arranged(dim, a, ys));
    GrowFramesEffects(t.dataY, Pick(ys, hits), Arranged(dim, a, ys));
    assert s'.good == t'.good;
    forall y | 0 <= y < dim
      ensures s'.dataX[1][y] == t'.dataX[1][y] && s'.dataY[1][y] == t'.dataY[1][y]
      ensures s'.good[y] != 1 && s'.good[y] != 2 ==> s'.dataX[0][y] == t'.dataX[0][y] && s'.dataY[0][y] == t'.dataY[0][y]
    {
      if y < n {
        assert s'.good[y] == s.good[y] + 1;
      }
    }
  }

  /** One tick of pushData, on any path (including a rejected batch), keeps
      the agreement and computes the same matching. */
  lemma TickAgree(s: State, t: State, xs: seq<int>, ys: seq<int>, c: Collaborators)
    requires AgreeOnReadable(s, t)
    ensures Tick(s, xs, ys, c).assignment == Tick(t, xs, ys, c).assignment
    ensures AgreeOnReadable(Tick(s, xs, ys, c), Tick(t, xs, ys, c))
  {
    TickKeepsInvariant(s, xs, ys, c);
    TickKeepsInvariant(t, xs, ys, c);
    if 0 < |xs| == |ys| && !IsFresh(s) {
      if |s.dataX[0]| < |xs| {
        GrowStepAgree(s, t, xs, ys, c);
      } else if |s.dataX[0]| > |xs| {
        ShrinkStepAgree(s, t, xs, ys, c);
      } else {
        EqualStepAgree(s, t, xs, ys, c);
      }
    }
  }

  /** Agreeing states stay agreeing through any sequence of later ticks, and
      every one of those ticks computes the same matching. */
  lemma {:induction false} TicksAgree(s: State, t: State, batches: seq<Batch>, c: Collaborators)
    requires AgreeOnReadable(s, t)
    ensures Ticks(s, batches, c).assignment == Ticks(t, batches, c).assignment
    ensures AgreeOnReadable(Ticks(s, batches, c), Ticks(t, batches, c))
    decreases |batches|
  {
    if |batches| > 0 {
      TickAgree(s, t, batches[0].xs, batches[0].ys, c);
      TicksAgree(Tick(s, batches[0].xs, batches[0].ys, c), Tick(t, batches[0].xs, batches[0].ys, c), batches[1..], c);
    }
  }

  /** getID reads only the newest frame and the ids, so agreeing states
      answer every query alike. */
  lemma {:induction false} IdFromAgree(s: State, t: State, x: int, y: int, i: nat)
    requires AgreeOnReadable(s, t) && !IsFresh(s) && i <= |s.ids|
    ensures !IsFresh(t) && IdFrom(s, x, y, i) == IdFrom(t, x, y, i)
    decreases |s.ids| - i
  {
    if i < |s.ids| {
      IdFromAgree(s, t, x, y, i + 1);
    }
  }

  /** The values the grow path backfills into the new slots' frames 0 and 1
      (`newData[assignment[x]]`, PositionTracker.cpp:200-216) are never read:
      replacing them by anything, on either axis, gives a state that agrees
      with the real one, so every later tick computes the same matching and
      getID answers alike, until those entries are popped. */
  lemma GrowBackfillIsUnread(s: State, xs: seq<int>, ys: seq<int>, a: seq<int>,
                             oX: seq<seq<int>>, oY: seq<seq<int>>, c: Collaborators, later: seq<Batch>)
    requires Valid(s) && !IsFresh(s) && |xs| == |ys| > |s.dataX[0]| && IsPermutation(a, |xs|)
    requires |oX| == 3 && |oX[0]| == |xs| && |oX[1]| == |xs| && oX[2] == GrowWith(s, xs, ys, a).dataX[2]
    requires |oY| == 3 && |oY[0]| == |xs| && |oY[1]| == |xs| && oY[2] == GrowWith(s, xs, ys, a).dataY[2]
    requires oX[0][..|s.ids|] == s.dataX[1] && oX[1][..|s.ids|] == s.dataX[2]
    requires oY[0][..|s.ids|] == s.dataY[1] && oY[1][..|s.ids|] == s.dataY[2]
    ensures Valid(GrowWith(s, xs, ys, a))
    ensures AgreeOnReadable(GrowWith(s, xs, ys, a).(dataX := oX, dataY := oY), GrowWith(s, xs, ys, a))
    ensures Ticks(GrowWith(s, xs, ys, a).(dataX := oX, dataY := oY), later, c).assignment
         == Ticks(GrowWith(s, xs, ys, a), later, c).assignment
  {
    var g := GrowWith(s, xs, ys, a);
    var o := g.(dataX := oX, dataY := oY);
    var n := |s.ids|;
    GrowStepSlots(s, xs, ys, a);
    GrowStepCounts(s, xs, ys, a);
    GrowStepFrames(s, xs, ys, a);
    forall y | 0 <= y < n
      ensures oX[1][y] == g.dataX[1][y] && oX[0][y] == g.dataX[0][y]
      ensures oY[1][y] == g.dataY[1][y] && oY[0][y] == g.dataY[0][y]
    {
      assert oX[0][..n][y] == g.dataX[0][..n][y] && oX[1][..n][y] == g.dataX[1][..n][y];
      assert oY[0][..n][y] == g.dataY[0][..n][y] && oY[1][..n][y] == g.dataY[1][..n][y];
    }
    assert AgreeOnReadable(o, g);
    TicksAgree(o, g, later, c);
  }
}

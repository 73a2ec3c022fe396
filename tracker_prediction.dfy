/** Prediction and cost matrix of a tracker tick (ICLBlob/src/PositionTracker.cpp),
    and the contracts of the two collaborators the tick calls but whose code is
    not part of this model: Extrapolator<int,int>::predict and
    HungarianAlgorithm<int>::apply. */
module TrackerPrediction {
  import opened Sequences

  /** The two overloads of Extrapolator<int,int>::predict the tracker calls:
      from two samples (oldest first) and from three samples (oldest first). */
  datatype Extrapolator = Extrapolator(linear: (int, int) -> int, quadratic: (int, int, int) -> int)

  /** The cost of pairing a predicted position (px, py) with an observed
      position (ox, oy). In the source it is the Euclidean distance computed in
      floating point and cast back to the coordinate type; here it is any
      non-negative function of the two positions. */
  type Distance = (int, int, int, int) -> nat

  ghost predicate IsSquare(m: seq<seq<int>>)
  {
    forall i :: 0 <= i < |m| ==> |m[i]| == |m|
  }

  /** HungarianAlgorithm<int>::apply: for every square cost matrix of size
      `dim` it returns a permutation of 0..dim-1, entry `i` being the column
      (prediction) matched to row (observation) `i`. That the matching has
      minimal cost is not assumed. */
  type Solver = f: seq<seq<int>> -> seq<int> | forall m {:trigger IsSquare(m)} :: IsSquare(m) ==> IsPermutation(f(m), |m|)
    witness (m: seq<seq<int>>) => Iota(|m|)

  /** The collaborators of one tracker. */
  datatype Collaborators = Collaborators(ex: Extrapolator, dist: Distance, solve: Solver)

  /** At least three history frames, each covering slots 0..dim-1. */
  ghost predicate Frames(data: seq<seq<int>>, dim: nat)
  {
    |data| >= 3 && |data[0]| >= dim && |data[1]| >= dim && |data[2]| >= dim
  }

  /** The prediction for slot `y` whose freshness count is `g`. */
  function SlotPrediction(data: seq<seq<int>>, g: int, y: nat, ex: Extrapolator): int
    requires Frames(data, y + 1)
  {
    if g == 1 then data[2][y]
    else if g == 2 then ex.linear(data[1][y], data[2][y])
    else ex.quadratic(data[0][y], data[1][y], data[2][y])
  }

  /** What predict(dim, data, good) returns. */
  function Prediction(dim: nat, data: seq<seq<int>>, good: seq<int>, ex: Extrapolator): (pred: seq<int>)
    requires Frames(data, dim) && |good| >= dim
    ensures |pred| == dim
  {
    seq(dim, y requires 0 <= y < dim => SlotPrediction(data, good[y], y, ex))
  }

  /** predict (PositionTracker.cpp:119-132): one value per slot; a slot seen
      once is held, a slot seen twice is extrapolated from the two newest
      frames, any other count uses all three frames. */
  method Predict(dim: nat, data: seq<seq<int>>, good: seq<int>, ex: Extrapolator) returns (pred: seq<int>)
    requires Frames(data, dim) && |good| >= dim
    ensures pred == Prediction(dim, data, good, ex)
    ensures |pred| == dim
    ensures forall y :: 0 <= y < dim && good[y] == 1 ==> pred[y] == data[2][y]
    ensures forall y :: 0 <= y < dim && good[y] == 2 ==> pred[y] == ex.linear(data[1][y], data[2][y])
    ensures forall y :: 0 <= y < dim && good[y] != 1 && good[y] != 2 ==>
              pred[y] == ex.quadratic(data[0][y], data[1][y], data[2][y])
  {
    pred := [];
    for y := 0 to dim
      invariant |pred| == y
      invariant forall k :: 0 <= k < y ==> pred[k] == SlotPrediction(data, good[k], k, ex)
    {
      if good[y] == 1 {
        pred := pred + [data[2][y]];
      } else if good[y] == 2 {
        pred := pred + [ex.linear(data[1][y], data[2][y])];
      } else {
        pred := pred + [ex.quadratic(data[0][y], data[1][y], data[2][y])];
      }
    }
  }

  /** A slot's prediction reads frame 2 always, frame 1 only when its count
      is not 1, and frame 0 only when its count is neither 1 nor 2: histories
      that agree on what the counts allow to be read give the same prediction. */
  lemma PredictionReadsOnlyFreshFrames(dim: nat, a: seq<seq<int>>, b: seq<seq<int>>, good: seq<int>, ex: Extrapolator)
    requires Frames(a, dim) && Frames(b, dim) && |good| >= dim
    requires forall y :: 0 <= y < dim ==> a[2][y] == b[2][y]
    requires forall y :: 0 <= y < dim && good[y] != 1 ==> a[1][y] == b[1][y]
    requires forall y :: 0 <= y < dim && good[y] != 1 && good[y] != 2 ==> a[0][y] == b[0][y]
    ensures Prediction(dim, a, good, ex) == Prediction(dim, b, good, ex)
  {
    forall y | 0 <= y < dim
      ensures Prediction(dim, a, good, ex)[y] == Prediction(dim, b, good, ex)[y]
    {
    }
  }

  /** The matrix createDistMat(pred, obs) builds: row `i` is observation `i`,
      column `j` is prediction `j`. */
  function DistMat(predX: seq<int>, predY: seq<int>, obsX: seq<int>, obsY: seq<int>, dist: Distance): (m: seq<seq<int>>)
    requires |obsX| == |predX| && |predY| >= |predX| && |obsY| >= |predX|
    ensures |m| == |predX| && IsSquare(m)
  {
    var dim := |predX|;
    seq(dim, i requires 0 <= i < dim =>
      seq(dim, j requires 0 <= j < dim => dist(predX[j], predY[j], obsX[i], obsY[i]) as int))
  }

  /** createDistMat (PositionTracker.cpp:101-114): the predictions and the
      observations must be equally many; the result is a dim x dim matrix
      whose entry [i][j] is the cost of prediction j against observation i. */
  method CreateDistMat(predX: seq<int>, predY: seq<int>, obsX: seq<int>, obsY: seq<int>, dist: Distance)
    returns (m: seq<seq<int>>)
    requires |obsX| == |predX| && |predY| >= |predX| && |obsY| >= |predX|
    ensures m == DistMat(predX, predY, obsX, obsY, dist)
    ensures |m| == |predX|
    ensures forall i :: 0 <= i < |m| ==> |m[i]| == |m|
    ensures forall i, j :: 0 <= i < |m| && 0 <= j < |m| ==> m[i][j] == dist(predX[j], predY[j], obsX[i], obsY[i])
  {
    var dim := |predX|;
    m := seq(dim, _ => seq(dim, _ => 0));
    for i := 0 to dim
      invariant |m| == dim && forall r :: 0 <= r < dim ==> |m[r]| == dim
      invariant forall r, c :: 0 <= r < i && 0 <= c < dim ==> m[r][c] == dist(predX[c], predY[c], obsX[r], obsY[r])
    {
      for j := 0 to dim
        invariant |m| == dim && forall r :: 0 <= r < dim ==> |m[r]| == dim
        invariant forall r, c :: 0 <= r < i && 0 <= c < dim ==> m[r][c] == dist(predX[c], predY[c], obsX[r], obsY[r])
        invariant forall c :: 0 <= c < j ==> m[i][c] == dist(predX[c], predY[c], obsX[i], obsY[i])
      {
        m := m[i := m[i][j := dist(predX[j], predY[j], obsX[i], obsY[i])]];
      }
    }
    ghost var spec := DistMat(predX, predY, obsX, obsY, dist);
    assert forall i :: 0 <= i < dim ==> m[i] == spec[i];
  }
}

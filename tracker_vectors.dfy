/** The vector helpers of ICLBlob/src/PositionTracker.cpp that the tracker's
    tick is built from: row deletion (removeElemsFromVector), the re-ordering of
    a new batch by an assignment (the loop of push_and_rearrange_data) and the
    minting of fresh ids (get_n_new_ids). Each is a loop in the source; here
    each is a method proved equal to a specification function, and the
    properties the tracker relies on are lemmas about those functions. */
module TrackerVectors {
  import opened Sequences

  // ---------------------------------------------------------------------------
  // removeElemsFromVector
  // ---------------------------------------------------------------------------

  /** The index walk of removeElemsFromVector, from read position `vidx` with
      the next row to skip at `rows[r]`: while both are in range, an element
      whose index is not `rows[r]` is kept and one whose index is `rows[r]` is
      dropped (and `r` advances); once either runs out, the rest is kept. */
  function RemoveWalk(v: seq<int>, rows: seq<int>, r: nat, vidx: nat): seq<int>
    requires r <= |rows| && vidx <= |v|
    decreases |v| - vidx
  {
    if vidx < |v| && r < |rows| then
      if rows[r] != vidx then [v[vidx]] + RemoveWalk(v, rows, r, vidx + 1)
      else RemoveWalk(v, rows, r + 1, vidx + 1)
    else
      v[vidx..]
  }

  /** What removeElemsFromVector leaves in `v`, for any `rows`. */
  function Removed(v: seq<int>, rows: seq<int>): seq<int>
  {
    RemoveWalk(v, rows, 0, 0)
  }

  /** The indices of `0..n-1` that survive removing `rows`, in order. */
  function Kept(n: nat, rows: seq<int>): seq<int>
  {
    Removed(Iota(n), rows)
  }

  /** The precondition under which removal means what its name says:
      `rows` strictly ascending and every row an index of a length-`n` vector. */
  ghost predicate RowsToDelete(rows: seq<int>, n: nat)
  {
    StrictlyAscending(rows) && forall k :: 0 <= k < |rows| ==> 0 <= rows[k] < n
  }

  /** Every entry of `idx` is an index of a length-`n` vector. */
  ghost predicate IndicesIn(idx: seq<int>, n: nat)
  {
    forall k :: 0 <= k < |idx| ==> 0 <= idx[k] < n
  }

  /** The entries of `v` at the positions `idx`. */
  function Pick(v: seq<int>, idx: seq<int>): (r: seq<int>)
    requires forall k :: 0 <= k < |idx| ==> 0 <= idx[k] < |v|
    ensures |r| == |idx|
  {
    seq(|idx|, k requires 0 <= k < |idx| => v[idx[k]])
  }

  lemma {:induction false} RemoveWalkLength(v: seq<int>, rows: seq<int>, r: nat, vidx: nat)
    requires r <= |rows| && vidx <= |v|
    requires StrictlyAscending(rows)
    requires forall k :: r <= k < |rows| ==> vidx <= rows[k] < |v|
    ensures |RemoveWalk(v, rows, r, vidx)| == (|v| - vidx) - (|rows| - r)
    decreases |v| - vidx
  {
    if r < |rows| {
      assert vidx <= rows[r] < |v|;
      if rows[r] != vidx {
        RemoveWalkLength(v, rows, r, vidx + 1);
      } else {
        RemoveWalkLength(v, rows, r + 1, vidx + 1);
      }
    }
  }

  lemma {:induction false} RemoveWalkIndices(n: nat, rows: seq<int>, r: nat, vidx: nat)
    requires r <= |rows| && vidx <= n
    ensures forall k :: 0 <= k < |RemoveWalk(Iota(n), rows, r, vidx)| ==>
              vidx <= RemoveWalk(Iota(n), rows, r, vidx)[k] < n
    ensures StrictlyAscending(RemoveWalk(Iota(n), rows, r, vidx))
    decreases n - vidx
  {
    var w := RemoveWalk(Iota(n), rows, r, vidx);
    if vidx < n && r < |rows| {
      if rows[r] != vidx {
        RemoveWalkIndices(n, rows, r, vidx + 1);
        assert w == [vidx] + RemoveWalk(Iota(n), rows, r, vidx + 1);
      } else {
        RemoveWalkIndices(n, rows, r + 1, vidx + 1);
      }
    } else {
      assert forall k :: 0 <= k < |w| ==> w[k] == vidx + k;
    }
  }

  lemma {:induction false} RemoveWalkMembers(n: nat, rows: seq<int>, r: nat, vidx: nat)
    requires r <= |rows| && vidx <= n
    requires StrictlyAscending(rows)
    requires forall k :: r <= k < |rows| ==> vidx <= rows[k]
    ensures forall i :: vidx <= i < n ==> (i in RemoveWalk(Iota(n), rows, r, vidx) <==> i !in rows[r..])
    decreases n - vidx
  {
    var w := RemoveWalk(Iota(n), rows, r, vidx);
    if vidx < n && r < |rows| {
      if rows[r] != vidx {
        RemoveWalkMembers(n, rows, r, vidx + 1);
        assert w == [vidx] + RemoveWalk(Iota(n), rows, r, vidx + 1);
        assert vidx !in rows[r..] by {
          forall k | r <= k < |rows| ensures rows[k] != vidx {
            if k > r { assert rows[r] < rows[k]; }
          }
        }
      } else {
        RemoveWalkMembers(n, rows, r + 1, vidx + 1);
        RemoveWalkIndices(n, rows, r + 1, vidx + 1);
        assert rows[r..] == [rows[r]] + rows[r + 1..];
      }
    } else {
      assert forall k :: 0 <= k < |w| ==> w[k] == vidx + k;
      forall i | vidx <= i < n ensures i in w {
        assert w[i - vidx] == i;
      }
    }
  }

  lemma {:induction false} RemoveWalkPicks(v: seq<int>, rows: seq<int>, r: nat, vidx: nat)
    requires r <= |rows| && vidx <= |v|
    ensures forall k :: 0 <= k < |RemoveWalk(Iota(|v|), rows, r, vidx)| ==>
              0 <= RemoveWalk(Iota(|v|), rows, r, vidx)[k] < |v|
    ensures RemoveWalk(v, rows, r, vidx) == Pick(v, RemoveWalk(Iota(|v|), rows, r, vidx))
    decreases |v| - vidx
  {
    RemoveWalkIndices(|v|, rows, r, vidx);
    if vidx < |v| && r < |rows| {
      if rows[r] != vidx {
        RemoveWalkPicks(v, rows, r, vidx + 1);
      } else {
        RemoveWalkPicks(v, rows, r + 1, vidx + 1);
      }
    }
  }

  /** With `rows` strictly ascending and in range, removal deletes exactly
      those positions and keeps the others in their original order. */
  lemma RemovedKeepsOthersInOrder(v: seq<int>, rows: seq<int>)
    requires RowsToDelete(rows, |v|)
    ensures |Removed(v, rows)| == |v| - |rows|
    ensures |Kept(|v|, rows)| == |v| - |rows|
    ensures StrictlyAscending(Kept(|v|, rows))
    ensures IndicesIn(Kept(|v|, rows), |v|)
    ensures forall i :: 0 <= i < |v| ==> (i in Kept(|v|, rows) <==> i !in rows)
    ensures Removed(v, rows) == Pick(v, Kept(|v|, rows))
  {
    RemoveWalkLength(v, rows, 0, 0);
    RemoveWalkLength(Iota(|v|), rows, 0, 0);
    RemoveWalkIndices(|v|, rows, 0, 0);
    RemoveWalkMembers(|v|, rows, 0, 0);
    RemoveWalkPicks(v, rows, 0, 0);
    assert rows[0..] == rows;
  }

  lemma {:induction false} RemoveWalkMultiset(v: seq<int>, rows: seq<int>, r: nat, vidx: nat)
    requires r <= |rows| && vidx <= |v|
    requires StrictlyAscending(rows)
    requires forall k :: r <= k < |rows| ==> vidx <= rows[k] < |v|
    ensures multiset(v[vidx..]) == multiset(RemoveWalk(v, rows, r, vidx)) + multiset(Pick(v, rows[r..]))
    decreases |v| - vidx
  {
    if r < |rows| {
      if rows[r] != vidx {
        RemoveWalkMultiset(v, rows, r, vidx + 1);
        KeepStepMultiset(v, rows, r, vidx);
      } else {
        RemoveWalkMultiset(v, rows, r + 1, vidx + 1);
        DropStepMultiset(v, rows, r, vidx);
      }
    } else {
      assert Pick(v, rows[r..]) == [];
    }
  }

  /** A step of the walk that keeps v[vidx]. */
  lemma KeepStepMultiset(v: seq<int>, rows: seq<int>, r: nat, vidx: nat)
    requires r < |rows| && vidx < |v| && rows[r] != vidx
    requires forall k :: r <= k < |rows| ==> 0 <= rows[k] < |v|
    requires multiset(v[vidx + 1..]) == multiset(RemoveWalk(v, rows, r, vidx + 1)) + multiset(Pick(v, rows[r..]))
    ensures multiset(v[vidx..]) == multiset(RemoveWalk(v, rows, r, vidx)) + multiset(Pick(v, rows[r..]))
  {
    assert v[vidx..] == [v[vidx]] + v[vidx + 1..];
    assert RemoveWalk(v, rows, r, vidx) == [v[vidx]] + RemoveWalk(v, rows, r, vidx + 1);
  }

  /** A step of the walk that drops v[vidx] = v[rows[r]]. */
  lemma DropStepMultiset(v: seq<int>, rows: seq<int>, r: nat, vidx: nat)
    requires r < |rows| && vidx < |v| && rows[r] == vidx
    requires forall k :: r <= k < |rows| ==> 0 <= rows[k] < |v|
    requires multiset(v[vidx + 1..]) == multiset(RemoveWalk(v, rows, r + 1, vidx + 1)) + multiset(Pick(v, rows[r + 1..]))
    ensures multiset(v[vidx..]) == multiset(RemoveWalk(v, rows, r, vidx)) + multiset(Pick(v, rows[r..]))
  {
    assert v[vidx..] == [v[vidx]] + v[vidx + 1..];
    assert Pick(v, rows[r..]) == [v[vidx]] + Pick(v, rows[r + 1..]);
  }

  /** Removal takes away exactly the entries at the deleted positions. */
  lemma RemovedMultiset(v: seq<int>, rows: seq<int>)
    requires RowsToDelete(rows, |v|)
    ensures multiset(v) == multiset(Removed(v, rows)) + multiset(Pick(v, rows))
  {
    RemoveWalkMultiset(v, rows, 0, 0);
    assert v[0..] == v;
    assert rows[0..] == rows;
  }

  /** removeElemsFromVector (PositionTracker.cpp:47-62): the index-walking
      rebuild loop, followed by the copy of the tail. */
  method RemoveElemsFromVector(v: seq<int>, rows: seq<int>) returns (newV: seq<int>)
    ensures newV == Removed(v, rows)
    ensures RowsToDelete(rows, |v|) ==>
              |newV| == |v| - |rows| && IndicesIn(Kept(|v|, rows), |v|) && newV == Pick(v, Kept(|v|, rows))
  {
    newV := [];
    var r, vidx := 0, 0;
    while vidx < |v| && r < |rows|
      invariant r <= |rows| && vidx <= |v|
      invariant newV + RemoveWalk(v, rows, r, vidx) == Removed(v, rows)
      decreases |v| - vidx
    {
      if rows[r] != vidx {
        newV := newV + [v[vidx]];
      } else {
        r := r + 1;
      }
      vidx := vidx + 1;
    }
    while vidx < |v|
      invariant vidx <= |v|
      invariant newV + v[vidx..] == Removed(v, rows)
    {
      newV := newV + [v[vidx]];
      vidx := vidx + 1;
    }
    if RowsToDelete(rows, |v|) {
      RemovedKeepsOthersInOrder(v, rows);
    }
  }

  // ---------------------------------------------------------------------------
  // push_and_rearrange_data: the re-ordering loop
  // ---------------------------------------------------------------------------

  ghost predicate IndexMap(a: seq<int>, dim: nat)
  {
    |a| >= dim && forall k :: 0 <= k < dim ==> 0 <= a[k] < dim
  }

  /** A zero vector of length `dim` after the first `i` writes
      `arranged[a[k]] := v[k]` of the loop. */
  function Scatter(dim: nat, a: seq<int>, v: seq<int>, i: nat): (r: seq<int>)
    requires IndexMap(a, dim) && i <= dim <= |v|
    ensures |r| == dim
  {
    if i == 0 then Repeat(0, dim) else Scatter(dim, a, v, i - 1)[a[i - 1] := v[i - 1]]
  }

  /** The vector push_and_rearrange_data builds from a batch `v`. */
  function Arranged(dim: nat, a: seq<int>, v: seq<int>): (r: seq<int>)
    requires IndexMap(a, dim) && dim <= |v|
  {
    Scatter(dim, a, v, dim)
  }

  lemma {:induction false} ScatterPlaces(dim: nat, a: seq<int>, v: seq<int>, i: nat)
    requires IndexMap(a, dim) && i <= dim <= |v|
    requires forall p, q :: 0 <= p < q < dim ==> a[p] != a[q]
    ensures forall k :: 0 <= k < i ==> Scatter(dim, a, v, i)[a[k]] == v[k]
    ensures forall j :: 0 <= j < dim && (forall k :: 0 <= k < i ==> a[k] != j) ==> Scatter(dim, a, v, i)[j] == 0
  {
    if i > 0 {
      ScatterPlaces(dim, a, v, i - 1);
    }
  }

  lemma {:induction false} ScatterMultiset(dim: nat, a: seq<int>, v: seq<int>, i: nat)
    requires IndexMap(a, dim) && i <= dim <= |v|
    requires forall p, q :: 0 <= p < q < dim ==> a[p] != a[q]
    ensures multiset(Scatter(dim, a, v, i)) == multiset(v[..i]) + multiset(Repeat(0, dim - i))
  {
    if i > 0 {
      ScatterMultiset(dim, a, v, i - 1);
      ScatterStepMultiset(dim, a, v, i);
    } else {
      assert v[..i] == [];
    }
  }

  lemma ScatterStepMultiset(dim: nat, a: seq<int>, v: seq<int>, i: nat)
    requires IndexMap(a, dim) && 0 < i <= dim <= |v|
    requires forall p, q :: 0 <= p < q < dim ==> a[p] != a[q]
    requires multiset(Scatter(dim, a, v, i - 1)) == multiset(v[..i - 1]) + multiset(Repeat(0, dim - i + 1))
    ensures multiset(Scatter(dim, a, v, i)) == multiset(v[..i]) + multiset(Repeat(0, dim - i))
  {
    var s := Scatter(dim, a, v, i - 1);
    ScatterFillsZero(dim, a, v, i);
    ReplaceZero(s, a[i - 1], v[i - 1], v[..i - 1], dim - i);
    assert v[..i] == v[..i - 1] + [v[i - 1]];
  }

  /** Overwriting one of the zeros of a vector that holds `lower` and k+1
      zeros leaves `lower`, the new value and k zeros. */
  lemma ReplaceZero(s: seq<int>, j: int, x: int, lower: seq<int>, k: nat)
    requires 0 <= j < |s| && s[j] == 0
    requires multiset(s) == multiset(lower) + multiset(Repeat(0, k + 1))
    ensures multiset(s[j := x]) == multiset(lower + [x]) + multiset(Repeat(0, k))
  {
    var low, zeros := multiset(lower), multiset(Repeat(0, k));
    assert Repeat(0, k + 1) == Repeat(0, k) + [0];
    assert multiset(s) == low + zeros + multiset{0};
    assert multiset(s[j := x]) == multiset(s) - multiset{0} + multiset{x};
    MultisetReplace(low, zeros, 0, x);
  }

  /** Write i-1 of the loop lands on a slot that still holds 0. */
  lemma ScatterFillsZero(dim: nat, a: seq<int>, v: seq<int>, i: nat)
    requires IndexMap(a, dim) && 0 < i <= dim <= |v|
    requires forall p, q :: 0 <= p < q < dim ==> a[p] != a[q]
    ensures Scatter(dim, a, v, i - 1)[a[i - 1]] == 0
  {
    ScatterPlaces(dim, a, v, i - 1);
    assert forall k :: 0 <= k < i - 1 ==> a[k] != a[i - 1];
  }

  lemma MultisetReplace(x: multiset<int>, y: multiset<int>, old0: int, new0: int)
    ensures x + y + multiset{old0} - multiset{old0} + multiset{new0} == x + multiset{new0} + y
  {
  }

  /** When the assignment is a permutation, slot `a[i]` receives `v[i]` and
      the arranged vector holds exactly the batch's values. */
  lemma ArrangedIsPermuted(dim: nat, a: seq<int>, v: seq<int>)
    requires IsPermutation(a, dim) && dim <= |v|
    ensures forall i :: 0 <= i < dim ==> Arranged(dim, a, v)[a[i]] == v[i]
    ensures multiset(Arranged(dim, a, v)) == multiset(v[..dim])
  {
    ScatterPlaces(dim, a, v, dim);
    ScatterMultiset(dim, a, v, dim);
    assert Repeat(0, 0) == [];
  }

  /** The loop of push_and_rearrange_data (PositionTracker.cpp:144): slot
      `a[i]` of a fresh zero vector of length `dim` receives `v[i]`. */
  method Arrange(dim: nat, a: seq<int>, v: seq<int>) returns (arranged: seq<int>)
    requires IndexMap(a, dim) && dim <= |v|
    ensures arranged == Arranged(dim, a, v)
    ensures IsPermutation(a, dim) ==>
              (forall i :: 0 <= i < dim ==> arranged[a[i]] == v[i]) &&
              multiset(arranged) == multiset(v[..dim])
  {
    arranged := Repeat(0, dim);
    for i := 0 to dim
      invariant arranged == Scatter(dim, a, v, i)
    {
      arranged := arranged[a[i] := v[i]];
    }
    if IsPermutation(a, dim) {
      ArrangedIsPermuted(dim, a, v);
    }
  }

  // ---------------------------------------------------------------------------
  // get_n_new_ids
  // ---------------------------------------------------------------------------

  /** The inner `while(lut.find(id) != lut.end()) id++` loop: the first value
      at or above `id` that is not in `lut`. */
  function NextFree(lut: set<int>, id: int): (v: int)
    ensures v >= id && v !in lut
    ensures forall w :: id <= w < v ==> w in lut
    decreases |set w | w in lut && w >= id|
  {
    if id in lut then
      AboveShrinks(lut, id);
      NextFree(lut, id + 1)
    else
      id
  }

  lemma AboveShrinks(lut: set<int>, id: int)
    requires id in lut
    ensures |set w | w in lut && w >= id + 1| < |set w | w in lut && w >= id|
  {
    var above := set w | w in lut && w >= id + 1;
    var atOrAbove := set w | w in lut && w >= id;
    assert atOrAbove == above + {id};
  }

  /** The outer loop: `n` times, take the next free value, record it and
      insert it into `lut`. */
  function NewIdsFrom(lut: set<int>, n: int, id: int): (r: seq<int>)
    decreases if n < 0 then 0 else n
  {
    if n <= 0 then []
    else
      var v := NextFree(lut, id);
      [v] + NewIdsFrom(lut + {v}, n - 1, v)
  }

  /** What get_n_new_ids returns. */
  function NewIds(current: seq<int>, n: int): seq<int>
  {
    NewIdsFrom((set i | i in current), n, 0)
  }

  /** `r` holds `n` (or none, for n <= 0) values, ascending, each at least
      `id` and outside `lut`, and every value outside `lut` below one of them
      is an earlier one of them. */
  ghost predicate FreshRun(r: seq<int>, lut: set<int>, n: int, id: int)
  {
    && |r| == (if n < 0 then 0 else n)
    && StrictlyAscending(r)
    && (forall k :: 0 <= k < |r| ==> r[k] >= id && r[k] !in lut)
    && (forall k, w :: 0 <= k < |r| && 0 <= w < r[k] && w !in lut ==> w in r[..k])
  }

  lemma {:induction false} NewIdsFromFresh(lut: set<int>, n: int, id: int)
    requires id >= 0
    requires forall w :: 0 <= w < id ==> w in lut
    ensures FreshRun(NewIdsFrom(lut, n, id), lut, n, id)
    decreases if n < 0 then 0 else n
  {
    if n > 0 {
      var v := NextFree(lut, id);
      NewIdsFromFresh(lut + {v}, n - 1, v);
      NewIdsFreshStep(lut, n, id);
    }
  }

  /** One step of the outer loop: a fresh run after the next free value,
      with that value put in front, is a fresh run from `id`. */
  lemma NewIdsFreshStep(lut: set<int>, n: int, id: int)
    requires id >= 0 && n > 0
    requires forall w :: 0 <= w < id ==> w in lut
    requires var v := NextFree(lut, id); FreshRun(NewIdsFrom(lut + {v}, n - 1, v), lut + {v}, n - 1, v)
    ensures FreshRun(NewIdsFrom(lut, n, id), lut, n, id)
  {
    var v := NextFree(lut, id);
    var rest := NewIdsFrom(lut + {v}, n - 1, v);
    var r := NewIdsFrom(lut, n, id);
    assert r == [v] + rest;
    forall k, w | 0 <= k < |r| && 0 <= w < r[k] && w !in lut ensures w in r[..k] {
      if k > 0 {
        if w == v {
          assert r[0] == v;
        } else {
          assert w in rest[..k - 1];
          assert r[..k] == [v] + rest[..k - 1];
        }
      }
    }
  }

  /** get_n_new_ids returns `n` (or none, for n <= 0) ids, in ascending order
      and so pairwise distinct, none of them among `current`, and they are the
      smallest free non-negative integers: every free value below one of them
      is an earlier one of them. */
  lemma NewIdsAreSmallestFree(current: seq<int>, n: int)
    ensures |NewIds(current, n)| == if n < 0 then 0 else n
    ensures StrictlyAscending(NewIds(current, n))
    ensures forall k :: 0 <= k < |NewIds(current, n)| ==>
              NewIds(current, n)[k] >= 0 && NewIds(current, n)[k] !in current
    ensures forall k, w :: 0 <= k < |NewIds(current, n)| && 0 <= w < NewIds(current, n)[k] && w !in current ==>
              w in NewIds(current, n)[..k]
  {
    var lut := set i | i in current;
    assert forall w :: w in lut <==> w in current;
    NewIdsFromFresh(lut, n, 0);
  }

  /** get_n_new_ids (PositionTracker.cpp:136-137): build the lookup set from
      the current ids, then for each id wanted advance `id` past taken values. */
  method GetNNewIds(currentIDs: seq<int>, n: int) returns (ids: seq<int>)
    ensures ids == NewIds(currentIDs, n)
    ensures |ids| == if n < 0 then 0 else n
    ensures forall k :: 0 <= k < |ids| ==> ids[k] >= 0 && ids[k] !in currentIDs
    ensures forall j, k :: 0 <= j < k < |ids| ==> ids[j] < ids[k]
  {
    var lut: set<int> := {};
    for i := 0 to |currentIDs|
      invariant lut == set k | k in currentIDs[..i]
    {
      assert currentIDs[..i + 1] == currentIDs[..i] + [currentIDs[i]];
      lut := lut + {currentIDs[i]};
    }
    assert currentIDs[..|currentIDs|] == currentIDs;
    ids := [];
    var i, id := 0, 0;
    while i < n
      invariant ids + NewIdsFrom(lut, n - i, id) == NewIds(currentIDs, n)
      decreases n - i
    {
      ghost var start := id;
      while id in lut
        invariant id >= start && NextFree(lut, id) == NextFree(lut, start)
        decreases |set w | w in lut && w >= id|
      {
        AboveShrinks(lut, id);
        id := id + 1;
      }
      ids := ids + [id];
      lut := lut + {id};
      i := i + 1;
    }
    NewIdsAreSmallestFree(currentIDs, n);
  }
}

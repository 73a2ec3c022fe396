/** Vocabulary shared by the tracker model: distinctness, order, permutations,
    and the sorting step (std::sort) the shrink path applies to the rows it deletes. */
module Sequences {

  ghost predicate Distinct(s: seq<int>)
  {
    forall i, j :: 0 <= i < j < |s| ==> s[i] != s[j]
  }

  ghost predicate Ascending(s: seq<int>)
  {
    forall i, j :: 0 <= i < j < |s| ==> s[i] <= s[j]
  }

  ghost predicate StrictlyAscending(s: seq<int>)
  {
    forall i, j :: 0 <= i < j < |s| ==> s[i] < s[j]
  }

  /** `a` is a permutation of 0..n-1: every entry is in range, no entry repeats,
      and every index in range occurs. */
  ghost predicate IsPermutation(a: seq<int>, n: nat)
  {
    && |a| == n
    && (forall i :: 0 <= i < n ==> 0 <= a[i] < n)
    && (forall i, j :: 0 <= i < j < n ==> a[i] != a[j])
    && (forall k :: 0 <= k < n ==> k in a)
  }

  /** The sequence 0, 1, ..., n-1: the identity permutation. */
  function Iota(n: nat): (r: seq<int>)
    ensures |r| == n
    ensures forall i :: 0 <= i < n ==> r[i] == i
    ensures IsPermutation(r, n)
  {
    var r := seq(n, i => i);
    assert forall k :: 0 <= k < n ==> k in r by {
      forall k | 0 <= k < n ensures k in r {
        assert r[k] == k;
      }
    }
    r
  }

  /** `k` copies of `v`. */
  function Repeat(v: int, k: nat): (r: seq<int>)
    ensures |r| == k
    ensures forall i :: 0 <= i < k ==> r[i] == v
  {
    seq(k, _ => v)
  }

  /** Insertion of `x` into an ascending sequence. */
  function Insert(x: int, s: seq<int>): (r: seq<int>)
    ensures |r| == |s| + 1
  {
    if s == [] || x <= s[0] then [x] + s else [s[0]] + Insert(x, s[1..])
  }

  lemma {:induction false} InsertMembers(x: int, s: seq<int>)
    ensures multiset(Insert(x, s)) == multiset(s) + multiset{x}
    ensures forall k :: 0 <= k < |Insert(x, s)| ==> Insert(x, s)[k] == x || Insert(x, s)[k] in s
  {
    if s != [] && x > s[0] {
      assert s == [s[0]] + s[1..];
      InsertMembers(x, s[1..]);
    }
  }

  lemma {:induction false} InsertKeepsOrder(x: int, s: seq<int>)
    requires Ascending(s)
    ensures Ascending(Insert(x, s))
  {
    if s != [] && x > s[0] {
      InsertKeepsOrder(x, s[1..]);
      InsertMembers(x, s[1..]);
      var rest := Insert(x, s[1..]);
      forall k | 0 <= k < |rest| ensures s[0] <= rest[k] {
        if rest[k] != x {
          var j :| 0 <= j < |s[1..]| && s[1..][j] == rest[k];
          assert s[1 + j] == rest[k];
        }
      }
    }
  }

  lemma {:induction false} InsertKeepsStrictOrder(x: int, s: seq<int>)
    requires StrictlyAscending(s) && x !in s
    ensures StrictlyAscending(Insert(x, s))
  {
    if s != [] && x > s[0] {
      assert x !in s[1..];
      InsertKeepsStrictOrder(x, s[1..]);
      InsertMembers(x, s[1..]);
      var rest := Insert(x, s[1..]);
      forall k | 0 <= k < |rest| ensures s[0] < rest[k] {
        if rest[k] != x {
          var j :| 0 <= j < |s[1..]| && s[1..][j] == rest[k];
          assert s[1 + j] == rest[k];
        }
      }
    }
  }

  /** Ascending sort: the effect of std::sort on a vector<int>. */
  function SortAsc(s: seq<int>): (r: seq<int>)
    ensures |r| == |s|
  {
    if s == [] then [] else Insert(s[0], SortAsc(s[1..]))
  }

  lemma {:induction false} SortAscSorts(s: seq<int>)
    ensures multiset(SortAsc(s)) == multiset(s)
    ensures Ascending(SortAsc(s))
  {
    if s != [] {
      assert s == [s[0]] + s[1..];
      SortAscSorts(s[1..]);
      InsertMembers(s[0], SortAsc(s[1..]));
      InsertKeepsOrder(s[0], SortAsc(s[1..]));
    }
  }

  /** Sorting a list without repetitions yields a strictly ascending list. */
  lemma {:induction false} SortDistinctIsStrict(s: seq<int>)
    requires Distinct(s)
    ensures StrictlyAscending(SortAsc(s))
  {
    if s != [] {
      assert s == [s[0]] + s[1..];
      SortDistinctIsStrict(s[1..]);
      SortAscSorts(s[1..]);
      var r := SortAsc(s[1..]);
      assert s[0] !in multiset(s[1..]);
      assert s[0] !in r;
      InsertKeepsStrictOrder(s[0], r);
    }
  }

  /** lo, lo+1, ..., hi-1. */
  function Span(lo: int, hi: int): (r: seq<int>)
    requires lo <= hi
    ensures |r| == hi - lo
    ensures forall i :: 0 <= i < |r| ==> r[i] == lo + i
  {
    seq(hi - lo, i => lo + i)
  }

  /** A sequence without repetitions has as many members as entries. */
  lemma {:induction false} DistinctCard(s: seq<int>)
    requires Distinct(s)
    ensures |set x | x in s| == |s|
  {
    if s != [] {
      var t := s[..|s| - 1];
      DistinctCard(t);
      assert s == t + [s[|s| - 1]];
      assert (set x | x in s) == (set x | x in t) + {s[|s| - 1]};
      assert s[|s| - 1] !in t;
    }
  }
}

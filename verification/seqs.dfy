/**
 * Sequence facts shared by the selection state machine and the column
 * visibility rule: both are instances of a JavaScript `Array.prototype.filter`.
 */
module Seqs {

  /** `r` is obtained from `s` by deleting elements, keeping the order of the rest. */
  ghost predicate IsSubsequence<T>(r: seq<T>, s: seq<T>)
    decreases |s|
  {
    if |r| == 0 then true
    else if |s| == 0 then false
    else (r[0] == s[0] && IsSubsequence(r[1..], s[1..])) || IsSubsequence(r, s[1..])
  }

  /** Every element occurs at most once. */
  predicate NoDuplicates<T(==)>(s: seq<T>)
  {
    forall i, j :: 0 <= i < j < |s| ==> s[i] != s[j]
  }

  /** `s.filter(p)`: the elements of `s` satisfying `p`, in their original order. */
  function Filter<T(==)>(s: seq<T>, p: T -> bool): (r: seq<T>)
    ensures |r| <= |s|
    ensures forall k :: 0 <= k < |r| ==> r[k] in s && p(r[k])
    ensures forall k :: 0 <= k < |s| && p(s[k]) ==> s[k] in r
  {
    if |s| == 0 then []
    else
      var rest := Filter(s[1..], p);
      assert forall k :: 1 <= k < |s| ==> s[k] == s[1..][k-1];
      if p(s[0]) then [s[0]] + rest else rest
  }

  /** When every element passes, filtering returns the input unchanged. */
  lemma {:induction false} FilterKeepsAll<T>(s: seq<T>, p: T -> bool)
    requires forall k :: 0 <= k < |s| ==> p(s[k])
    ensures Filter(s, p) == s
  {
    if |s| > 0 {
      assert forall k :: 0 <= k < |s[1..]| ==> s[1..][k] == s[k + 1];
      FilterKeepsAll(s[1..], p);
    }
  }

  /** Filtering deletes elements but never reorders the ones it keeps. */
  lemma {:induction false} FilterIsSubsequence<T>(s: seq<T>, p: T -> bool)
    ensures IsSubsequence(Filter(s, p), s)
  {
    if |s| > 0 {
      FilterIsSubsequence(s[1..], p);
      var r, rest := Filter(s, p), Filter(s[1..], p);
      if p(s[0]) {
        assert r[0] == s[0] && r[1..] == rest;
      } else {
        assert r == rest;
      }
    }
  }

  /** Filtering distributes over concatenation. */
  lemma {:induction false} FilterConcat<T>(a: seq<T>, b: seq<T>, p: T -> bool)
    ensures Filter(a + b, p) == Filter(a, p) + Filter(b, p)
  {
    if |a| == 0 {
      assert a + b == b;
    } else {
      assert (a + b)[1..] == a[1..] + b;
      FilterConcat(a[1..], b, p);
    }
  }

  /** When `p` rejects exactly the element at index `k`, filtering cuts out that one position. */
  lemma FilterDropsOne<T>(s: seq<T>, p: T -> bool, k: nat)
    requires k < |s|
    requires forall j :: 0 <= j < |s| ==> (p(s[j]) <==> j != k)
    ensures Filter(s, p) == s[..k] + s[k+1..]
  {
    var front, back := s[..k], s[k+1..];
    forall j | 0 <= j < |front| ensures p(front[j]) {
      assert front[j] == s[j];
    }
    forall j | 0 <= j < |back| ensures p(back[j]) {
      assert back[j] == s[k + 1 + j];
    }
    assert s == front + [s[k]] + back;
    FilterCutsOut(front, s[k], back, p);
  }

  /** Filtering `front + [x] + back` where only `x` is rejected yields `front + back`. */
  lemma {:induction false} FilterCutsOut<T>(front: seq<T>, x: T, back: seq<T>, p: T -> bool)
    requires forall j :: 0 <= j < |front| ==> p(front[j])
    requires !p(x)
    requires forall j :: 0 <= j < |back| ==> p(back[j])
    ensures Filter(front + [x] + back, p) == front + back
    decreases |front|
  {
    var s := front + [x] + back;
    if |front| == 0 {
      assert s[0] == x && s[1..] == back;
      FilterKeepsAll(back, p);
    } else {
      var tail := front[1..] + [x] + back;
      assert s[0] == front[0] && p(s[0]);
      assert s[1..] == tail;
      assert Filter(s, p) == [s[0]] + Filter(tail, p);
      assert forall j :: 0 <= j < |front[1..]| ==> front[1..][j] == front[j + 1];
      FilterCutsOut(front[1..], x, back, p);
      assert front + back == [front[0]] + (front[1..] + back);
    }
  }

  /** Filtering never introduces a duplicate. */
  lemma {:induction false} FilterKeepsNoDuplicates<T>(s: seq<T>, p: T -> bool)
    requires NoDuplicates(s)
    ensures NoDuplicates(Filter(s, p))
  {
    if |s| > 0 {
      assert NoDuplicates(s[1..]);
      FilterKeepsNoDuplicates(s[1..], p);
      var rest := Filter(s[1..], p);
      assert s[0] !in s[1..];
      assert s[0] !in rest;
      var r := Filter(s, p);
      if p(s[0]) {
        assert r == [s[0]] + rest;
        forall i, j | 0 <= i < j < |r|
          ensures r[i] != r[j]
        {
          if i == 0 {
            assert r[j] == rest[j-1];
          } else {
            assert r[i] == rest[i-1] && r[j] == rest[j-1];
          }
        }
      } else {
        assert r == rest;
      }
    }
  }

  /** Appending an element not yet present keeps a duplicate-free sequence duplicate-free. */
  lemma AppendFreshKeepsNoDuplicates<T>(s: seq<T>, x: T)
    requires NoDuplicates(s)
    requires x !in s
    ensures NoDuplicates(s + [x])
  {
    var r := s + [x];
    forall i, j | 0 <= i < j < |r|
      ensures r[i] != r[j]
    {
      if j == |s| {
        assert r[i] == s[i];
      } else {
        assert r[i] == s[i] && r[j] == s[j];
      }
    }
  }

  /** Filtering by a predicate and by its negation splits the sequence: the two lengths add up. */
  lemma {:induction false} FilterPartition<T>(s: seq<T>, p: T -> bool, q: T -> bool)
    requires forall x :: q(x) == !p(x)
    ensures |Filter(s, p)| + |Filter(s, q)| == |s|
  {
    if |s| > 0 {
      FilterPartition(s[1..], p, q);
    }
  }
}

/** The two list operations the session relies on: Python's `list.remove`, and
    keeping the elements that a mask selects. */
module Lists {

  /** Python's `list.remove(x)`: drop the first element equal to `x`. The source
      only ever removes an element that is present. */
  function RemoveFirst<T(==)>(s: seq<T>, x: T): (r: seq<T>)
    requires x in s
    ensures |r| == |s| - 1
    ensures forall y :: y in r ==> y in s
  {
    if s[0] == x then s[1..] else [s[0]] + RemoveFirst(s[1..], x)
  }

  /** Exactly one occurrence of `x` goes. */
  lemma {:induction false} RemoveFirstCount<T>(s: seq<T>, x: T)
    requires x in s
    ensures multiset(RemoveFirst(s, x)) == multiset(s) - multiset{x}
  {
    assert s == [s[0]] + s[1..];
    if s[0] != x {
      RemoveFirstCount(s[1..], x);
    }
  }

  /** Removing the first occurrence at index `k` splices `s` around `k`. */
  lemma {:induction false} RemoveFirstAt<T>(s: seq<T>, x: T, k: nat)
    requires k < |s| && s[k] == x && x !in s[..k]
    ensures RemoveFirst(s, x) == s[..k] + s[k + 1..]
  {
    if k == 0 {
      assert s[..0] == [];
    } else {
      assert s[0] != x by { assert s[0] == s[..k][0]; }
      assert s[1..][k - 1] == x;
      assert x !in s[1..][..k - 1] by { assert s[1..][..k - 1] == s[1..k]; }
      RemoveFirstAt(s[1..], x, k - 1);
      assert s[..k] == [s[0]] + s[1..][..k - 1];
      assert s[k + 1..] == s[1..][k..];
    }
  }

  /** The elements of `s` whose flag in `keep` is set, in their original order. */
  function Filter<T>(s: seq<T>, keep: seq<bool>): (r: seq<T>)
    requires |keep| == |s|
    ensures |r| <= |s|
    decreases |s|
  {
    if s == [] then []
    else Filter(s[..|s| - 1], keep[..|s| - 1]) + (if keep[|s| - 1] then [s[|s| - 1]] else [])
  }

  /** Everything `Filter` returns comes from a kept position. */
  lemma {:induction false} FilterSubset<T>(s: seq<T>, keep: seq<bool>, x: T)
    requires |keep| == |s| && x in Filter(s, keep)
    ensures exists k :: 0 <= k < |s| && keep[k] && s[k] == x
    decreases |s|
  {
    var n := |s| - 1;
    if x in Filter(s[..n], keep[..n]) {
      FilterSubset(s[..n], keep[..n], x);
      var k :| 0 <= k < n && keep[..n][k] && s[..n][k] == x;
      assert keep[k] && s[k] == x;
    } else {
      assert keep[n] && s[n] == x;
    }
  }

  /** Extending the prefix by one position extends the filtered prefix by that
      element when it is kept. */
  lemma FilterStep<T>(s: seq<T>, keep: seq<bool>, q: nat)
    requires |keep| == |s| && q < |s|
    ensures Filter(s[..q + 1], keep[..q + 1]) == Filter(s[..q], keep[..q]) + (if keep[q] then [s[q]] else [])
  {
    assert s[..q + 1][..q] == s[..q];
    assert keep[..q + 1][..q] == keep[..q];
  }

  /** `Filter` only returns elements of its input. */
  lemma FilterWithin<T>(s: seq<T>, keep: seq<bool>)
    requires |keep| == |s|
    ensures forall x :: x in Filter(s, keep) ==> x in s
  {
    forall x | x in Filter(s, keep)
      ensures x in s
    {
      FilterSubset(s, keep, x);
    }
  }

  /** Every kept element appears in the result. */
  lemma {:induction false} FilterKeeps<T>(s: seq<T>, keep: seq<bool>, k: nat)
    requires |keep| == |s| && k < |s| && keep[k]
    ensures s[k] in Filter(s, keep)
    decreases |s|
  {
    var n := |s| - 1;
    if k < n {
      FilterKeeps(s[..n], keep[..n], k);
    }
  }

  /** Strictly increasing: the order in which ids are handed out. */
  ghost predicate Increasing(ids: seq<nat>)
  {
    forall j, k :: 0 <= j < k < |ids| ==> ids[j] < ids[k]
  }

  /** Filtering keeps a strictly increasing list strictly increasing, and on such a
      list an element survives exactly when its own flag is set. */
  lemma {:induction false} FilterIncreasing(ids: seq<nat>, keep: seq<bool>)
    requires |keep| == |ids| && Increasing(ids)
    ensures Increasing(Filter(ids, keep))
    ensures forall k :: 0 <= k < |ids| ==> (ids[k] in Filter(ids, keep) <==> keep[k])
    decreases |ids|
  {
    if ids != [] {
      var n := |ids| - 1;
      var prefix := Filter(ids[..n], keep[..n]);
      FilterIncreasing(ids[..n], keep[..n]);
      forall x | x in prefix
        ensures x < ids[n]
      {
        FilterSubset(ids[..n], keep[..n], x);
      }
      var r := Filter(ids, keep);
      assert r == prefix + (if keep[n] then [ids[n]] else []);
      forall j, k | 0 <= j < k < |r|
        ensures r[j] < r[k]
      {
        if k == |prefix| {
          assert r[j] in prefix;
        }
      }
      forall k | 0 <= k < |ids|
        ensures ids[k] in Filter(ids, keep) <==> keep[k]
      {
        if keep[k] {
          FilterKeeps(ids, keep, k);
        }
        if ids[k] in Filter(ids, keep) {
          FilterSubset(ids, keep, ids[k]);
        }
      }
    }
  }
}

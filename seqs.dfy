/** Table queries used by every service: first match (`findOne`), filtering
    (`where`), ordering by a key descending (`order: { ...: 'DESC' }`) and
    limiting (`take`). Tables are sequences of rows. */
module Seqs {
  import opened Common

  /** Index of the first row satisfying `p`, as `findOne` returns the first match. */
  function FindFirst<T>(s: seq<T>, p: T -> bool): (r: Option<nat>)
    ensures r.Some? ==> r.value < |s| && p(s[r.value])
    ensures r.Some? ==> forall j :: 0 <= j < r.value ==> !p(s[j])
    ensures r.None? <==> forall j :: 0 <= j < |s| ==> !p(s[j])
    decreases |s|
  {
    if |s| == 0 then None
    else if p(s[0]) then Some(0)
    else match FindFirst(s[1..], p)
      case None => None
      case Some(k) => Some(k + 1)
  }

  /** The rows satisfying `p`, in table order. */
  function Filter<T>(s: seq<T>, p: T -> bool): (r: seq<T>)
    ensures |r| <= |s|
    ensures forall x :: x in s ==> multiset(r)[x] == if p(x) then multiset(s)[x] else 0
    ensures forall x :: x in r ==> x in s && p(x)
    ensures forall x :: x in s && p(x) ==> x in r
    ensures forall i :: 0 <= i < |r| ==> p(r[i])
    ensures multiset(r) <= multiset(s)
    decreases |s|
  {
    if |s| == 0 then []
    else
      assert s == [s[0]] + s[1..];
      (if p(s[0]) then [s[0]] else []) + Filter(s[1..], p)
  }

  /** Every earlier row is related to every later row. */
  ghost predicate Pairwise<T>(s: seq<T>, rel: (T, T) -> bool)
  {
    forall i, j :: 0 <= i < j < |s| ==> rel(s[i], s[j])
  }

  /** Deleting rows keeps every pairwise table invariant (uniqueness of a column, ...). */
  lemma {:induction false} FilterPreservesPairwise<T>(s: seq<T>, p: T -> bool, rel: (T, T) -> bool)
    requires Pairwise(s, rel)
    ensures Pairwise(Filter(s, p), rel)
    decreases |s|
  {
    if |s| > 0 {
      var tail := Filter(s[1..], p);
      FilterPreservesPairwise(s[1..], p, rel);
      if p(s[0]) {
        assert Filter(s, p) == [s[0]] + tail;
        PairwiseCons(s[0], s[1..], tail, rel);
      } else {
        assert Filter(s, p) == tail;
      }
    }
  }

  lemma PairwiseCons<T>(x: T, s: seq<T>, t: seq<T>, rel: (T, T) -> bool)
    requires Pairwise(t, rel)
    requires forall y :: y in t ==> y in s
    requires forall k :: 0 <= k < |s| ==> rel(x, s[k])
    ensures Pairwise([x] + t, rel)
  {
    var r := [x] + t;
    forall i, j | 0 <= i < j < |r| ensures rel(r[i], r[j]) {
      if i == 0 {
        assert r[j] == t[j - 1] && t[j - 1] in s;
      } else {
        assert r[i] == t[i - 1] && r[j] == t[j - 1];
      }
    }
  }

  /** Ordered by `key`, largest first. */
  ghost predicate SortedDesc<T>(s: seq<T>, key: T -> int)
  {
    forall i, j :: 0 <= i < j < |s| ==> key(s[i]) >= key(s[j])
  }

  function InsertDesc<T>(x: T, s: seq<T>, key: T -> int): (r: seq<T>)
    requires SortedDesc(s, key)
    ensures SortedDesc(r, key)
    ensures multiset(r) == multiset(s) + multiset{x}
    ensures |r| == |s| + 1
    decreases |s|
  {
    if |s| == 0 then [x]
    else if key(x) >= key(s[0]) then [x] + s
    else
      assert s == [s[0]] + s[1..];
      var rest := InsertDesc(x, s[1..], key);
      InsertDescHead(x, s, rest, key);
      [s[0]] + rest
  }

  lemma InsertDescHead<T>(x: T, s: seq<T>, rest: seq<T>, key: T -> int)
    requires |s| > 0 && SortedDesc(s, key) && key(x) < key(s[0])
    requires SortedDesc(rest, key) && multiset(rest) == multiset(s[1..]) + multiset{x}
    ensures SortedDesc([s[0]] + rest, key)
  {
    var r := [s[0]] + rest;
    forall i, j | 0 <= i < j < |r| ensures key(r[i]) >= key(r[j]) {
      if i == 0 {
        var y := rest[j - 1];
        assert y in multiset(rest);
        if y != x {
          assert y in multiset(s[1..]);
          var k :| 0 <= k < |s[1..]| && s[1..][k] == y;
          assert s[1..][k] == s[k + 1];
        }
      } else {
        assert r[i] == rest[i - 1] && r[j] == rest[j - 1];
      }
    }
  }

  /** The rows ordered by `key` descending (insertion sort); ties in any order. */
  function SortDesc<T>(s: seq<T>, key: T -> int): (r: seq<T>)
    ensures SortedDesc(r, key)
    ensures multiset(r) == multiset(s)
    ensures |r| == |s|
    decreases |s|
  {
    if |s| == 0 then []
    else
      assert s == [s[0]] + s[1..];
      InsertDesc(s[0], SortDesc(s[1..], key), key)
  }

  /** The first `n` rows of a sorted sequence have the largest keys. */
  lemma PrefixHoldsLargest<T>(sorted: seq<T>, n: nat, key: T -> int)
    requires SortedDesc(sorted, key) && n <= |sorted|
    ensures forall x, y :: x in sorted && x !in sorted[..n] && y in sorted[..n] ==> key(x) <= key(y)
  {
    var r := sorted[..n];
    assert forall m :: 0 <= m < n ==> r[m] == sorted[m];
    forall x, y | x in sorted && x !in r && y in r ensures key(x) <= key(y) {
      var k :| 0 <= k < |sorted| && sorted[k] == x;
      var j :| 0 <= j < n && r[j] == y;
    }
  }

  /** `order: { key: 'DESC' }, take: limit`: the `limit` rows with the largest keys. */
  function Newest<T>(s: seq<T>, key: T -> int, limit: nat): (r: seq<T>)
    ensures |r| == Min(limit, |s|)
    ensures SortedDesc(r, key)
    ensures multiset(r) <= multiset(s)
    ensures |s| <= limit ==> multiset(r) == multiset(s)
    ensures forall x, y :: x in s && x !in r && y in r ==> key(x) <= key(y)
  {
    var sorted := SortDesc(s, key);
    var n := Min(limit, |sorted|);
    assert sorted == sorted[..n] + sorted[n..];
    PrefixHoldsLargest(sorted, n, key);
    assert forall x :: x in s ==> x in multiset(sorted);
    sorted[..n]
  }

  /** The values a sequence holds. */
  function Elems<T>(s: seq<T>): set<T>
  {
    set x | x in s
  }

  /** No value occurs twice. */
  ghost predicate Distinct<T>(s: seq<T>)
  {
    forall i, j :: 0 <= i < j < |s| ==> s[i] != s[j]
  }

  /** A sequence holds at most as many values as it has entries, and exactly
      as many when no value repeats. */
  lemma {:induction false} ElemsCard<T>(s: seq<T>)
    ensures |Elems(s)| <= |s|
    ensures |Elems(s)| == |s| <==> Distinct(s)
    decreases |s|
  {
    if |s| > 0 {
      var t := s[1..];
      ElemsCard(t);
      assert Elems(s) == {s[0]} + Elems(t);
      if s[0] in t {
        assert Elems(s) == Elems(t);
        var j :| 0 <= j < |t| && t[j] == s[0];
        assert s[0] == s[j + 1];
      } else {
        assert |Elems(s)| == |Elems(t)| + 1;
        if Distinct(t) {
          forall i, j | 0 <= i < j < |s| ensures s[i] != s[j] {
            if i > 0 {
              assert s[i] == t[i - 1] && s[j] == t[j - 1];
            } else {
              assert s[j] in t;
            }
          }
        }
        if Distinct(s) {
          forall i, j | 0 <= i < j < |t| ensures t[i] != t[j] {
            assert t[i] == s[i + 1] && t[j] == s[j + 1];
          }
        }
      }
    }
  }

  /** A subset is no larger than its superset. */
  lemma SubsetCard<T>(a: set<T>, b: set<T>)
    requires a <= b
    ensures |a| <= |b|
  {
    assert b == a + (b - a);
  }

  /** A subset as large as its superset is the superset. */
  lemma SubsetSameSize<T>(a: set<T>, b: set<T>)
    requires a <= b && |a| == |b|
    ensures a == b
  {
    assert b == a + (b - a);
    assert |b - a| == 0;
  }
}

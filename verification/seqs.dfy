/**
 * Sequence utilities used to read SQL statements over tables held as sequences of rows:
 * `WHERE` as a filter, a `UNIQUE` constraint as key-uniqueness, `SUM` as a fold.
 */
module Seqs {
  import opened Common

  /** The rows satisfying `p`, in their original order (`SELECT ... WHERE p`, `DELETE ... WHERE !p`). */
  function Filter<T(!new)>(s: seq<T>, p: T -> bool): (r: seq<T>)
    ensures |r| <= |s|
    ensures forall x :: x in r <==> x in s && p(x)
  {
    if |s| == 0 then []
    else
      assert forall x :: x in s <==> x == s[0] || x in s[1..];
      if p(s[0]) then [s[0]] + Filter(s[1..], p) else Filter(s[1..], p)
  }

  /** Filtering a concatenation filters each part. */
  lemma {:induction false} FilterAppend<T(!new)>(a: seq<T>, b: seq<T>, p: T -> bool)
    ensures Filter(a + b, p) == Filter(a, p) + Filter(b, p)
  {
    if |a| > 0 {
      assert (a + b)[1..] == a[1..] + b;
      FilterAppend(a[1..], b, p);
    } else {
      assert a + b == b;
    }
  }

  /** A filter that keeps every row is the identity. */
  lemma {:induction false} FilterKeepsAll<T(!new)>(s: seq<T>, p: T -> bool)
    requires forall x :: x in s ==> p(x)
    ensures Filter(s, p) == s
  {
    if |s| > 0 {
      assert forall x :: x in s[1..] ==> x in s;
      FilterKeepsAll(s[1..], p);
    }
  }

  /** Filtering by a weaker condition first does not change a stricter filter's result. */
  lemma {:induction false} FilterFilter<T(!new)>(s: seq<T>, p: T -> bool, q: T -> bool)
    requires forall x :: q(x) ==> p(x)
    ensures Filter(Filter(s, p), q) == Filter(s, q)
  {
    if |s| > 0 {
      FilterFilter(s[1..], p, q);
      if p(s[0]) {
        assert ([s[0]] + Filter(s[1..], p))[1..] == Filter(s[1..], p);
      }
    }
  }

  /** No two rows share a key: the `UNIQUE(...)` constraint of a table. */
  predicate UniqueBy<T, K(==)>(s: seq<T>, key: T -> K) {
    forall i, j :: 0 <= i < j < |s| ==> key(s[i]) != key(s[j])
  }

  /** Deleting rows keeps a table's keys unique. */
  lemma {:induction false} FilterUnique<T(!new), K>(s: seq<T>, p: T -> bool, key: T -> K)
    requires UniqueBy(s, key)
    ensures UniqueBy(Filter(s, p), key)
  {
    if |s| > 0 {
      FilterUnique(s[1..], p, key);
      var rest := Filter(s[1..], p);
      if p(s[0]) {
        var r := [s[0]] + rest;
        forall i, j | 0 <= i < j < |r| ensures key(r[i]) != key(r[j]) {
          if i == 0 {
            assert r[j] == rest[j - 1] && r[j] in s[1..];
            var k :| 0 <= k < |s[1..]| && s[1..][k] == r[j];
            assert s[k + 1] == r[j];
          } else {
            assert r[i] == rest[i - 1] && r[j] == rest[j - 1];
          }
        }
      }
    }
  }

  /** In a table with unique keys, at most one row has a given key. */
  lemma UniqueKeyHolder<T, K>(s: seq<T>, key: T -> K, x: T, y: T)
    requires UniqueBy(s, key) && x in s && y in s && key(x) == key(y)
    ensures x == y
  {
    var i :| 0 <= i < |s| && s[i] == x;
    var j :| 0 <= j < |s| && s[j] == y;
    assert key(s[i]) == key(s[j]);
  }

  /** A unique-key sequence whose every element is `n`, and that holds `n`, is exactly `[n]`. */
  lemma UniqueSingleton<T, K>(s: seq<T>, key: T -> K, n: T)
    requires UniqueBy(s, key) && n in s && forall x :: x in s ==> x == n
    ensures s == [n]
  {
    if |s| >= 2 {
      FirstTwoDiffer(s, key);
      assert false;
    }
  }

  lemma FirstTwoDiffer<T, K>(s: seq<T>, key: T -> K)
    requires UniqueBy(s, key) && |s| >= 2
    ensures s[0] in s && s[1] in s && s[0] != s[1]
  {
    assert key(s[0]) != key(s[1]);
  }

  /** `SUM(f(row))` over the rows, 0 for none. */
  function Sum<T>(s: seq<T>, f: T -> real): real
  {
    if |s| == 0 then 0.0 else f(s[0]) + Sum(s[1..], f)
  }

  /** The sum over a concatenation adds the sums of its parts. */
  lemma {:induction false} SumAppend<T>(a: seq<T>, b: seq<T>, f: T -> real)
    ensures Sum(a + b, f) == Sum(a, f) + Sum(b, f)
  {
    if |a| > 0 {
      assert (a + b)[1..] == a[1..] + b;
      SumAppend(a[1..], b, f);
    } else {
      assert a + b == b;
    }
  }

  /** `s` applied element-wise: `rows.map(f)`. */
  function Map<T, U>(s: seq<T>, f: T -> U): (r: seq<U>)
    ensures |r| == |s|
    ensures forall i :: 0 <= i < |s| ==> r[i] == f(s[i])
  {
    if |s| == 0 then [] else [f(s[0])] + Map(s[1..], f)
  }

  /** The distinct keys of the rows: `SELECT DISTINCT key`. */
  function KeySet<T, K>(s: seq<T>, key: T -> K): set<K>
  {
    set i | 0 <= i < |s| :: key(s[i])
  }

  /** The distinct keys of a non-empty sequence: the head's key and those of the tail. */
  lemma KeySetCons<T, K>(s: seq<T>, key: T -> K)
    requires |s| > 0
    ensures KeySet(s, key) == {key(s[0])} + KeySet(s[1..], key)
  {
    forall k | k in KeySet(s, key) ensures k in {key(s[0])} + KeySet(s[1..], key) {
      var i :| 0 <= i < |s| && key(s[i]) == k;
      if i > 0 { assert key(s[1..][i - 1]) == k; }
    }
    forall k | k in KeySet(s[1..], key) ensures k in KeySet(s, key) {
      var i :| 0 <= i < |s[1..]| && key(s[1..][i]) == k;
      assert key(s[i + 1]) == k;
    }
  }

  /** There are never more distinct keys than rows. */
  lemma {:induction false} KeySetBound<T, K>(s: seq<T>, key: T -> K)
    ensures |KeySet(s, key)| <= |s|
  {
    if |s| > 0 {
      KeySetBound(s[1..], key);
      KeySetCons(s, key);
    }
  }

  /** With unique keys, counting distinct keys counts the rows. */
  lemma {:induction false} DistinctCount<T, K>(s: seq<T>, key: T -> K)
    requires UniqueBy(s, key)
    ensures |KeySet(s, key)| == |s|
  {
    if |s| > 0 {
      var rest := s[1..];
      assert UniqueBy(rest, key) by {
        forall i, j | 0 <= i < j < |rest| ensures key(rest[i]) != key(rest[j]) {
          assert rest[i] == s[i + 1] && rest[j] == s[j + 1];
        }
      }
      DistinctCount(rest, key);
      KeySetCons(s, key);
      forall i | 0 <= i < |rest| ensures key(rest[i]) != key(s[0]) {
        assert rest[i] == s[i + 1];
      }
    }
  }

  /** The rows of `rows.map(f)` are exactly the images of the input rows. */
  lemma MapMembers<T, U>(s: seq<T>, f: T -> U)
    ensures forall y :: y in Map(s, f) <==> exists i :: 0 <= i < |s| && y == f(s[i])
  {
    forall y | y in Map(s, f) ensures exists i :: 0 <= i < |s| && y == f(s[i]) {
      var i :| 0 <= i < |Map(s, f)| && Map(s, f)[i] == y;
    }
  }

  /** The rows of `rows.map(f)` are exactly the images of the input's members. */
  lemma MapImages<T, U>(s: seq<T>, f: T -> U)
    ensures forall y :: y in Map(s, f) <==> exists x :: x in s && y == f(x)
  {
    MapMembers(s, f);
    forall y | exists x :: x in s && y == f(x) ensures y in Map(s, f) {
      var x :| x in s && y == f(x);
      var i :| 0 <= i < |s| && s[i] == x;
      assert Map(s, f)[i] == y;
    }
  }

  /** `MAX(f(row))` over the rows; NULL (None) for no rows. */
  function MaxOf<T(!new)>(s: seq<T>, f: T -> int): (r: Option<int>)
    ensures r.None? <==> |s| == 0
    ensures r.Some? ==> (exists x :: x in s && f(x) == r.value) && forall x :: x in s ==> f(x) <= r.value
  {
    if |s| == 0 then None
    else
      var rest := MaxOf(s[1..], f);
      assert forall x :: x in s <==> x == s[0] || x in s[1..];
      match rest
      case None => Some(f(s[0]))
      case Some(m) => if f(s[0]) >= m then Some(f(s[0])) else Some(m)
  }

  /** `Math.min(...s)` of a non-empty list. */
  function MinOfInts(s: seq<int>): (m: int)
    requires |s| > 0
    ensures m in s && forall i :: 0 <= i < |s| ==> m <= s[i]
  {
    if |s| == 1 then s[0]
    else
      var rest := MinOfInts(s[1..]);
      assert forall i :: 1 <= i < |s| ==> s[i] == s[1..][i - 1];
      if s[0] <= rest then s[0] else rest
  }

  /** The minimum of a mapped list is at most the image of any element. */
  lemma MinOfMappedBelow<T>(s: seq<T>, f: T -> int, x: T)
    requires x in s
    ensures MinOfInts(Map(s, f)) <= f(x)
  {
    var i :| 0 <= i < |s| && s[i] == x;
    assert Map(s, f)[i] == f(x);
  }
}

/** Sequence helpers shared by every table: the row selection that pandas writes
    as `df[mask]`, sums of integer columns, and uniqueness of a key column. */
module Seqs {

  datatype Option<T> = None | Some(value: T)

  /** The elements of `s` that satisfy `keep`, in their original order. */
  function Filter<T(!new)>(s: seq<T>, keep: T -> bool): (r: seq<T>)
    ensures |r| <= |s|
    ensures forall x :: x in r <==> x in s && keep(x)
  {
    if s == [] then []
    else
      assert s == [s[0]] + s[1..];
      (if keep(s[0]) then [s[0]] else []) + Filter(s[1..], keep)
  }

  /** Selection keeps every occurrence of a kept element and drops every
      occurrence of the others. */
  lemma {:induction false} FilterCounts<T(!new)>(s: seq<T>, keep: T -> bool)
    ensures forall x :: multiset(Filter(s, keep))[x] == if keep(x) then multiset(s)[x] else 0
  {
    if s != [] {
      assert s == [s[0]] + s[1..];
      FilterCounts(s[1..], keep);
    }
  }

  /** Selection distributes over concatenation. */
  lemma {:induction false} FilterAppend<T(!new)>(a: seq<T>, b: seq<T>, keep: T -> bool)
    ensures Filter(a + b, keep) == Filter(a, keep) + Filter(b, keep)
  {
    if a == [] {
      assert a + b == b;
    } else {
      assert (a + b)[1..] == a[1..] + b;
      assert (a + b)[0] == a[0];
      FilterAppend(a[1..], b, keep);
    }
  }

  /** `i` is the one and only position of `s` whose element satisfies `p`. */
  ghost predicate OnlyAt<T>(s: seq<T>, p: T -> bool, i: int)
  {
    0 <= i < |s| && p(s[i]) && forall j :: 0 <= j < |s| && j != i ==> !p(s[j])
  }

  /** A mask that no element satisfies selects nothing. */
  lemma {:induction false} FilterNone<T(!new)>(s: seq<T>, p: T -> bool)
    requires forall x :: x in s ==> !p(x)
    ensures Filter(s, p) == []
  {
    if s != [] {
      assert s[0] in s;
      FilterNone(s[1..], p);
    }
  }

  /** When exactly one position satisfies the mask, the selection is that element alone. */
  lemma FilterOnly<T(!new)>(s: seq<T>, p: T -> bool, i: int)
    requires OnlyAt(s, p, i)
    ensures Filter(s, p) == [s[i]]
  {
    var before, after := s[..i], s[i + 1..];
    assert s == before + [s[i]] + after;
    forall x | x in before ensures !p(x) {
      var k :| 0 <= k < |before| && before[k] == x;
      assert s[k] == x;
    }
    forall x | x in after ensures !p(x) {
      var k :| 0 <= k < |after| && after[k] == x;
      assert s[i + 1 + k] == x;
    }
    FilterNone(before, p);
    FilterNone(after, p);
    FilterAppend(before + [s[i]], after, p);
    FilterAppend(before, [s[i]], p);
    assert Filter([s[i]], p) == [s[i]];
  }

  /** A one-row selection comes from exactly one satisfying position. */
  lemma {:induction false} FilterOneRow<T(!new)>(s: seq<T>, p: T -> bool)
    requires |Filter(s, p)| == 1
    ensures exists i :: OnlyAt(s, p, i)
  {
    var t := s[1..];
    assert s == [s[0]] + t;
    if p(s[0]) {
      assert |Filter(t, p)| == 0;
      forall j | 0 < j < |s| ensures !p(s[j]) {
        assert s[j] == t[j - 1] && s[j] in t;
      }
      assert OnlyAt(s, p, 0);
    } else {
      assert Filter(s, p) == Filter(t, p);
      FilterOneRow(t, p);
      var i :| OnlyAt(t, p, i);
      forall j | 0 <= j < |s| && j != i + 1 ensures !p(s[j]) {
        if j > 0 { assert s[j] == t[j - 1]; }
      }
      assert OnlyAt(s, p, i + 1);
    }
  }

  /** A selection has exactly one row precisely when exactly one position
      satisfies the mask, and that row is the element at the position. */
  lemma FilterSingle<T(!new)>(s: seq<T>, p: T -> bool)
    ensures |Filter(s, p)| == 1 <==> exists i :: OnlyAt(s, p, i)
    ensures forall i :: OnlyAt(s, p, i) ==> Filter(s, p) == [s[i]]
  {
    forall i | OnlyAt(s, p, i) ensures Filter(s, p) == [s[i]] {
      FilterOnly(s, p, i);
    }
    if |Filter(s, p)| == 1 {
      FilterOneRow(s, p);
    }
  }

  /** No two elements of `s` share the same `key`. */
  ghost predicate DistinctBy<T, K>(s: seq<T>, key: T -> K)
  {
    forall i, j :: 0 <= i < j < |s| ==> key(s[i]) != key(s[j])
  }

  /** A selection of rows with distinct keys still has distinct keys. */
  lemma {:induction false} DistinctByFilter<T(!new), K>(s: seq<T>, key: T -> K, keep: T -> bool)
    requires DistinctBy(s, key)
    ensures DistinctBy(Filter(s, keep), key)
  {
    if s != [] {
      var t := s[1..];
      DistinctByTail(s, key);
      DistinctByFilter(t, key, keep);
      var r := Filter(t, keep);
      if keep(s[0]) {
        forall y | y in r ensures key(s[0]) != key(y) {
          var k :| 0 <= k < |t| && t[k] == y;
          assert s[k + 1] == y;
        }
        DistinctByCons(s[0], r, key);
      }
    }
  }

  lemma DistinctByTail<T, K>(s: seq<T>, key: T -> K)
    requires s != [] && DistinctBy(s, key)
    ensures DistinctBy(s[1..], key)
  {
    var t := s[1..];
    forall i, j | 0 <= i < j < |t| ensures key(t[i]) != key(t[j]) {
      assert t[i] == s[i + 1] && t[j] == s[j + 1];
    }
  }

  lemma DistinctByCons<T, K>(x: T, r: seq<T>, key: T -> K)
    requires DistinctBy(r, key)
    requires forall y :: y in r ==> key(x) != key(y)
    ensures DistinctBy([x] + r, key)
  {
    var s := [x] + r;
    forall i, j | 0 <= i < j < |s| ensures key(s[i]) != key(s[j]) {
      assert s[j] == r[j - 1] && s[j] in r;
      if i > 0 { assert s[i] == r[i - 1]; }
    }
  }

  /** Replacing an element by one with the same key keeps the keys distinct. */
  lemma DistinctByUpdate<T, K>(s: seq<T>, key: T -> K, i: int, x: T)
    requires DistinctBy(s, key) && 0 <= i < |s| && key(x) == key(s[i])
    ensures DistinctBy(s[i := x], key)
  {
    var t := s[i := x];
    forall j, k | 0 <= j < k < |t| ensures key(t[j]) != key(t[k]) {
      assert key(t[j]) == key(s[j]) && key(t[k]) == key(s[k]);
    }
  }

  /** Appending an element whose key differs from every key present keeps the keys distinct. */
  lemma DistinctByAppend<T, K>(s: seq<T>, key: T -> K, x: T)
    requires DistinctBy(s, key)
    requires forall i :: 0 <= i < |s| ==> key(s[i]) != key(x)
    ensures DistinctBy(s + [x], key)
  {
    var t := s + [x];
    forall j, k | 0 <= j < k < |t| ensures key(t[j]) != key(t[k]) {
      assert t[j] == s[j];
      if k < |s| { assert t[k] == s[k]; }
    }
  }

  /** The first position of `s` whose element satisfies `p`, if any. */
  function FirstIndex<T>(s: seq<T>, p: T -> bool): (r: Option<nat>)
    ensures r.Some? ==> r.value < |s| && p(s[r.value])
    ensures r.Some? ==> forall j :: 0 <= j < r.value ==> !p(s[j])
    ensures r.None? ==> forall j :: 0 <= j < |s| ==> !p(s[j])
  {
    if s == [] then None
    else if p(s[0]) then Some(0)
    else match FirstIndex(s[1..], p)
      case None => None
      case Some(i) => Some(i + 1)
  }

  /** The sum of a column of integers. */
  function Sum(s: seq<int>): int
  {
    if s == [] then 0 else s[0] + Sum(s[1..])
  }

  /** The sum of the values of a column that satisfy `keep` (pandas `col[mask].sum()`). */
  function SumIf(s: seq<int>, keep: int -> bool): int
  {
    if s == [] then 0 else (if keep(s[0]) then s[0] else 0) + SumIf(s[1..], keep)
  }

  /** Masks selecting the strictly positive and strictly negative values. */
  const Positive: int -> bool := (x: int) => x > 0
  const Negative: int -> bool := (x: int) => x < 0

  /** Summing the strictly positive values of a column gives a non-negative number. */
  lemma {:induction false} SumPositiveNonNegative(s: seq<int>)
    ensures SumIf(s, Positive) >= 0
  {
    if s != [] {
      SumPositiveNonNegative(s[1..]);
    }
  }

  /** Summing the strictly negative values of a column gives a non-positive number. */
  lemma {:induction false} SumNegativeNonPositive(s: seq<int>)
    ensures SumIf(s, Negative) <= 0
  {
    if s != [] {
      SumNegativeNonPositive(s[1..]);
    }
  }

  /** Splitting a column into its positive and negative parts preserves its sum
      (zeros contribute to neither part and nothing to the sum). */
  lemma {:induction false} SumSplitsBySign(s: seq<int>)
    ensures SumIf(s, Positive) + SumIf(s, Negative) == Sum(s)
  {
    if s != [] {
      SumSplitsBySign(s[1..]);
    }
  }

  /** The sum of a concatenation is the sum of the parts. */
  lemma {:induction false} SumAppend(a: seq<int>, b: seq<int>)
    ensures Sum(a + b) == Sum(a) + Sum(b)
  {
    if a == [] {
      assert a + b == b;
    } else {
      assert (a + b)[1..] == a[1..] + b;
      SumAppend(a[1..], b);
    }
  }

  /** The masked sum of a concatenation is the masked sum of the parts. */
  lemma {:induction false} SumIfAppend(a: seq<int>, b: seq<int>, keep: int -> bool)
    ensures SumIf(a + b, keep) == SumIf(a, keep) + SumIf(b, keep)
  {
    if a == [] {
      assert a + b == b;
    } else {
      assert (a + b)[1..] == a[1..] + b;
      SumIfAppend(a[1..], b, keep);
    }
  }
}

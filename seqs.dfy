/**
 * Sequence helpers shared by the model: JavaScript's `Array.prototype.filter`,
 * "remove every occurrence", "toggle membership", and the first-appearance
 * de-duplication that `[...new Set(xs)]` performs.
 */
module Seqs {

  /** Keeps the elements of `s` that satisfy `p`, in their original order. */
  function Filter<T(!new)>(s: seq<T>, p: T -> bool): (r: seq<T>)
    ensures |r| <= |s|
    ensures forall x :: x in r <==> x in s && p(x)
  {
    if s == [] then [] else (if p(s[0]) then [s[0]] else []) + Filter(s[1..], p)
  }

  /** `a` can be obtained from `b` by deleting elements (order is kept). */
  ghost predicate IsSubseq<T>(a: seq<T>, b: seq<T>)
    decreases |b|
  {
    a == [] || (b != [] && ((a[0] == b[0] && IsSubseq(a[1..], b[1..])) || IsSubseq(a, b[1..])))
  }

  /** A subsequence is no longer than the sequence it comes from. */
  lemma {:induction false} SubseqLength<T>(a: seq<T>, b: seq<T>)
    requires IsSubseq(a, b)
    ensures |a| <= |b|
    decreases |b|
  {
    if a != [] {
      if a[0] == b[0] && IsSubseq(a[1..], b[1..]) {
        SubseqLength(a[1..], b[1..]);
      } else {
        SubseqLength(a, b[1..]);
      }
    }
  }

  /** No element occurs twice. */
  ghost predicate NoDups<T>(s: seq<T>)
  {
    forall i, j | 0 <= i < j < |s| :: s[i] != s[j]
  }

  lemma {:induction false} FilterIsSubseq<T(!new)>(s: seq<T>, p: T -> bool)
    ensures IsSubseq(Filter(s, p), s)
  {
    if s != [] {
      FilterIsSubseq(s[1..], p);
      var rest := Filter(s[1..], p);
      if p(s[0]) {
        assert Filter(s, p) == [s[0]] + rest;
        assert ([s[0]] + rest)[1..] == rest;
      } else {
        assert Filter(s, p) == rest;
      }
    }
  }

  lemma {:induction false} FilterAppend<T(!new)>(a: seq<T>, b: seq<T>, p: T -> bool)
    ensures Filter(a + b, p) == Filter(a, p) + Filter(b, p)
  {
    if a == [] {
      assert a + b == b;
    } else {
      assert (a + b)[1..] == a[1..] + b;
      FilterAppend(a[1..], b, p);
    }
  }

  /** Filtering twice is filtering once by the conjunction. */
  lemma {:induction false} FilterTwice<T(!new)>(s: seq<T>, p: T -> bool, q: T -> bool, pq: T -> bool)
    requires forall x :: pq(x) == (p(x) && q(x))
    ensures Filter(Filter(s, p), q) == Filter(s, pq)
  {
    if s != [] {
      FilterTwice(s[1..], p, q, pq);
      var rest := Filter(s[1..], p);
      if p(s[0]) {
        assert Filter(s, p) == [s[0]] + rest;
        assert ([s[0]] + rest)[1..] == rest;
        assert Filter([s[0]] + rest, q) == (if q(s[0]) then [s[0]] else []) + Filter(rest, q);
      } else {
        assert Filter(s, p) == rest;
      }
    }
  }

  /** Two predicates that agree on every element filter alike. */
  lemma {:induction false} FilterAgree<T(!new)>(s: seq<T>, p: T -> bool, q: T -> bool)
    requires forall x :: x in s ==> p(x) == q(x)
    ensures Filter(s, p) == Filter(s, q)
  {
    if s != [] {
      FilterAgree(s[1..], p, q);
    }
  }

  /** A predicate that holds nowhere keeps nothing. */
  lemma {:induction false} FilterRejectsAll<T(!new)>(s: seq<T>, p: T -> bool)
    requires forall x :: x in s ==> !p(x)
    ensures Filter(s, p) == []
  {
    if s != [] {
      assert forall x :: x in s[1..] ==> x in s;
      FilterRejectsAll(s[1..], p);
    }
  }

  /** A predicate that holds everywhere keeps everything. */
  lemma {:induction false} FilterKeepsAll<T(!new)>(s: seq<T>, p: T -> bool)
    requires forall x :: x in s ==> p(x)
    ensures Filter(s, p) == s
  {
    if s != [] {
      FilterKeepsAll(s[1..], p);
    }
  }

  lemma {:induction false} FilterMultiset<T(!new)>(s: seq<T>, p: T -> bool, x: T)
    ensures multiset(Filter(s, p))[x] == if p(x) then multiset(s)[x] else 0
  {
    if s != [] {
      FilterMultiset(s[1..], p, x);
      assert s == [s[0]] + s[1..];
      assert multiset(s) == multiset([s[0]]) + multiset(s[1..]);
    }
  }

  lemma {:induction false} FilterNoDups<T(!new)>(s: seq<T>, p: T -> bool)
    requires NoDups(s)
    ensures NoDups(Filter(s, p))
  {
    if s != [] {
      assert NoDups(s[1..]) by {
        forall i, j | 0 <= i < j < |s[1..]| ensures s[1..][i] != s[1..][j] {
          assert s[1..][i] == s[i + 1] && s[1..][j] == s[j + 1];
        }
      }
      FilterNoDups(s[1..], p);
      var rest := Filter(s[1..], p);
      if p(s[0]) {
        assert s[0] !in s[1..] by {
          forall k | 0 <= k < |s[1..]| ensures s[1..][k] != s[0] {
            assert s[1..][k] == s[k + 1];
          }
        }
        ConsNoDups(s[0], rest);
      }
    }
  }

  lemma ConsNoDups<T(!new)>(x: T, t: seq<T>)
    requires x !in t && NoDups(t)
    ensures NoDups([x] + t)
  {
    var s := [x] + t;
    forall i, j | 0 <= i < j < |s| ensures s[i] != s[j] {
      assert s[j] == t[j - 1];
      if i > 0 {
        assert s[i] == t[i - 1];
      }
    }
  }

  lemma SnocNoDups<T(!new)>(t: seq<T>, x: T)
    requires x !in t && NoDups(t)
    ensures NoDups(t + [x])
  {
    var s := t + [x];
    forall i, j | 0 <= i < j < |s| ensures s[i] != s[j] {
      assert s[i] == t[i];
    }
  }

  /** `s` with every occurrence of `x` removed (`s.filter(y => y !== x)`). */
  function Without<T(==,!new)>(s: seq<T>, x: T): (r: seq<T>)
  {
    Filter(s, y => y != x)
  }

  /** Removal is a filter by any predicate that rejects exactly `x`. */
  lemma WithoutIsFilter<T(!new)>(s: seq<T>, x: T, q: T -> bool)
    requires forall y :: q(y) == (y != x)
    ensures Without(s, x) == Filter(s, q)
  {
    FilterAgree(s, y => y != x, q);
  }

  /** Removal deletes every occurrence of `x`, keeps every other element with
      its multiplicity, and keeps the order of what remains. */
  lemma WithoutSpec<T(!new)>(s: seq<T>, x: T)
    ensures x !in Without(s, x)
    ensures forall y :: y != x ==> multiset(Without(s, x))[y] == multiset(s)[y]
    ensures IsSubseq(Without(s, x), s)
    ensures x !in s ==> Without(s, x) == s
  {
    FilterIsSubseq(s, y => y != x);
    forall y | y != x ensures multiset(Without(s, x))[y] == multiset(s)[y] {
      FilterMultiset(s, y => y != x, y);
    }
    if x !in s {
      FilterKeepsAll(s, y => y != x);
    }
  }

  /** Rearranging a duplicate-free list keeps it duplicate-free. */
  lemma MultisetNoDups<T>(a: seq<T>, b: seq<T>)
    requires multiset(a) == multiset(b)
    requires NoDups(a)
    ensures NoDups(b)
  {
    forall i, j | 0 <= i < j < |b| ensures b[i] != b[j] {
      if b[i] == b[j] {
        var x := b[i];
        assert b == b[..j] + b[j..];
        assert x in b[..j] && x in b[j..];
        assert multiset(b)[x] == multiset(b[..j])[x] + multiset(b[j..])[x];
        NoDupsMultiset(a, x);
        assert false;
      }
    }
  }

  /** Remove `x` when present, otherwise append it at the end. */
  function Toggled<T(==,!new)>(s: seq<T>, x: T): (r: seq<T>)
    ensures x in r <==> x !in s
    ensures forall y :: y != x ==> (y in r <==> y in s)
  {
    if x in s then Without(s, x) else s + [x]
  }

  /** Toggling an absent value twice restores the list. */
  lemma ToggledTwiceAbsent<T(!new)>(s: seq<T>, x: T)
    requires x !in s
    ensures Toggled(Toggled(s, x), x) == s
  {
    assert x in s + [x];
    FilterAppend(s, [x], y => y != x);
    FilterKeepsAll(s, y => y != x);
    assert Filter([x], y => y != x) == [];
  }

  /** Toggling keeps a duplicate-free list duplicate-free. */
  lemma ToggledNoDups<T(!new)>(s: seq<T>, x: T)
    requires NoDups(s)
    ensures NoDups(Toggled(s, x))
  {
    if x in s {
      FilterNoDups(s, y => y != x);
    } else {
      SnocNoDups(s, x);
    }
  }

  /** The distinct elements of `s` in order of first appearance, as
      `[...new Set(s)]` yields them. */
  function Distinct<T(==,!new)>(s: seq<T>): (r: seq<T>)
    ensures |r| <= |s|
    ensures forall x :: x in r <==> x in s
    ensures r == [] <==> s == []
  {
    if s == [] then []
    else
      var d := Distinct(s[..|s| - 1]);
      assert s == s[..|s| - 1] + [s[|s| - 1]];
      if s[|s| - 1] in d then d else d + [s[|s| - 1]]
  }

  lemma {:induction false} DistinctNoDups<T(!new)>(s: seq<T>)
    ensures NoDups(Distinct(s))
  {
    if s != [] {
      DistinctNoDups(s[..|s| - 1]);
      var d := Distinct(s[..|s| - 1]);
      if s[|s| - 1] !in d {
        SnocNoDups(d, s[|s| - 1]);
      }
    }
  }

  /** The index of the first occurrence of `x` in `s`. */
  function FirstIndex<T(==)>(s: seq<T>, x: T): (k: nat)
    requires x in s
    ensures k < |s| && s[k] == x
    ensures forall j | 0 <= j < k :: s[j] != x
  {
    if s[0] == x then 0 else 1 + FirstIndex(s[1..], x)
  }

  /** Appending an element leaves earlier first occurrences where they were. */
  lemma FirstIndexSnoc<T>(s: seq<T>, y: T, x: T)
    requires x in s
    ensures FirstIndex(s + [y], x) == FirstIndex(s, x)
  {
    var a := FirstIndex(s + [y], x);
    var b := FirstIndex(s, x);
    assert (s + [y])[b] == x;
  }

  /** `Distinct` lists the elements in the order of their first
      appearance in `s`. */
  lemma {:induction false} DistinctOrder<T(!new)>(s: seq<T>)
    ensures forall i, j | 0 <= i < j < |Distinct(s)| ::
      FirstIndex(s, Distinct(s)[i]) < FirstIndex(s, Distinct(s)[j])
  {
    if s != [] {
      var p := s[..|s| - 1];
      var y := s[|s| - 1];
      assert s == p + [y];
      DistinctOrder(p);
      var d := Distinct(p);
      forall i, j | 0 <= i < j < |Distinct(s)|
        ensures FirstIndex(s, Distinct(s)[i]) < FirstIndex(s, Distinct(s)[j])
      {
        FirstIndexSnoc(p, y, d[i]);
        if j < |d| {
          FirstIndexSnoc(p, y, d[j]);
        } else {
          assert Distinct(s)[j] == y && y !in p;
          assert FirstIndex(s, y) == |p|;
        }
      }
    }
  }

  lemma DistinctSnoc<T(!new)>(s: seq<T>, x: T)
    ensures Distinct(s + [x]) == if x in Distinct(s) then Distinct(s) else Distinct(s) + [x]
  {
    assert (s + [x])[..|s + [x]| - 1] == s;
  }

  /** Number of elements of `s` that satisfy `p`. */
  function CountWhere<T(!new)>(s: seq<T>, p: T -> bool): (n: nat)
    ensures n <= |s|
  {
    |Filter(s, p)|
  }

  /** Nothing is counted exactly when no element satisfies `p`. */
  lemma CountWhereNone<T(!new)>(s: seq<T>, p: T -> bool)
    ensures CountWhere(s, p) == 0 <==> forall x | x in s :: !p(x)
  {
    var r := Filter(s, p);
    assert r != [] ==> r[0] in r;
  }

  /** A single element counts once exactly when it satisfies `p`, and the
      count of a concatenation is the sum of the counts of its parts. */
  lemma CountWhereAppend<T(!new)>(a: seq<T>, b: seq<T>, x: T, p: T -> bool)
    ensures CountWhere([x], p) == if p(x) then 1 else 0
    ensures CountWhere(a + b, p) == CountWhere(a, p) + CountWhere(b, p)
  {
    FilterAppend(a, b, p);
  }

  /** `s.map(f)`. */
  function MapSeq<T, K>(s: seq<T>, f: T -> K): (r: seq<K>)
    ensures |r| == |s|
    ensures forall i | 0 <= i < |s| :: r[i] == f(s[i])
  {
    seq(|s|, i requires 0 <= i < |s| => f(s[i]))
  }

  lemma MapSeqSnoc<T, K>(s: seq<T>, x: T, f: T -> K)
    ensures MapSeq(s + [x], f) == MapSeq(s, f) + [f(x)]
  {
  }

  /** Counting the elements whose key is `k` is counting `k` among the keys. */
  lemma {:induction false} CountWhereKey<T(!new), K>(s: seq<T>, key: T -> K, k: K, p: T -> bool)
    requires forall x :: p(x) == (key(x) == k)
    ensures CountWhere(s, p) == multiset(MapSeq(s, key))[k]
  {
    if s != [] {
      CountWhereKey(s[1..], key, k, p);
      assert MapSeq(s, key) == [key(s[0])] + MapSeq(s[1..], key);
    }
  }

  /** Sum over the distinct values `ds` of how often each occurs in `ks`. */
  function SumOfCounts<K(==)>(ks: seq<K>, ds: seq<K>): nat
  {
    if ds == [] then 0 else multiset(ks)[ds[0]] + SumOfCounts(ks, ds[1..])
  }

  lemma {:induction false} SumOfCountsSnoc<K>(ks: seq<K>, k: K, ds: seq<K>)
    ensures SumOfCounts(ks + [k], ds) == SumOfCounts(ks, ds) + multiset(ds)[k]
  {
    if ds != [] {
      SumOfCountsSnoc(ks, k, ds[1..]);
      assert ds == [ds[0]] + ds[1..];
      assert multiset(ds) == multiset([ds[0]]) + multiset(ds[1..]);
    }
  }

  lemma {:induction false} NoDupsMultiset<T>(s: seq<T>, x: T)
    requires NoDups(s)
    ensures multiset(s)[x] == if x in s then 1 else 0
  {
    if s != [] {
      assert NoDups(s[1..]) by {
        forall i, j | 0 <= i < j < |s[1..]| ensures s[1..][i] != s[1..][j] {
          assert s[1..][i] == s[i + 1] && s[1..][j] == s[j + 1];
        }
      }
      NoDupsMultiset(s[1..], x);
      assert s == [s[0]] + s[1..];
      assert multiset(s) == multiset([s[0]]) + multiset(s[1..]);
      if s[0] == x {
        assert x !in s[1..] by {
          forall k | 0 <= k < |s[1..]| ensures s[1..][k] != x {
            assert s[1..][k] == s[k + 1];
          }
        }
      }
    }
  }

  /** When `ds` lists every key exactly once, the counts add up to `|ks|`. */
  lemma {:induction false} SumOfCountsCovers<K>(ks: seq<K>, ds: seq<K>)
    requires NoDups(ds)
    requires forall k | k in ks :: k in ds
    ensures SumOfCounts(ks, ds) == |ks|
  {
    if ks == [] {
      SumOfCountsEmpty(ds);
    } else {
      var init := ks[..|ks| - 1];
      var k := ks[|ks| - 1];
      assert ks == init + [k];
      SumOfCountsCovers(init, ds);
      SumOfCountsSnoc(init, k, ds);
      NoDupsMultiset(ds, k);
    }
  }

  lemma {:induction false} SumOfCountsEmpty<K>(ds: seq<K>)
    ensures SumOfCounts([], ds) == 0
  {
    if ds != [] {
      SumOfCountsEmpty(ds[1..]);
    }
  }
}

/**
 * The array operations the pages apply to their record lists:
 * `Array.prototype.filter` (FilterBy), `filter(...).length` (CountBy) and
 * `[...new Set(xs)]` (Distinct), with the facts the pages depend on.
 */
module Lists {

  /**
   * `r` is an order-preserving subsequence of `s`, decided by matching each
   * element of `r` against the earliest remaining element of `s` equal to it.
   */
  ghost predicate IsSubsequence<T>(r: seq<T>, s: seq<T>)
    decreases |s|
  {
    if |r| == 0 then true
    else if |s| == 0 then false
    else if r[0] == s[0] then IsSubsequence(r[1..], s[1..])
    else IsSubsequence(r, s[1..])
  }

  /** `s.filter(p)`: the elements satisfying `p`, in their original order. */
  function FilterBy<T>(s: seq<T>, p: T -> bool): (r: seq<T>)
    ensures |r| <= |s|
  {
    if |s| == 0 then []
    else if p(s[0]) then [s[0]] + FilterBy(s[1..], p)
    else FilterBy(s[1..], p)
  }

  /**
   * What the filter keeps: only elements meeting `p`, only elements of `s`,
   * every element of `s` meeting `p`, and in their original order
   * (FilterMultiplicity adds that every copy is kept).
   */
  lemma {:induction false} FilterShape<T>(s: seq<T>, p: T -> bool)
    ensures forall i :: 0 <= i < |FilterBy(s, p)| ==> p(FilterBy(s, p)[i])
    ensures forall i :: 0 <= i < |FilterBy(s, p)| ==> FilterBy(s, p)[i] in s
    ensures forall i :: 0 <= i < |s| && p(s[i]) ==> s[i] in FilterBy(s, p)
    ensures IsSubsequence(FilterBy(s, p), s)
  {
    if |s| > 0 {
      var t := s[1..];
      FilterShape(t, p);
      var f := FilterBy(t, p);
      assert forall x :: x in t ==> x in s;
      if p(s[0]) {
        var r := [s[0]] + f;
        assert forall i :: 1 <= i < |r| ==> r[i] == f[i - 1];
        assert r[1..] == f;
        forall i | 0 <= i < |s| && p(s[i]) ensures s[i] in r {
          if i > 0 { assert s[i] == t[i - 1]; }
        }
      } else {
        forall i | 0 <= i < |s| && p(s[i]) ensures s[i] in f {
          assert i > 0 && s[i] == t[i - 1];
        }
        assert |f| > 0 ==> f[0] != s[0];
      }
    }
  }

  /** The filter keeps every copy of a value meeting `p` and no copy of any other value. */
  lemma {:induction false} FilterMultiplicity<T>(s: seq<T>, p: T -> bool)
    ensures forall x :: multiset(FilterBy(s, p))[x] == if p(x) then multiset(s)[x] else 0
  {
    if |s| > 0 {
      var t := s[1..];
      FilterMultiplicity(t, p);
      assert s == [s[0]] + t;
      assert multiset(s) == multiset([s[0]]) + multiset(t);
      if p(s[0]) {
        assert multiset(FilterBy(s, p)) == multiset([s[0]]) + multiset(FilterBy(t, p));
      }
    }
  }

  /** `s.filter(p).length`. */
  function CountBy<T>(s: seq<T>, p: T -> bool): (n: nat)
    ensures n <= |s|
  {
    |FilterBy(s, p)|
  }

  /** Filtering with a predicate every element meets returns the whole list. */
  lemma {:induction false} FilterAllTrue<T>(s: seq<T>, p: T -> bool)
    requires forall i :: 0 <= i < |s| ==> p(s[i])
    ensures FilterBy(s, p) == s
  {
    if |s| > 0 {
      FilterAllTrue(s[1..], p);
    }
  }

  /** Filtering with a predicate no element meets returns nothing. */
  lemma {:induction false} FilterNoneTrue<T>(s: seq<T>, p: T -> bool)
    requires forall i :: 0 <= i < |s| ==> !p(s[i])
    ensures FilterBy(s, p) == []
  {
    if |s| > 0 {
      FilterNoneTrue(s[1..], p);
    }
  }

  /** Filtering distributes over concatenation. */
  lemma {:induction false} FilterConcat<T>(a: seq<T>, b: seq<T>, p: T -> bool)
    ensures FilterBy(a + b, p) == FilterBy(a, p) + FilterBy(b, p)
  {
    if |a| == 0 {
      assert a + b == b;
    } else {
      assert (a + b)[0] == a[0];
      assert (a + b)[1..] == a[1..] + b;
      FilterConcat(a[1..], b, p);
      if p(a[0]) {
        calc {
          FilterBy(a + b, p);
          [a[0]] + FilterBy(a[1..] + b, p);
          [a[0]] + (FilterBy(a[1..], p) + FilterBy(b, p));
          ([a[0]] + FilterBy(a[1..], p)) + FilterBy(b, p);
        }
      }
    }
  }

  /** Two predicates that agree on every element of `s` filter it alike. */
  lemma {:induction false} FilterAgree<T>(s: seq<T>, p: T -> bool, q: T -> bool)
    requires forall i :: 0 <= i < |s| ==> p(s[i]) == q(s[i])
    ensures FilterBy(s, p) == FilterBy(s, q)
  {
    if |s| > 0 {
      FilterAgree(s[1..], p, q);
    }
  }

  /** Filtering out exactly the element at index `k` drops that one element. */
  lemma {:induction false} FilterDropsOne<T>(s: seq<T>, p: T -> bool, k: nat)
    requires k < |s| && !p(s[k])
    requires forall i :: 0 <= i < |s| && i != k ==> p(s[i])
    ensures FilterBy(s, p) == s[..k] + s[k + 1..]
  {
    if k == 0 {
      assert forall i :: 0 <= i < |s[1..]| ==> p(s[1..][i]) by {
        forall i | 0 <= i < |s[1..]| ensures p(s[1..][i]) { assert s[1..][i] == s[i + 1]; }
      }
      FilterAllTrue(s[1..], p);
    } else {
      var t := s[1..];
      assert forall i :: 0 <= i < |t| && i != k - 1 ==> p(t[i]) by {
        forall i | 0 <= i < |t| && i != k - 1 ensures p(t[i]) { assert t[i] == s[i + 1]; }
      }
      assert t[k - 1] == s[k];
      FilterDropsOne(t, p, k - 1);
      var head, f := [s[0]], FilterBy(t, p);
      assert FilterBy(s, p) == head + f;
      assert s[..k] == head + t[..k - 1];
      assert s[k + 1..] == t[k..];
      calc {
        head + f;
        head + (t[..k - 1] + t[k..]);
        (head + t[..k - 1]) + t[k..];
      }
    }
  }

  /**
   * Counts under two predicates that never hold together, plus the count of
   * elements meeting neither, make up the whole list.
   */
  lemma {:induction false} CountPartition2<T>(s: seq<T>, p: T -> bool, q: T -> bool)
    requires forall i :: 0 <= i < |s| ==> !(p(s[i]) && q(s[i]))
    ensures CountBy(s, p) + CountBy(s, q) + CountBy(s, x => !p(x) && !q(x)) == |s|
    ensures (forall i :: 0 <= i < |s| ==> p(s[i]) || q(s[i])) ==> CountBy(s, p) + CountBy(s, q) == |s|
    ensures (exists i :: 0 <= i < |s| && !p(s[i]) && !q(s[i])) ==> CountBy(s, p) + CountBy(s, q) < |s|
  {
    if |s| > 0 {
      var t := s[1..];
      CountPartition2(t, p, q);
      if exists i :: 0 <= i < |s| && !p(s[i]) && !q(s[i]) {
        var i :| 0 <= i < |s| && !p(s[i]) && !q(s[i]);
        if i > 0 {
          assert t[i - 1] == s[i];
        }
      }
    }
  }

  /** The same for three pairwise exclusive predicates. */
  lemma {:induction false} CountPartition3<T>(s: seq<T>, p: T -> bool, q: T -> bool, r: T -> bool)
    requires forall i :: 0 <= i < |s| ==> !(p(s[i]) && q(s[i])) && !(p(s[i]) && r(s[i])) && !(q(s[i]) && r(s[i]))
    ensures CountBy(s, p) + CountBy(s, q) + CountBy(s, r) + CountBy(s, x => !p(x) && !q(x) && !r(x)) == |s|
    ensures (forall i :: 0 <= i < |s| ==> p(s[i]) || q(s[i]) || r(s[i])) ==>
      CountBy(s, p) + CountBy(s, q) + CountBy(s, r) == |s|
  {
    if |s| > 0 {
      CountPartition3(s[1..], p, q, r);
    }
  }

  // ---------------------------------------------------------------------------
  // Ids assigned as length + 1
  // ---------------------------------------------------------------------------

  /** Every record's id is its 1-based position: what length-based ids give when nothing was deleted. */
  ghost predicate IdsArePositions<T>(s: seq<T>, idOf: T -> int)
  {
    forall i :: 0 <= i < |s| ==> idOf(s[i]) == i + 1
  }

  /** Position-numbered ids are pairwise distinct. */
  lemma PositionIdsDistinct<T>(s: seq<T>, idOf: T -> int)
    requires IdsArePositions(s, idOf)
    ensures forall i, j :: 0 <= i < |s| && 0 <= j < |s| && idOf(s[i]) == idOf(s[j]) ==> i == j
  {
  }

  /**
   * Deleting a record that is not the last one from a position-numbered list
   * and then appending one with id `length + 1` repeats the id of the old
   * last record.
   */
  lemma LengthIdCollision<T>(s: seq<T>, idOf: T -> int, keep: T -> bool, k: int, x: T)
    requires IdsArePositions(s, idOf)
    requires 1 <= k < |s|
    requires forall y :: keep(y) == (idOf(y) != k)
    requires idOf(x) == |FilterBy(s, keep)| + 1
    ensures FilterBy(s, keep) == s[..k - 1] + s[k..]
    ensures |FilterBy(s, keep) + [x]| == |s|
    ensures idOf((FilterBy(s, keep) + [x])[|s| - 2]) == |s|
    ensures idOf((FilterBy(s, keep) + [x])[|s| - 1]) == |s|
  {
    FilterDropsOne(s, keep, k - 1);
  }

  // ---------------------------------------------------------------------------
  // [...new Set(xs)]
  // ---------------------------------------------------------------------------

  ghost predicate NoDuplicates<T>(s: seq<T>)
  {
    forall i, j :: 0 <= i < j < |s| ==> s[i] != s[j]
  }

  /** The index of the first occurrence of `x` in `s`. */
  function FirstIndex<T(==)>(s: seq<T>, x: T): (i: nat)
    requires x in s
    ensures i < |s| && s[i] == x && x !in s[..i]
  {
    if s[0] == x then 0
    else
      var j := FirstIndex(s[1..], x);
      assert s[..j + 1] == [s[0]] + s[1..][..j];
      j + 1
  }

  /** `[...new Set(s)]`: each distinct value once, in first-occurrence order. */
  function Distinct<T(==)>(s: seq<T>): (r: seq<T>)
    ensures NoDuplicates(r)
    ensures forall i :: 0 <= i < |r| ==> r[i] in s
    ensures forall i :: 0 <= i < |s| ==> s[i] in r
  {
    if |s| == 0 then []
    else
      var rest := Distinct(s[..|s| - 1]);
      var last := s[|s| - 1];
      assert s == s[..|s| - 1] + [last];
      if last in rest then rest else rest + [last]
  }

  /** A sequence without repeated values is its own Distinct. */
  lemma {:induction false} DistinctOfNoDuplicates<T>(s: seq<T>)
    requires NoDuplicates(s)
    ensures Distinct(s) == s
  {
    if |s| > 0 {
      var pre := s[..|s| - 1];
      DistinctOfNoDuplicates(pre);
      assert s[|s| - 1] !in pre;
      assert s == pre + [s[|s| - 1]];
    }
  }

  /** The first occurrence of a value in a prefix is its first occurrence in the whole. */
  lemma FirstIndexPrefix<T>(s: seq<T>, n: nat, x: T)
    requires n <= |s| && x in s[..n]
    ensures FirstIndex(s, x) == FirstIndex(s[..n], x)
  {
    var i := FirstIndex(s[..n], x);
    var j := FirstIndex(s, x);
    assert s[..n][..i] == s[..i];
    assert s[i] == x;
    assert x !in s[..i];
    assert x !in s[..j];
  }

  /** The values of Distinct appear in the order of their first occurrences in `s`. */
  lemma {:induction false} DistinctFirstOccurrenceOrder<T>(s: seq<T>)
    ensures forall i, j :: 0 <= i < j < |Distinct(s)| ==>
      FirstIndex(s, Distinct(s)[i]) < FirstIndex(s, Distinct(s)[j])
  {
    if |s| > 0 {
      var n := |s| - 1;
      var pre := s[..n];
      var rest := Distinct(pre);
      var last := s[n];
      var r := Distinct(s);
      DistinctFirstOccurrenceOrder(pre);
      forall x | x in rest ensures FirstIndex(s, x) == FirstIndex(pre, x) < n {
        FirstIndexPrefix(s, n, x);
      }
      if last in rest {
        assert r == rest;
        forall i, j | 0 <= i < j < |r| ensures FirstIndex(s, r[i]) < FirstIndex(s, r[j]) {
          assert r[i] in rest && r[j] in rest;
        }
      } else {
        assert r == rest + [last];
        assert last !in pre;
        assert FirstIndex(s, last) == n by {
          assert s[..n] == pre;
        }
        forall i, j | 0 <= i < j < |r| ensures FirstIndex(s, r[i]) < FirstIndex(s, r[j]) {
          assert r[i] == rest[i];
          if j < |rest| {
            assert r[j] == rest[j];
          }
        }
      }
    }
  }

  /** The cardinality of the set of elements of a duplicate-free sequence is its length. */
  lemma {:induction false} NoDuplicatesCard<T>(s: seq<T>)
    requires NoDuplicates(s)
    ensures |set x | x in s| == |s|
  {
    if |s| > 0 {
      var t := s[..|s| - 1];
      NoDuplicatesCard(t);
      assert s == t + [s[|s| - 1]];
      assert (set x | x in s) == (set x | x in t) + {s[|s| - 1]};
      assert s[|s| - 1] !in t;
    }
  }

  /** Distinct has one entry per distinct value of `s`. */
  lemma DistinctCount<T>(s: seq<T>)
    ensures |Distinct(s)| == |set x | x in s|
  {
    NoDuplicatesCard(Distinct(s));
    assert (set x | x in Distinct(s)) == (set x | x in s);
  }
}

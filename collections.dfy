/**
 * Operations on sequences of primary keys that stand for the ORM's query sets: filtering
 * keeps the matching rows in order, ordering by a date sorts newest first, slicing takes
 * a prefix and counting is the length of a filtered sequence.
 */
module Collections {

  /** The primary keys 0 .. n-1 of a table with n rows. */
  function Range(n: nat): (r: seq<nat>)
    ensures |r| == n
    ensures forall i :: 0 <= i < n ==> r[i] == i
    ensures forall x: nat :: x in r <==> x < n
  {
    var r := seq(n, i requires 0 <= i => i as nat);
    RangeMembers(n, r);
    r
  }

  lemma RangeMembers(n: nat, r: seq<nat>)
    requires |r| == n && forall i :: 0 <= i < n ==> r[i] == i
    ensures forall x: nat :: x in r <==> x < n
  {
    forall x: nat ensures x in r <==> x < n {
      if x < n {
        assert r[x] == x;
      }
    }
  }

  predicate Distinct(s: seq<nat>) {
    forall i, j :: 0 <= i < j < |s| ==> s[i] != s[j]
  }

  lemma RangeDistinct(n: nat)
    ensures Distinct(Range(n))
  {
  }

  /** The elements of `s` that satisfy `p`, in their original order. */
  function Filter(s: seq<nat>, p: nat -> bool): (r: seq<nat>)
    ensures |r| <= |s|
    ensures forall x :: x in r <==> x in s && p(x)
    ensures multiset(r) <= multiset(s)
  {
    if s == [] then []
    else
      assert s == [s[0]] + s[1..];
      (if p(s[0]) then [s[0]] else []) + Filter(s[1..], p)
  }

  lemma {:induction false} FilterDistinct(s: seq<nat>, p: nat -> bool)
    requires Distinct(s)
    ensures Distinct(Filter(s, p))
  {
    if s != [] {
      FilterDistinct(s[1..], p);
      var rest := Filter(s[1..], p);
      assert s[0] !in s[1..];
      assert s[0] !in rest;
    }
  }

  /** The members of a sequence, as a set. */
  function Members(s: seq<nat>): (r: set<nat>)
    ensures forall x :: x in r <==> x in s
  {
    set x | x in s
  }

  /** Dropping the head of a sequence without repeats leaves one without repeats. */
  lemma DistinctTail(s: seq<nat>)
    requires s != [] && Distinct(s)
    ensures Distinct(s[1..])
    ensures s[0] !in s[1..]
  {
    var rest := s[1..];
    forall i, j | 0 <= i < j < |rest| ensures rest[i] != rest[j] {
      assert rest[i] == s[i + 1] && rest[j] == s[j + 1];
    }
    forall k | 0 <= k < |rest| ensures rest[k] != s[0] {
      assert rest[k] == s[k + 1];
    }
  }

  /** A sequence without repeats has as many elements as it has members. */
  lemma {:induction false} DistinctCardinality(s: seq<nat>)
    requires Distinct(s)
    ensures |Members(s)| == |s|
  {
    if s != [] {
      var rest := s[1..];
      DistinctTail(s);
      DistinctCardinality(rest);
      assert s == [s[0]] + rest;
      assert Members(s) == Members(rest) + {s[0]};
    }
  }

  /** Two predicates that never hold together select at most |s| elements between them. */
  lemma {:induction false} DisjointFilters(s: seq<nat>, p: nat -> bool, q: nat -> bool)
    requires forall x :: !(p(x) && q(x))
    ensures |Filter(s, p)| + |Filter(s, q)| <= |s|
  {
    if s != [] {
      DisjointFilters(s[1..], p, q);
    }
  }

  /** Strictly increasing: rows in primary-key order. */
  predicate Increasing(s: seq<nat>) {
    forall i, j :: 0 <= i < j < |s| ==> s[i] < s[j]
  }

  lemma RangeIncreasing(n: nat)
    ensures Increasing(Range(n))
  {
  }

  lemma {:induction false} FilterIncreasing(s: seq<nat>, p: nat -> bool)
    requires Increasing(s)
    ensures Increasing(Filter(s, p))
  {
    if s != [] {
      FilterIncreasing(s[1..], p);
      var rest := Filter(s[1..], p);
      if p(s[0]) {
        forall j | 0 <= j < |rest| ensures s[0] < rest[j] {
          assert rest[j] in s[1..];
        }
      }
    }
  }

  /** Sorted newest first: keys never increase along the sequence. */
  ghost predicate SortedDesc(s: seq<nat>, key: nat -> int) {
    forall i, j :: 0 <= i < j < |s| ==> key(s[i]) >= key(s[j])
  }

  /** Inserts `x` before the first element whose key is smaller than its own. */
  function InsertDesc(x: nat, s: seq<nat>, key: nat -> int): (r: seq<nat>)
    requires SortedDesc(s, key)
    ensures SortedDesc(r, key)
    ensures forall y :: y in r <==> y == x || y in s
  {
    if s == [] then [x]
    else if key(x) >= key(s[0]) then [x] + s
    else
      var rest := InsertDesc(x, s[1..], key);
      assert forall y :: y in rest ==> key(s[0]) >= key(y);
      [s[0]] + rest
  }

  lemma {:induction false} InsertDescPermutes(x: nat, s: seq<nat>, key: nat -> int)
    requires SortedDesc(s, key)
    ensures multiset(InsertDesc(x, s, key)) == multiset(s) + multiset{x}
  {
    if s != [] && key(x) < key(s[0]) {
      assert s == [s[0]] + s[1..];
      InsertDescPermutes(x, s[1..], key);
    }
  }

  /** Permutations have the same members. */
  lemma SameElements(a: seq<nat>, b: seq<nat>, x: nat)
    requires multiset(a) == multiset(b)
    ensures x in a <==> x in b
  {
    assert x in a <==> x in multiset(a);
    assert x in b <==> x in multiset(b);
  }

  /** A prefix element that the rest does not contain keeps a distinct sequence distinct. */
  lemma ConsDistinct(a: nat, s: seq<nat>)
    requires a !in s && Distinct(s)
    ensures Distinct([a] + s)
  {
    var t := [a] + s;
    forall i, j | 0 <= i < j < |t| ensures t[i] != t[j] {
      assert t[j] == s[j - 1];
      if i > 0 { assert t[i] == s[i - 1]; }
    }
  }

  lemma {:induction false} InsertDescDistinct(x: nat, s: seq<nat>, key: nat -> int)
    requires SortedDesc(s, key)
    requires x !in s && Distinct(s)
    ensures Distinct(InsertDesc(x, s, key))
  {
    if s == [] {
    } else if key(x) >= key(s[0]) {
      ConsDistinct(x, s);
    } else {
      assert s == [s[0]] + s[1..];
      InsertDescDistinct(x, s[1..], key);
      ConsDistinct(s[0], InsertDesc(x, s[1..], key));
    }
  }

  /** Insertion sort into non-increasing key order; the result is a permutation of the input. */
  function SortDesc(s: seq<nat>, key: nat -> int): (r: seq<nat>)
    ensures SortedDesc(r, key)
    ensures multiset(r) == multiset(s)
  {
    if s == [] then []
    else
      assert s == [s[0]] + s[1..];
      var rest := SortDesc(s[1..], key);
      InsertDescPermutes(s[0], rest, key);
      InsertDesc(s[0], rest, key)
  }

  lemma {:induction false} SortDescDistinct(s: seq<nat>, key: nat -> int)
    requires Distinct(s)
    ensures Distinct(SortDesc(s, key))
  {
    if s != [] {
      assert s == [s[0]] + s[1..];
      SortDescDistinct(s[1..], key);
      var rest := SortDesc(s[1..], key);
      assert s[0] !in s[1..];
      SameElements(rest, s[1..], s[0]);
      InsertDescDistinct(s[0], rest, key);
    }
  }

  /** Sorting keeps exactly the same members. */
  lemma SortDescMembers(s: seq<nat>, key: nat -> int)
    ensures forall x :: x in SortDesc(s, key) <==> x in s
  {
    forall x ensures x in SortDesc(s, key) <==> x in s {
      SameElements(SortDesc(s, key), s, x);
    }
  }

  lemma {:induction false} FilterSortedDesc(s: seq<nat>, p: nat -> bool, key: nat -> int)
    requires SortedDesc(s, key)
    ensures SortedDesc(Filter(s, p), key)
  {
    if s != [] {
      FilterSortedDesc(s[1..], p, key);
      var rest := Filter(s[1..], p);
      if p(s[0]) {
        forall j | 0 <= j < |rest| ensures key(s[0]) >= key(rest[j]) {
          assert rest[j] in s[1..];
        }
      }
    }
  }

  /** The first `n` elements, or all of them when there are fewer (a query-set slice). */
  function Take(s: seq<nat>, n: nat): (r: seq<nat>)
    ensures |r| <= n && |r| <= |s|
    ensures |s| >= n ==> |r| == n
    ensures |s| < n ==> r == s
    ensures forall i :: 0 <= i < |r| ==> r[i] == s[i]
  {
    if |s| <= n then s else s[..n]
  }
}

/** Generic sequence operations: first-appearance de-duplication, filtering and counting. */
module Seqs {

  /** No element occurs twice. */
  predicate NoDuplicates<T(==)>(s: seq<T>)
  {
    forall i, j :: 0 <= i < j < |s| ==> s[i] != s[j]
  }

  /** The position where `x` first occurs in `s`. */
  function FirstIndex<T(==)>(s: seq<T>, x: T): (i: nat)
    requires x in s
    ensures i < |s| && s[i] == x && x !in s[..i]
    decreases |s|
  {
    var p := s[..|s| - 1];
    if x in p then
      var j := FirstIndex(p, x);
      assert s[..j] == p[..j];
      j
    else
      assert s[..|s| - 1] == p;
      |s| - 1
  }

  /** The elements of `s`, each kept at its first occurrence, in the order of those
      occurrences: pandas' `unique()` and `drop_duplicates()` (keep="first"). */
  function Distinct<T(==)>(s: seq<T>): seq<T>
    decreases |s|
  {
    if |s| == 0 then []
    else
      var d := Distinct(s[..|s| - 1]);
      if s[|s| - 1] in d then d else d + [s[|s| - 1]]
  }

  /** Distinct keeps exactly the elements of its input. */
  lemma {:induction false} DistinctSameElements<T>(s: seq<T>)
    ensures forall x :: x in Distinct(s) <==> x in s
    ensures |Distinct(s)| <= |s|
    decreases |s|
  {
    if |s| > 0 {
      var p := s[..|s| - 1];
      DistinctSameElements(p);
      assert s == p + [s[|s| - 1]];
    }
  }

  /** Distinct never keeps an element twice. */
  lemma {:induction false} DistinctNoDuplicates<T>(s: seq<T>)
    ensures NoDuplicates(Distinct(s))
    decreases |s|
  {
    if |s| > 0 {
      DistinctNoDuplicates(s[..|s| - 1]);
    }
  }

  /** Distinct keeps the first occurrences in their original order. */
  lemma {:induction false} DistinctFirstAppearance<T>(s: seq<T>)
    ensures forall x :: x in Distinct(s) ==> x in s
    ensures forall x :: x in s ==> x in Distinct(s)
    ensures forall j, k :: 0 <= j < k < |Distinct(s)| ==>
              FirstIndex(s, Distinct(s)[j]) < FirstIndex(s, Distinct(s)[k])
    decreases |s|
  {
    DistinctSameElements(s);
    if |s| > 0 {
      var p := s[..|s| - 1];
      var x := s[|s| - 1];
      DistinctFirstAppearance(p);
      DistinctSameElements(p);
      var d := Distinct(p);
      forall y | y in p
        ensures FirstIndex(s, y) == FirstIndex(p, y)
      {
        var i := FirstIndex(p, y);
        assert s[i] == y && s[..i] == p[..i];
        FirstIndexUnique(s, y, i);
      }
      if x !in d {
        forall j | 0 <= j < |d|
          ensures FirstIndex(s, d[j]) < FirstIndex(s, x)
        {
          assert s[..|s| - 1] == p;
          FirstIndexUnique(s, x, |s| - 1);
        }
      }
    }
  }

  /** The first occurrence is the only position holding `x` with no earlier `x`. */
  lemma FirstIndexUnique<T>(s: seq<T>, x: T, i: nat)
    requires i < |s| && s[i] == x && x !in s[..i]
    ensures FirstIndex(s, x) == i
  {
    var k := FirstIndex(s, x);
  }

  /** A sequence without duplicates is its own Distinct; one with duplicates shrinks. */
  lemma {:induction false} DistinctShrinksIffDuplicates<T>(s: seq<T>)
    ensures |Distinct(s)| == |s| <==> NoDuplicates(s)
    ensures NoDuplicates(s) ==> Distinct(s) == s
    decreases |s|
  {
    DistinctSameElements(s);
    if |s| > 0 {
      var p := s[..|s| - 1];
      var x := s[|s| - 1];
      DistinctShrinksIffDuplicates(p);
      DistinctSameElements(p);
      if NoDuplicates(s) {
        assert NoDuplicates(p);
        assert x !in p;
        assert s == p + [x];
      } else if |Distinct(s)| == |s| {
        assert x !in Distinct(p);
        assert |Distinct(p)| == |p|;
        assert NoDuplicates(p);
        assert x !in p;
        assert NoDuplicates(s) by {
          forall i, j | 0 <= i < j < |s| ensures s[i] != s[j] {
            if j < |s| - 1 {
              assert s[i] == p[i] && s[j] == p[j];
            } else {
              assert s[i] == p[i];
            }
          }
        }
      }
    }
  }

  /** The elements of `s` that satisfy `p`, in order (a boolean mask in pandas). */
  function Filter<T>(s: seq<T>, p: T -> bool): (r: seq<T>)
    ensures |r| <= |s|
    ensures forall x :: x in r ==> x in s && p(x)
  {
    if |s| == 0 then [] else (if p(s[0]) then [s[0]] else []) + Filter(s[1..], p)
  }

  /** Filtering distributes over appending one element. */
  lemma {:induction false} FilterSnoc<T>(s: seq<T>, x: T, p: T -> bool)
    ensures Filter(s + [x], p) == Filter(s, p) + (if p(x) then [x] else [])
  {
    if |s| > 0 {
      FilterSnoc(s[1..], x, p);
      assert (s + [x])[1..] == s[1..] + [x];
    }
  }

  /** Filtering by two masks that agree on the sequence gives the same result. */
  lemma {:induction false} FilterCongruent<T>(s: seq<T>, p: T -> bool, q: T -> bool)
    requires forall i :: 0 <= i < |s| ==> p(s[i]) == q(s[i])
    ensures Filter(s, p) == Filter(s, q)
  {
    if |s| > 0 {
      FilterCongruent(s[1..], p, q);
    }
  }

  /** A mask that no element satisfies keeps nothing. */
  lemma {:induction false} FilterNone<T>(s: seq<T>, p: T -> bool)
    requires forall i :: 0 <= i < |s| ==> !p(s[i])
    ensures Filter(s, p) == []
  {
    if |s| > 0 {
      FilterNone(s[1..], p);
    }
  }

  /** Filtering keeps every element that satisfies the predicate. */
  lemma {:induction false} FilterKeeps<T>(s: seq<T>, p: T -> bool, x: T)
    requires x in s && p(x)
    ensures x in Filter(s, p)
  {
    if s[0] != x {
      FilterKeeps(s[1..], p, x);
    }
  }

  /** Filtering a sequence without duplicates gives one without duplicates. */
  lemma {:induction false} FilterNoDuplicates<T>(s: seq<T>, p: T -> bool)
    requires NoDuplicates(s)
    ensures NoDuplicates(Filter(s, p))
  {
    if |s| > 0 {
      FilterNoDuplicates(s[1..], p);
    }
  }

  /** Filtering a sequence without duplicates keeps the kept elements in their order. */
  lemma {:induction false} FilterOrdered<T>(s: seq<T>, p: T -> bool)
    requires NoDuplicates(s)
    ensures forall j, k :: 0 <= j < k < |Filter(s, p)| ==>
              IndexOf(s, Filter(s, p)[j]) < IndexOf(s, Filter(s, p)[k])
  {
    if |s| > 0 {
      FilterOrdered(s[1..], p);
      var r := Filter(s, p);
      var t := Filter(s[1..], p);
      forall j, k | 0 <= j < k < |r| ensures IndexOf(s, r[j]) < IndexOf(s, r[k]) {
        assert r[k] in t by {
          if p(s[0]) { assert r[k] == t[k - 1]; } else { assert r[k] == t[k]; }
        }
        assert r[k] != s[0];
        if p(s[0]) && j == 0 {
        } else {
          var j' := if p(s[0]) then j - 1 else j;
          var k' := if p(s[0]) then k - 1 else k;
          assert r[j] == t[j'] && r[k] == t[k'];
          assert r[j] != s[0];
        }
      }
    }
  }

  /** A mask and its negation split a sequence into two parts that together hold every
      element exactly as often as the sequence does. */
  lemma {:induction false} FilterPartition<T>(s: seq<T>, p: T -> bool, q: T -> bool)
    requires forall x :: q(x) == !p(x)
    ensures multiset(Filter(s, p)) + multiset(Filter(s, q)) == multiset(s)
    ensures |Filter(s, p)| + |Filter(s, q)| == |s|
  {
    if |s| > 0 {
      FilterPartition(s[1..], p, q);
      assert s == [s[0]] + s[1..];
    }
  }

  /** How many times `x` occurs in `s`. */
  function Count<T(==)>(s: seq<T>, x: T): nat
  {
    if |s| == 0 then 0 else (if s[0] == x then 1 else 0) + Count(s[1..], x)
  }

  /** An element occurs at least once exactly when it is present. */
  lemma {:induction false} CountPositive<T>(s: seq<T>, x: T)
    ensures Count(s, x) > 0 <==> x in s
    ensures Count(s, x) <= |s|
  {
    if |s| > 0 {
      CountPositive(s[1..], x);
    }
  }

  /** The position of an element of a sequence without duplicates. */
  function IndexOf<T(==)>(s: seq<T>, x: T): (i: nat)
    requires x in s
    ensures i < |s| && s[i] == x
    ensures NoDuplicates(s) ==> forall j :: 0 <= j < |s| && s[j] == x ==> j == i
  {
    if s[0] == x then 0 else 1 + IndexOf(s[1..], x)
  }
}

/** The column summaries pandas computes while cleaning and reporting: median, sum, mean and
    mode, each over the non-missing values only. */
module Aggregates {
  import opened Wrappers
  import opened Values
  import opened Seqs

  predicate Sorted(t: seq<real>)
  {
    forall i, j :: 0 <= i < j < |t| ==> t[i] <= t[j]
  }

  function Insert(x: real, t: seq<real>): (r: seq<real>)
    ensures |r| == |t| + 1
  {
    if |t| == 0 then [x]
    else if x <= t[0] then [x] + t
    else [t[0]] + Insert(x, t[1..])
  }

  /** Insertion sort; used only to define the median. */
  function Sort(s: seq<real>): (t: seq<real>)
    ensures |t| == |s|
  {
    if |s| == 0 then [] else Insert(s[0], Sort(s[1..]))
  }

  lemma {:induction false} InsertPermutes(x: real, t: seq<real>)
    ensures multiset(Insert(x, t)) == multiset(t) + multiset{x}
    ensures forall y :: y in Insert(x, t) <==> y in t || y == x
  {
    if |t| > 0 && x > t[0] {
      InsertPermutes(x, t[1..]);
      assert t == [t[0]] + t[1..];
    }
  }

  lemma {:induction false} InsertSorted(x: real, t: seq<real>)
    requires Sorted(t)
    ensures Sorted(Insert(x, t))
  {
    if |t| > 0 && x > t[0] {
      InsertSorted(x, t[1..]);
      InsertPermutes(x, t[1..]);
      var r := Insert(x, t[1..]);
      var q := Insert(x, t);
      assert q == [t[0]] + r;
      forall j | 0 < j < |q| ensures t[0] <= q[j] {
        assert q[j] == r[j - 1] && r[j - 1] in r;
      }
    }
  }

  /** Sort returns an ordered permutation of its input. */
  lemma {:induction false} SortCorrect(s: seq<real>)
    ensures Sorted(Sort(s))
    ensures multiset(Sort(s)) == multiset(s)
  {
    SortSorted(s);
    SortPermutes(s);
  }

  lemma {:induction false} SortSorted(s: seq<real>)
    ensures Sorted(Sort(s))
  {
    if |s| > 0 {
      SortSorted(s[1..]);
      InsertSorted(s[0], Sort(s[1..]));
    }
  }

  lemma {:induction false} SortPermutes(s: seq<real>)
    ensures multiset(Sort(s)) == multiset(s)
  {
    if |s| > 0 {
      SortPermutes(s[1..]);
      InsertPermutes(s[0], Sort(s[1..]));
      assert s == [s[0]] + s[1..];
    }
  }

  /** How many values lie strictly above `m`. */
  function CountAbove(s: seq<real>, m: real): (n: nat)
    ensures n <= |s|
  {
    if |s| == 0 then 0 else (if s[0] > m then 1 else 0) + CountAbove(s[1..], m)
  }

  /** How many values lie strictly below `m`. */
  function CountBelow(s: seq<real>, m: real): (n: nat)
    ensures n <= |s|
  {
    if |s| == 0 then 0 else (if s[0] < m then 1 else 0) + CountBelow(s[1..], m)
  }

  lemma {:induction false} CountsInsert(x: real, t: seq<real>, m: real)
    ensures CountAbove(Insert(x, t), m) == CountAbove(t, m) + (if x > m then 1 else 0)
    ensures CountBelow(Insert(x, t), m) == CountBelow(t, m) + (if x < m then 1 else 0)
  {
    if |t| > 0 && x > t[0] {
      CountsInsert(x, t[1..], m);
    }
  }

  /** Sorting does not change how many values lie above or below a threshold. */
  lemma {:induction false} CountsSort(s: seq<real>, m: real)
    ensures CountAbove(Sort(s), m) == CountAbove(s, m)
    ensures CountBelow(Sort(s), m) == CountBelow(s, m)
  {
    if |s| > 0 {
      CountsSort(s[1..], m);
      CountsInsert(s[0], Sort(s[1..]), m);
    }
  }

  lemma {:induction false} SortedCountAbove(t: seq<real>, k: nat, m: real)
    requires Sorted(t) && k < |t| && t[k] <= m
    ensures CountAbove(t, m) <= |t| - 1 - k
  {
    if k > 0 {
      SortedCountAbove(t[1..], k - 1, m);
    }
  }

  lemma {:induction false} SortedCountBelow(t: seq<real>, k: nat, m: real)
    requires Sorted(t) && k < |t| && m <= t[k]
    ensures CountBelow(t, m) <= k
  {
    if k > 0 {
      SortedCountBelow(t[1..], k - 1, m);
    } else if |t| > 1 {
      SortedCountBelow(t[1..], 0, m);
    }
  }

  /** pandas' median of the non-missing values: the middle value, or the mean of the two
      middle values when their number is even; NaN (here None) when there are none. */
  function Median(s: seq<real>): (m: Option<real>)
    ensures m.Some? <==> |s| > 0
  {
    if |s| == 0 then None
    else
      var t := Sort(s);
      var n := |t|;
      if n % 2 == 1 then Some(t[n / 2]) else Some((t[n / 2 - 1] + t[n / 2]) / 2.0)
  }

  /** At most half of the values lie strictly above the median, and at most half strictly
      below it. */
  lemma MedianBalanced(s: seq<real>)
    requires |s| > 0
    ensures CountAbove(s, Median(s).value) <= |s| / 2
    ensures CountBelow(s, Median(s).value) <= |s| / 2
  {
    var t := Sort(s);
    var n := |t|;
    var m := Median(s).value;
    SortCorrect(s);
    CountsSort(s, m);
    if n % 2 == 1 {
      SortedCountAbove(t, n / 2, m);
      SortedCountBelow(t, n / 2, m);
    } else {
      assert t[n / 2 - 1] <= t[n / 2];
      SortedCountAbove(t, n / 2 - 1, m);
      SortedCountBelow(t, n / 2, m);
    }
  }

  lemma {:induction false} NotAllBelow(s: seq<real>, m: real)
    requires CountBelow(s, m) < |s|
    ensures exists i :: 0 <= i < |s| && m <= s[i]
  {
    if s[0] < m {
      NotAllBelow(s[1..], m);
      var i :| 0 <= i < |s[1..]| && m <= s[1..][i];
      assert s[i + 1] == s[1..][i];
    }
  }

  lemma {:induction false} NotAllAbove(s: seq<real>, m: real)
    requires CountAbove(s, m) < |s|
    ensures exists i :: 0 <= i < |s| && s[i] <= m
  {
    if s[0] > m {
      NotAllAbove(s[1..], m);
      var i :| 0 <= i < |s[1..]| && s[1..][i] <= m;
      assert s[i + 1] == s[1..][i];
    }
  }

  /** The median lies between the smallest and the largest value. */
  lemma MedianWithinRange(s: seq<real>)
    requires |s| > 0
    ensures exists i :: 0 <= i < |s| && s[i] <= Median(s).value
    ensures exists j :: 0 <= j < |s| && Median(s).value <= s[j]
  {
    MedianBalanced(s);
    NotAllBelow(s, Median(s).value);
    NotAllAbove(s, Median(s).value);
  }

  /** The median of equal values is that value. */
  lemma MedianOfConstant(s: seq<real>, c: real)
    requires |s| > 0
    requires forall i :: 0 <= i < |s| ==> s[i] == c
    ensures Median(s) == Some(c)
  {
    var t := Sort(s);
    SortCorrect(s);
    forall k | 0 <= k < |t| ensures t[k] == c {
      assert t[k] in multiset(s);
    }
  }

  function Sum(s: seq<real>): real
  {
    if |s| == 0 then 0.0 else s[0] + Sum(s[1..])
  }

  /** pandas' mean of the non-missing values; NaN (here None) when there are none. */
  function Mean(s: seq<real>): (r: Option<real>)
    ensures r.Some? <==> |s| > 0
  {
    if |s| == 0 then None else Some(Sum(s) / (|s| as real))
  }

  lemma {:induction false} SumWithin(s: seq<real>, lo: real, hi: real)
    requires forall i :: 0 <= i < |s| ==> lo <= s[i] <= hi
    ensures (|s| as real) * lo <= Sum(s) <= (|s| as real) * hi
  {
    if |s| > 0 {
      SumWithin(s[1..], lo, hi);
    }
  }

  /** A mean of values in [lo, hi] lies in [lo, hi]. */
  lemma MeanWithin(s: seq<real>, lo: real, hi: real)
    requires |s| > 0
    requires forall i :: 0 <= i < |s| ==> lo <= s[i] <= hi
    ensures lo <= Mean(s).value <= hi
  {
    SumWithin(s, lo, hi);
    var n := |s| as real;
    assert Sum(s) / n >= lo by {
      assert Sum(s) >= n * lo;
    }
    assert Sum(s) / n <= hi by {
      assert Sum(s) <= n * hi;
    }
  }

  /** The best candidate: most frequent in `vals`, the smallest of equally frequent ones. */
  function ModeAmong(vals: seq<Value>, cands: seq<Value>): (m: Value)
    requires |cands| > 0
    ensures m in cands
  {
    if |cands| == 1 then cands[0]
    else
      var b := ModeAmong(vals, cands[1..]);
      var c := cands[0];
      if Count(vals, c) > Count(vals, b) || (Count(vals, c) == Count(vals, b) && Less(c, b)) then c else b
  }

  /** `Series.mode()[0]`: the smallest of the most frequent values. */
  function Mode(vals: seq<Value>): Value
    requires |vals| > 0
  {
    ModeAmong(vals, vals)
  }

  lemma {:induction false} ModeAmongCorrect(vals: seq<Value>, cands: seq<Value>)
    requires |cands| > 0
    ensures forall v :: v in cands ==> Count(vals, v) <= Count(vals, ModeAmong(vals, cands))
    ensures forall v :: v in cands && Count(vals, v) == Count(vals, ModeAmong(vals, cands)) ==>
              v == ModeAmong(vals, cands) || Less(ModeAmong(vals, cands), v)
  {
    if |cands| > 1 {
      var rest := cands[1..];
      ModeAmongCorrect(vals, rest);
      var b := ModeAmong(vals, rest);
      var c := cands[0];
      assert cands == [c] + rest;
      if Count(vals, c) > Count(vals, b) || (Count(vals, c) == Count(vals, b) && Less(c, b)) {
        forall v | v in rest && Count(vals, v) == Count(vals, c) ensures v == c || Less(c, v) {
          if v != b {
            LessTransitive(c, b, v);
          }
        }
      } else {
        LessTotal(b, c);
      }
    }
  }

  /** The mode occurs among the values, no value occurs more often, and every value occurring
      as often is not smaller. */
  lemma ModeIsSmallestMostFrequent(vals: seq<Value>)
    requires |vals| > 0
    ensures Mode(vals) in vals
    ensures forall v :: v in vals ==> Count(vals, v) <= Count(vals, Mode(vals))
    ensures forall v :: v in vals && Count(vals, v) == Count(vals, Mode(vals)) ==>
              v == Mode(vals) || Less(Mode(vals), v)
  {
    ModeAmongCorrect(vals, vals);
  }
}

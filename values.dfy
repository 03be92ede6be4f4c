/** Cell values of a table and the order pandas sorts them in. */
module Values {
  import opened Seqs

  /** A non-missing cell: a number (every numeric dtype), a string, or a boolean. */
  datatype Value = Num(x: real) | Str(s: string) | Flag(b: bool)

  /** Python's string order: character by character on code points; a proper prefix comes first. */
  predicate StrLess(a: string, b: string)
  {
    if |a| == 0 then |b| > 0
    else if |b| == 0 then false
    else if a[0] != b[0] then a[0] < b[0]
    else StrLess(a[1..], b[1..])
  }

  /** Where a kind of value goes when values of different kinds are sorted together. */
  function Rank(v: Value): nat
  {
    match v
    case Num(_) => 0
    case Flag(_) => 1
    case Str(_) => 2
  }

  /** The strict order used to sort labels and categories: numbers by size, False before True,
      strings as Python compares them; numbers before booleans before strings. */
  predicate Less(a: Value, b: Value)
  {
    match (a, b)
    case (Num(x), Num(y)) => x < y
    case (Flag(p), Flag(q)) => !p && q
    case (Str(s), Str(t)) => StrLess(s, t)
    case _ => Rank(a) < Rank(b)
  }

  lemma {:induction false} StrLessIrreflexive(a: string)
    ensures !StrLess(a, a)
  {
    if |a| > 0 {
      StrLessIrreflexive(a[1..]);
    }
  }

  lemma {:induction false} StrLessTransitive(a: string, b: string, c: string)
    requires StrLess(a, b) && StrLess(b, c)
    ensures StrLess(a, c)
  {
    if |a| > 0 && |b| > 0 && |c| > 0 && a[0] == b[0] && b[0] == c[0] {
      StrLessTransitive(a[1..], b[1..], c[1..]);
    }
  }

  lemma {:induction false} StrLessTotal(a: string, b: string)
    ensures a == b || StrLess(a, b) || StrLess(b, a)
  {
    if |a| > 0 && |b| > 0 && a[0] == b[0] {
      StrLessTotal(a[1..], b[1..]);
      if a[1..] == b[1..] {
        assert a == [a[0]] + a[1..] && b == [b[0]] + b[1..];
      }
    }
  }

  lemma LessIrreflexive(a: Value)
    ensures !Less(a, a)
  {
    if a.Str? {
      StrLessIrreflexive(a.s);
    }
  }

  lemma LessTransitive(a: Value, b: Value, c: Value)
    requires Less(a, b) && Less(b, c)
    ensures Less(a, c)
  {
    if a.Str? && b.Str? && c.Str? {
      StrLessTransitive(a.s, b.s, c.s);
    }
  }

  lemma LessTotal(a: Value, b: Value)
    ensures a == b || Less(a, b) || Less(b, a)
  {
    if a.Str? && b.Str? {
      StrLessTotal(a.s, b.s);
    }
  }

  lemma LessAsymmetric(a: Value, b: Value)
    requires Less(a, b)
    ensures !Less(b, a)
  {
    if Less(b, a) {
      LessTransitive(a, b, a);
      LessIrreflexive(a);
    }
  }

  /** Every value comes strictly before the next one. */
  predicate StrictlySorted(s: seq<Value>)
  {
    forall i, j :: 0 <= i < j < |s| ==> Less(s[i], s[j])
  }

  lemma StrictlySortedNoDuplicates(s: seq<Value>)
    requires StrictlySorted(s)
    ensures NoDuplicates(s)
  {
    forall i, j | 0 <= i < j < |s| ensures s[i] != s[j] {
      LessIrreflexive(s[i]);
    }
  }

  /** Adds `v` to the strictly sorted `t` unless it is already there. */
  function InsertLabel(t: seq<Value>, v: Value): seq<Value>
  {
    if |t| == 0 then [v]
    else if v == t[0] then t
    else if Less(v, t[0]) then [v] + t
    else [t[0]] + InsertLabel(t[1..], v)
  }

  /** The distinct values of `s` in ascending order: the labels of a pandas index built by
      grouping (`crosstab`) and the categories of `pd.Categorical`. */
  function SortedLabels(s: seq<Value>): seq<Value>
  {
    if |s| == 0 then [] else InsertLabel(SortedLabels(s[..|s| - 1]), s[|s| - 1])
  }

  lemma {:induction false} InsertLabelSorted(t: seq<Value>, v: Value)
    requires StrictlySorted(t)
    ensures StrictlySorted(InsertLabel(t, v))
    ensures forall x :: x in InsertLabel(t, v) <==> x in t || x == v
  {
    if |t| > 0 && v != t[0] {
      if Less(v, t[0]) {
        forall j | 0 < j < |t| ensures Less(v, t[j]) {
          LessTransitive(v, t[0], t[j]);
        }
      } else {
        LessTotal(v, t[0]);
        InsertLabelSorted(t[1..], v);
        var r := InsertLabel(t[1..], v);
        assert forall x :: x in r ==> Less(t[0], x);
        assert t == [t[0]] + t[1..];
      }
    }
  }

  /** SortedLabels holds each value of its input once, in ascending order. */
  lemma {:induction false} SortedLabelsCorrect(s: seq<Value>)
    ensures StrictlySorted(SortedLabels(s))
    ensures NoDuplicates(SortedLabels(s))
    ensures forall x :: x in SortedLabels(s) <==> x in s
  {
    if |s| > 0 {
      var p := s[..|s| - 1];
      SortedLabelsCorrect(p);
      InsertLabelSorted(SortedLabels(p), s[|s| - 1]);
      assert s == p + [s[|s| - 1]];
    }
    StrictlySortedNoDuplicates(SortedLabels(s));
  }
}

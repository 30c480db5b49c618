/**
 * `df[df[c] > df[c].quantile(0.75)]`: the rows whose score is strictly above the
 * 75th percentile, computed with pandas' default linear interpolation.
 */
module TopQuartile {
  import opened Wrappers
  import opened Frame

  /** The non-missing numbers of column `c`, in row order (what `quantile` looks at). */
  function Values(rows: seq<Row>, c: string): seq<real>
  {
    if rows == [] then []
    else (if Cell(rows[0], c).Num? then [Cell(rows[0], c).x] else []) + Values(rows[1..], c)
  }

  predicate SortedAsc(s: seq<real>)
  {
    forall i, j :: 0 <= i < j < |s| ==> s[i] <= s[j]
  }

  lemma SortedAscCons(x: real, s: seq<real>)
    requires SortedAsc(s)
    requires forall k :: 0 <= k < |s| ==> x <= s[k]
    ensures SortedAsc([x] + s)
  {
    forall i, j | 0 <= i < j < |[x] + s| ensures ([x] + s)[i] <= ([x] + s)[j] {
      assert ([x] + s)[j] == s[j - 1];
      if i > 0 {
        assert ([x] + s)[i] == s[i - 1];
      }
    }
  }

  /** A lower bound of `a` and of `x` bounds every element of a permutation of `a` plus `x`. */
  lemma LowerBoundPreserved(lo: real, x: real, a: seq<real>, b: seq<real>)
    requires forall k :: 0 <= k < |a| ==> lo <= a[k]
    requires lo <= x
    requires multiset(b) == multiset(a) + multiset{x}
    ensures forall k :: 0 <= k < |b| ==> lo <= b[k]
  {
    forall k | 0 <= k < |b| ensures lo <= b[k] {
      assert b[k] in multiset(b);
      if b[k] != x {
        assert b[k] in multiset(a);
        var j :| 0 <= j < |a| && a[j] == b[k];
      }
    }
  }

  function InsertAsc(x: real, s: seq<real>): (r: seq<real>)
    requires SortedAsc(s)
    ensures SortedAsc(r)
    ensures |r| == |s| + 1
    ensures multiset(r) == multiset(s) + multiset{x}
  {
    if s == [] || x <= s[0] then
      SortedAscCons(x, s);
      [x] + s
    else
      var rest := InsertAsc(x, s[1..]);
      assert s == [s[0]] + s[1..];
      LowerBoundPreserved(s[0], x, s[1..], rest);
      SortedAscCons(s[0], rest);
      [s[0]] + rest
  }

  /** The order statistics of `xs`: its values sorted ascending. */
  function SortAsc(xs: seq<real>): (s: seq<real>)
    ensures SortedAsc(s)
    ensures |s| == |xs|
    ensures multiset(s) == multiset(xs)
  {
    if xs == [] then []
    else
      assert xs == [xs[0]] + xs[1..];
      InsertAsc(xs[0], SortAsc(xs[1..]))
  }

  /** The integer part of the interpolation position 0.75 * (n - 1). */
  function LowerRank(n: nat): nat
    requires n > 0
  {
    (3 * (n - 1)) / 4
  }

  /** The fractional part of the interpolation position 0.75 * (n - 1). */
  function Fraction(n: nat): real
    requires n > 0
  {
    ((3 * (n - 1)) % 4) as real / 4.0
  }

  /** The position splits into the lower rank and a fraction in [0, 1). */
  lemma PositionSplit(n: nat)
    requires n > 0
    ensures LowerRank(n) as real + Fraction(n) == 0.75 * (n - 1) as real
    ensures 0.0 <= Fraction(n) < 1.0
    ensures LowerRank(n) < n
    ensures Fraction(n) > 0.0 ==> LowerRank(n) + 1 < n
  {
    var p := 3 * (n - 1);
    assert p == 4 * (p / 4) + p % 4;
  }

  /** The index of the upper order statistic: the next one, or the last when there is none. */
  function UpperRank(n: nat): nat
    requires n > 0
  {
    if LowerRank(n) + 1 < n then LowerRank(n) + 1 else LowerRank(n)
  }

  /** numpy's linear rule on sorted values: s[lo] + fraction * (s[hi] - s[lo]). */
  function Interpolate(s: seq<real>): real
    requires s != []
  {
    PositionSplit(|s|);
    s[LowerRank(|s|)] + Fraction(|s|) * (s[UpperRank(|s|)] - s[LowerRank(|s|)])
  }

  /** On sorted values the interpolated value lies between the two order statistics it uses. */
  lemma InterpolateBetween(s: seq<real>)
    requires s != [] && SortedAsc(s)
    ensures LowerRank(|s|) < |s| && UpperRank(|s|) < |s|
    ensures s[LowerRank(|s|)] <= Interpolate(s) <= s[UpperRank(|s|)]
  {
    PositionSplit(|s|);
    var a, b := s[LowerRank(|s|)], s[UpperRank(|s|)];
    assert a <= b;
    ScaleBetween(Fraction(|s|), b - a);
  }

  lemma ScaleBetween(f: real, d: real)
    requires 0.0 <= f < 1.0 && 0.0 <= d
    ensures 0.0 <= f * d <= d
  {
    assert d - f * d == (1.0 - f) * d;
  }

  /**
   * `Series.quantile(0.75)`: linear interpolation between the order statistics
   * around position 0.75 * (n - 1); NaN when the column has no numbers.
   */
  function Quantile75(xs: seq<real>): (q: Option<real>)
    ensures q.None? <==> xs == []
  {
    if xs == [] then None else Some(Interpolate(SortAsc(xs)))
  }

  /** The quantile lies between the smallest and the largest value. */
  lemma Quantile75Bounds(xs: seq<real>, lo: real, hi: real)
    requires xs != []
    requires forall i :: 0 <= i < |xs| ==> lo <= xs[i] <= hi
    ensures lo <= Quantile75(xs).value <= hi
  {
    var s := SortAsc(xs);
    InterpolateBetween(s);
    assert s[LowerRank(|s|)] in multiset(xs) && s[UpperRank(|s|)] in multiset(xs);
  }

  /** The rows whose number in column `c` is strictly above `q`, in row order. */
  function Above(rows: seq<Row>, c: string, q: real): seq<Row>
  {
    if rows == [] then []
    else (if Cell(rows[0], c).Num? && Cell(rows[0], c).x > q then [rows[0]] else []) + Above(rows[1..], c, q)
  }

  /** Line 161: the rows with a performance score strictly above the 75th percentile. */
  function TopPerformers(rows: seq<Row>): seq<Row>
    requires NumericColumn(rows, "Performance_Score")
  {
    match Quantile75(Values(rows, "Performance_Score"))
    case None => []
    case Some(q) => Above(rows, "Performance_Score", q)
  }

  /** `a` is `b` with some elements left out, the rest kept in order. */
  predicate IsSubsequence<T(==)>(a: seq<T>, b: seq<T>)
  {
    if a == [] then true
    else if b == [] then false
    else (a[0] == b[0] && IsSubsequence(a[1..], b[1..])) || IsSubsequence(a, b[1..])
  }

  lemma {:induction false} AboveIsSubsequence(rows: seq<Row>, c: string, q: real)
    ensures IsSubsequence(Above(rows, c, q), rows)
  {
    if rows != [] {
      AboveIsSubsequence(rows[1..], c, q);
      var r := Above(rows, c, q);
      if Cell(rows[0], c).Num? && Cell(rows[0], c).x > q {
        assert r[0] == rows[0] && r[1..] == Above(rows[1..], c, q);
      } else if r != [] {
        assert r == Above(rows[1..], c, q);
      }
    }
  }

  lemma {:induction false} AboveMembers(rows: seq<Row>, c: string, q: real)
    ensures forall r :: r in Above(rows, c, q) <==> r in rows && Cell(r, c).Num? && Cell(r, c).x > q
  {
    if rows != [] {
      AboveMembers(rows[1..], c, q);
      assert forall r :: r in rows <==> r == rows[0] || r in rows[1..];
    }
  }

  /** The number of values strictly above `q`. */
  function CountGreater(xs: seq<real>, q: real): nat
  {
    if xs == [] then 0 else (if xs[0] > q then 1 else 0) + CountGreater(xs[1..], q)
  }

  lemma {:induction false} AboveCount(rows: seq<Row>, c: string, q: real)
    ensures |Above(rows, c, q)| == CountGreater(Values(rows, c), q)
  {
    if rows != [] {
      AboveCount(rows[1..], c, q);
      var v := Values(rows, c);
      if Cell(rows[0], c).Num? {
        assert v[0] == Cell(rows[0], c).x && v[1..] == Values(rows[1..], c);
      } else {
        assert v == Values(rows[1..], c);
      }
    }
  }

  lemma {:induction false} CountGreaterInsert(x: real, s: seq<real>, q: real)
    requires SortedAsc(s)
    ensures CountGreater(InsertAsc(x, s), q) == CountGreater(s, q) + (if x > q then 1 else 0)
  {
    var r := InsertAsc(x, s);
    if s == [] || x <= s[0] {
      assert r == [x] + s && r[1..] == s;
    } else {
      CountGreaterInsert(x, s[1..], q);
      assert r == [s[0]] + InsertAsc(x, s[1..]);
      assert r[0] == s[0] && r[1..] == InsertAsc(x, s[1..]);
    }
  }

  /** Sorting does not change how many values are above a threshold. */
  lemma {:induction false} CountGreaterSort(xs: seq<real>, q: real)
    ensures CountGreater(SortAsc(xs), q) == CountGreater(xs, q)
  {
    if xs != [] {
      CountGreaterSort(xs[1..], q);
      CountGreaterInsert(xs[0], SortAsc(xs[1..]), q);
    }
  }

  /** In sorted values, none of the first k + 1 exceeds a threshold at least s[k]. */
  lemma {:induction false} CountGreaterSorted(s: seq<real>, k: nat, q: real)
    requires SortedAsc(s) && k < |s| && s[k] <= q
    ensures CountGreater(s, q) <= |s| - k - 1
  {
    if k == 0 {
      CountGreaterAtMost(s[1..], q);
    } else {
      assert s[0] <= s[k];
      CountGreaterSorted(s[1..], k - 1, q);
    }
  }

  lemma {:induction false} CountGreaterAtMost(s: seq<real>, q: real)
    ensures CountGreater(s, q) <= |s|
  {
    if s != [] {
      CountGreaterAtMost(s[1..], q);
    }
  }

  /**
   * The top performers are exactly the rows scoring strictly above the 75th
   * percentile, in their original order; with n scores there are at most
   * n - 1 - floor(0.75 * (n - 1)) of them.
   */
  lemma TopPerformersSpec(rows: seq<Row>)
    requires NumericColumn(rows, "Performance_Score")
    ensures IsSubsequence(TopPerformers(rows), rows)
    ensures Values(rows, "Performance_Score") == [] ==> TopPerformers(rows) == []
    ensures Values(rows, "Performance_Score") != [] ==>
      var q := Quantile75(Values(rows, "Performance_Score")).value;
      forall r :: r in TopPerformers(rows) <==> r in rows && Cell(r, "Performance_Score").Num? && Cell(r, "Performance_Score").x > q
    ensures Values(rows, "Performance_Score") != [] ==>
      |TopPerformers(rows)| == CountGreater(Values(rows, "Performance_Score"), Quantile75(Values(rows, "Performance_Score")).value)
    ensures Values(rows, "Performance_Score") != [] ==>
      var n := |Values(rows, "Performance_Score")|;
      |TopPerformers(rows)| <= n - 1 - LowerRank(n)
  {
    var c := "Performance_Score";
    var xs := Values(rows, c);
    if xs != [] {
      var q := Quantile75(xs).value;
      AboveIsSubsequence(rows, c, q);
      AboveMembers(rows, c, q);
      AboveCount(rows, c, q);
      CountGreaterSort(xs, q);
      var s := SortAsc(xs);
      InterpolateBetween(s);
      CountGreaterSorted(s, LowerRank(|xs|), q);
    }
  }

  /**
   * Sorted scores 40, 55, 80, 85: the position is 0.75 * 3 = 2.25, so the
   * percentile is 80 + 0.25 * (85 - 80) = 81.25.
   */
  lemma InterpolateExample()
    ensures Interpolate([40.0, 55.0, 80.0, 85.0]) == 81.25
  {
    assert LowerRank(4) == 2 && UpperRank(4) == 3 && Fraction(4) == 0.25;
  }
}
